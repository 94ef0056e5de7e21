/**
 Settings per timing context: the stored values are searched for the context of a query, then for
 less and less specific ones. The map of stored values is a hash map, so each scan sees its entries
 in an order that nothing determines; here they are a sequence, and order is what is studied.
 */
module CtxSetting {
  import opened Wrappers
  import opened TimingCtx
  import SettingHistory
  import SettingRuns

  datatype Context = Context(selector: Selector, bpcts: int)

  const NULL_CONTEXT := Context(ALL, 0)

  datatype Entry<T> = Entry(key: Context, value: T)

  /** The context with its last `level` numbers replaced by wildcards. */
  function Ancestor(c: Context, level: nat): Context {
    var Selector(cid, sid, pid, gid) := c.selector;
    Context(if level == 0 then c.selector
            else if level == 1 then Selector(cid, sid, pid, WILDCARD)
            else if level == 2 then Selector(cid, sid, WILDCARD, WILDCARD)
            else if level == 3 then Selector(cid, WILDCARD, WILDCARD, WILDCARD)
            else ALL,
            c.bpcts)
  }

  /** The last `level` numbers are wildcards. */
  predicate Blank(q: Selector, level: nat) {
    (level >= 1 ==> q.gid == WILDCARD) && (level >= 2 ==> q.pid == WILDCARD) && (level >= 3 ==> q.sid == WILDCARD)
  }

  /** What each of the scans accepts; the middle ones compare selectors only. */
  predicate Candidate(key: Context, query: Context, level: nat) {
    if level == 0 || level >= 4 then key == Ancestor(query, level)
    else Matches(key.selector, Ancestor(query, level).selector) && Blank(key.selector, level)
  }

  function First<T>(es: seq<Entry<T>>, query: Context, level: nat): (i: nat)
    ensures i <= |es| && (i < |es| ==> Candidate(es[i].key, query, level))
    ensures forall k | 0 <= k < i :: !Candidate(es[k].key, query, level)
  {
    if es == [] || Candidate(es[0].key, query, level) then 0 else 1 + First(es[1..], query, level)
  }

  predicate Present<T>(es: seq<Entry<T>>, query: Context, level: nat) {
    exists i | 0 <= i < |es| :: Candidate(es[i].key, query, level)
  }

  datatype Found<T> = Found(context: Context, value: T)

  /** The first entry of the first scan that finds one, from `level` on. */
  function GetFrom<T>(es: seq<Entry<T>>, query: Context, level: nat, default: T): Found<T>
    requires level <= 5
    decreases 5 - level
  {
    if level == 5 then Found(NULL_CONTEXT, default)
    else
      var i := First(es, query, level);
      if i < |es| then Found(if level == 4 then NULL_CONTEXT else Ancestor(query, level), es[i].value)
      else GetFrom(es, query, level + 1, default)
  }

  function Get<T>(es: seq<Entry<T>>, query: Context, default: T): Found<T> {
    GetFrom(es, query, 0, default)
  }

  method Scan<T>(es: seq<Entry<T>>, query: Context, level: nat) returns (i: nat)
    ensures i == First(es, query, level)
  {
    i := 0;
    while i < |es| && !Candidate(es[i].key, query, level)
      invariant i <= |es|
      invariant forall k | 0 <= k < i :: !Candidate(es[k].key, query, level)
    {
      i := i + 1;
    }
    var first := First(es, query, level);
    assert !(first < i) && !(i < first);
  }

  method Lookup<T>(es: seq<Entry<T>>, query: Context, default: T) returns (r: Found<T>)
    ensures r == Get(es, query, default)
  {
    for level := 0 to 5
      invariant Get(es, query, default) == GetFrom(es, query, level, default)
    {
      var i := Scan(es, query, level);
      if i < |es| {
        return Found(if level == 4 then NULL_CONTEXT else Ancestor(query, level), es[i].value);
      }
    }
    r := Found(NULL_CONTEXT, default);
  }

  // ----- order ----------------------------------------------------------------------------------------------

  /** The first level at which something is stored; 5 if nothing is. */
  function Level<T>(es: seq<Entry<T>>, query: Context, from: nat): (level: nat)
    requires from <= 5
    ensures from <= level <= 5
    ensures forall l | from <= l < level :: !Present(es, query, l)
    ensures level < 5 ==> Present(es, query, level)
    decreases 5 - from
  {
    if from == 5 || First(es, query, from) < |es| then from else Level(es, query, from + 1)
  }

  lemma {:induction false} GetFromLevel<T>(es: seq<Entry<T>>, query: Context, from: nat, default: T)
    requires from <= 5
    ensures GetFrom(es, query, from, default) == GetFrom(es, query, Level(es, query, from), default)
    decreases 5 - from
  {
    if from < 5 && First(es, query, from) == |es| {
      GetFromLevel(es, query, from + 1, default);
    }
  }

  /** Everything stored at the first level that has something has the same value. */
  ghost predicate Unambiguous<T>(es: seq<Entry<T>>, query: Context) {
    var level := Level(es, query, 0);
    forall i, j | 0 <= i < |es| && 0 <= j < |es|
                  && Candidate(es[i].key, query, level) && Candidate(es[j].key, query, level) ::
      es[i].value == es[j].value
  }

  ghost predicate Permutation<T>(es: seq<Entry<T>>, fs: seq<Entry<T>>) {
    multiset(es) == multiset(fs)
  }

  lemma PermutedPresent<T>(es: seq<Entry<T>>, fs: seq<Entry<T>>, query: Context, level: nat)
    requires Permutation(es, fs)
    ensures Present(es, query, level) <==> Present(fs, query, level)
  {
    if Present(es, query, level) {
      var i :| 0 <= i < |es| && Candidate(es[i].key, query, level);
      assert es[i] in multiset(es);
      assert es[i] in fs;
    }
    if Present(fs, query, level) {
      var i :| 0 <= i < |fs| && Candidate(fs[i].key, query, level);
      assert fs[i] in multiset(fs);
      assert fs[i] in es;
    }
  }

  lemma PermutedLevel<T>(es: seq<Entry<T>>, fs: seq<Entry<T>>, query: Context)
    requires Permutation(es, fs)
    ensures Level(es, query, 0) == Level(fs, query, 0)
  {
    var a, b := Level(es, query, 0), Level(fs, query, 0);
    PermutedPresent(es, fs, query, a);
    PermutedPresent(es, fs, query, b);
  }

  lemma GetIs<T>(es: seq<Entry<T>>, query: Context, default: T)
    ensures var level := Level(es, query, 0);
            if level == 5 then Get(es, query, default) == Found(NULL_CONTEXT, default)
            else var i := First(es, query, level);
                 i < |es| && Get(es, query, default)
                             == Found(if level == 4 then NULL_CONTEXT else Ancestor(query, level), es[i].value)
  {
    GetFromLevel(es, query, 0, default);
  }

  lemma UnambiguousIsStable<T>(es: seq<Entry<T>>, fs: seq<Entry<T>>, query: Context, default: T)
    requires Permutation(es, fs) && Unambiguous(es, query)
    ensures Get(es, query, default) == Get(fs, query, default)
  {
    var level := Level(es, query, 0);
    PermutedLevel(es, fs, query);
    GetIs(es, query, default);
    GetIs(fs, query, default);
    if level < 5 {
      var j := First(fs, query, level);
      assert fs[j] in multiset(fs);
      assert fs[j] in es;
    }
  }

  /** The order with the i-th entry in front. */
  function Fronted<T>(es: seq<Entry<T>>, i: nat): seq<Entry<T>>
    requires i < |es|
  {
    [es[i]] + es[..i] + es[i + 1..]
  }

  lemma FrontedPermutes<T>(es: seq<Entry<T>>, i: nat)
    requires i < |es|
    ensures Permutation(es, Fronted(es, i))
  {
    assert es == es[..i] + [es[i]] + es[i + 1..];
  }

  lemma FrontedGet<T>(es: seq<Entry<T>>, query: Context, default: T, i: nat)
    requires Level(es, query, 0) < 5 && i < |es| && Candidate(es[i].key, query, Level(es, query, 0))
    ensures Get(Fronted(es, i), query, default).value == es[i].value
  {
    FrontedPermutes(es, i);
    PermutedLevel(es, Fronted(es, i), query);
    GetIs(Fronted(es, i), query, default);
  }

  /** The result is the same for every order of the entries exactly if the first level agrees. */
  lemma OrderIrrelevantIff<T>(es: seq<Entry<T>>, query: Context, default: T)
    ensures (forall fs | Permutation(es, fs) :: Get(fs, query, default) == Get(es, query, default))
            <==> Level(es, query, 0) == 5 || Unambiguous(es, query)
  {
    var level := Level(es, query, 0);
    if level == 5 || Unambiguous(es, query) {
      forall fs | Permutation(es, fs) ensures Get(fs, query, default) == Get(es, query, default) {
        PermutedLevel(es, fs, query);
        if level == 5 {
          GetIs(es, query, default);
          GetIs(fs, query, default);
        } else {
          UnambiguousIsStable(es, fs, query, default);
        }
      }
    } else {
      var i, j :| 0 <= i < |es| && 0 <= j < |es| && Candidate(es[i].key, query, level)
                  && Candidate(es[j].key, query, level) && es[i].value != es[j].value;
      FrontedPermutes(es, i);
      FrontedPermutes(es, j);
      FrontedGet(es, query, default, i);
      FrontedGet(es, query, default, j);
    }
  }

  // ----- the most specific ancestor ---------------------------------------------------------------------------

  /** Some order of the entries of a map: each key once, with its value. */
  ghost predicate Enumerates<T>(es: seq<Entry<T>>, m: map<Context, T>) {
    && (forall i | 0 <= i < |es| :: es[i].key in m && m[es[i].key] == es[i].value)
    && (forall k | k in m :: exists i :: 0 <= i < |es| && es[i].key == k)
  }

  predicate FullySpecified(q: Selector) {
    q.cid != WILDCARD && q.sid != WILDCARD && q.pid != WILDCARD && q.gid != WILDCARD
  }

  /** Whatever the first level found accepts has the start time of the query. */
  ghost predicate OwnTime<T>(es: seq<Entry<T>>, query: Context) {
    var level := Level(es, query, 0);
    level < 5 ==>
      forall i | 0 <= i < |es| && Candidate(es[i].key, query, level) :: es[i].key.bpcts == query.bpcts
  }

  /** The key that a lookup finds in a given order, if it finds any. */
  function FoundKey<T>(es: seq<Entry<T>>, query: Context): Option<Context> {
    var level := Level(es, query, 0);
    var i := First(es, query, level);
    if level < 5 && i < |es| then Some(es[i].key) else None
  }

  /** The value of a lookup is the one stored under the key it finds, or the default. */
  lemma GetIsFound<T>(es: seq<Entry<T>>, query: Context, default: T)
    ensures match FoundKey(es, query)
            case Some(key) => exists i :: 0 <= i < |es| && es[i] == Entry(key, Get(es, query, default).value)
            case None => Get(es, query, default) == Found(NULL_CONTEXT, default)
  {
    GetIs(es, query, default);
    var level := Level(es, query, 0);
    if level < 5 {
      var i := First(es, query, level);
      assert es[i] == Entry(es[i].key, es[i].value);
    }
  }

  /** Every order finds a value of the query's own start time, exactly if the first level has no other. */
  lemma OwnTimeIff<T>(es: seq<Entry<T>>, query: Context)
    ensures (forall fs | Permutation(es, fs) && FoundKey(fs, query).Some? ::
               FoundKey(fs, query).value.bpcts == query.bpcts)
            <==> OwnTime(es, query)
  {
    var level := Level(es, query, 0);
    if OwnTime(es, query) {
      forall fs | Permutation(es, fs) && FoundKey(fs, query).Some?
        ensures FoundKey(fs, query).value.bpcts == query.bpcts
      {
        PermutedLevel(es, fs, query);
        var j := First(fs, query, level);
        assert fs[j] in multiset(fs);
        assert fs[j] in es;
      }
    } else {
      var i :| 0 <= i < |es| && Candidate(es[i].key, query, level) && es[i].key.bpcts != query.bpcts;
      var fs := Fronted(es, i);
      FrontedPermutes(es, i);
      PermutedLevel(es, fs, query);
      assert fs[0] == es[i];
      assert First(fs, query, level) == 0;
      assert FoundKey(fs, query) == Some(es[i].key);
    }
  }

  /** The value stored for the first ancestor of the query, from `level` on, that has one. */
  function MostSpecific<T>(m: map<Context, T>, query: Context, level: nat, default: T): T
    requires level <= 5
    decreases 5 - level
  {
    if level == 5 then default
    else if Ancestor(query, level) in m then m[Ancestor(query, level)]
    else MostSpecific(m, query, level + 1, default)
  }

  /** For a fully specified query each scan accepts one selector only. */
  lemma CandidateIsAncestor(key: Context, query: Context, level: nat)
    requires level < 5 && FullySpecified(query.selector) && key.bpcts == query.bpcts
    ensures Candidate(key, query, level) <==> key == Ancestor(query, level)
  {
  }

  lemma AncestorIsCandidate(query: Context, level: nat)
    requires level < 5 && FullySpecified(query.selector)
    ensures Candidate(Ancestor(query, level), query, level)
  {
  }

  lemma AbsentBelow<T>(es: seq<Entry<T>>, m: map<Context, T>, query: Context, l: nat)
    requires Enumerates(es, m) && FullySpecified(query.selector) && l < Level(es, query, 0)
    ensures Ancestor(query, l) !in m
  {
    if Ancestor(query, l) in m {
      var k :| 0 <= k < |es| && es[k].key == Ancestor(query, l);
      AncestorIsCandidate(query, l);
      assert Present(es, query, l);
    }
  }

  lemma {:induction false} MostSpecificFrom<T>(m: map<Context, T>, query: Context, from: nat, level: nat, default: T)
    requires from <= level <= 5 && forall l | from <= l < level :: Ancestor(query, l) !in m
    ensures MostSpecific(m, query, from, default) == MostSpecific(m, query, level, default)
    decreases level - from
  {
    if from < level {
      MostSpecificFrom(m, query, from + 1, level, default);
    }
  }

  /**
   A fully specified query finds the value of its most specific stored ancestor, or the default,
   in every order of the map, if the first level found holds no other start time.
   */
  lemma GetFindsMostSpecific<T>(es: seq<Entry<T>>, m: map<Context, T>, query: Context, default: T)
    requires Enumerates(es, m) && FullySpecified(query.selector) && OwnTime(es, query)
    ensures Get(es, query, default).value == MostSpecific(m, query, 0, default)
  {
    var level := Level(es, query, 0);
    GetIs(es, query, default);
    forall l | 0 <= l < level ensures Ancestor(query, l) !in m {
      AbsentBelow(es, m, query, l);
    }
    MostSpecificFrom(m, query, 0, level, default);
    if level < 5 {
      var i := First(es, query, level);
      CandidateIsAncestor(es[i].key, query, level);
    }
  }

  /** Values stored for two beam production chains are confused by the scans in the middle. */
  lemma OtherTimeIsFound<T>(value: T, default: T)
    ensures var query := Context(Selector(1, 1, 1, 1), 7);
            var es := [Entry(Context(Selector(1, 1, 1, WILDCARD), 5), value)];
            Get(es, query, default) == Found(Ancestor(query, 1), value)
  {
    var query := Context(Selector(1, 1, 1, 1), 7);
    var es := [Entry(Context(Selector(1, 1, 1, WILDCARD), 5), value)];
    assert First(es, query, 0) == 1;
    assert First(es, query, 1) == 0;
  }

  /** The documented query of an incomplete context depends on the order of the hash map. */
  lemma IncompleteQueryDependsOnOrder(default: int)
    ensures var a := Entry(Context(Selector(1, 1, 1, WILDCARD), 0), 102);
            var b := Entry(Context(Selector(1, 1, WILDCARD, WILDCARD), 0), 103);
            var query := Context(Selector(1, WILDCARD, WILDCARD, WILDCARD), 0);
            Get([a, b], query, default).value == 102 && Get([b, a], query, default).value == 103
  {
    var a := Entry(Context(Selector(1, 1, 1, WILDCARD), 0), 102);
    var b := Entry(Context(Selector(1, 1, WILDCARD, WILDCARD), 0), 103);
    var query := Context(Selector(1, WILDCARD, WILDCARD, WILDCARD), 0);
    assert First([a, b], query, 0) == 2 && First([b, a], query, 0) == 2;
    assert First([a, b], query, 1) == 0 && First([b, a], query, 1) == 0;
  }

  // ----- commits and retirement ----------------------------------------------------------------------------------

  /** What a commit does to the map of the latest setting. */
  function OnCommit<T>(m: map<Context, T>, change: (Context, T)): map<Context, T> {
    if change.0 in m then m[change.0 := change.1] else m + map[change.0 := change.1]
  }

  /** What retiring a context leaves of the map. */
  function Retired<T>(m: map<Context, T>, context: Context, exactMatch: bool): map<Context, T> {
    map k | k in m && !(if exactMatch then k == context else Matches(k.selector, context.selector)) :: m[k]
  }

  /** A commit is seen by exactly those queries that have no more specific stored ancestor. */
  lemma {:induction false} CommitIsSeen<T>(m: map<Context, T>, key: Context, value: T, query: Context, level: nat, default: T)
    requires level <= 5
    ensures var m' := OnCommit(m, (key, value));
            MostSpecific(m', query, level, default)
            == if exists l | level <= l < 5 :: key == Ancestor(query, l)
                    && forall n | level <= n < l :: Ancestor(query, n) !in m
               then value else MostSpecific(m, query, level, default)
    decreases 5 - level
  {
    if level < 5 {
      CommitIsSeen(m, key, value, query, level + 1, default);
    }
  }

  lemma AncestorMatches(query: Context, l: nat, level: nat)
    requires FullySpecified(query.selector) && l < 5 && level < 5
    ensures Matches(Ancestor(query, l).selector, Ancestor(query, level).selector) <==> l <= level
  {
  }

  /** Retiring a context makes the queries below it fall back to the next ancestor. */
  lemma {:induction false} RetiredFallsBack<T>(m: map<Context, T>, query: Context, level: nat, from: nat, default: T)
    requires FullySpecified(query.selector) && level < 5 && from <= 5
    ensures var m' := Retired(m, Ancestor(query, level), false);
            MostSpecific(m', query, from, default)
            == MostSpecific(m, query, if from <= level then level + 1 else from, default)
    decreases 5 - from
  {
    if from < 5 {
      AncestorMatches(query, from, level);
      RetiredFallsBack(m, query, level, from + 1, default);
    }
  }

  lemma AncestorsDiffer(query: Context, a: nat, b: nat)
    requires FullySpecified(query.selector) && a < b < 5
    ensures Ancestor(query, a) != Ancestor(query, b)
  {
    AncestorMatches(query, b, a);
    AncestorMatches(query, a, a);
  }

  /** Retiring exactly one context affects the queries that found it, and no others. */
  lemma {:induction false} ExactRetirement<T>(m: map<Context, T>, query: Context, level: nat, from: nat, default: T)
    requires FullySpecified(query.selector) && from <= level < 5
    ensures var m' := Retired(m, Ancestor(query, level), true);
            && m' == m - {Ancestor(query, level)}
            && MostSpecific(m', query, from, default)
               == if forall n | from <= n < level :: Ancestor(query, n) !in m
                  then MostSpecific(m, query, level + 1, default) else MostSpecific(m, query, from, default)
    decreases level - from
  {
    var context := Ancestor(query, level);
    var m' := Retired(m, context, true);
    assert m' == m - {context};
    if from == level {
      RestUnchanged(m, query, level, level + 1, default);
    } else {
      AncestorsDiffer(query, from, level);
      ExactRetirement(m, query, level, from + 1, default);
    }
  }

  lemma {:induction false} RestUnchanged<T>(m: map<Context, T>, query: Context, level: nat, from: nat, default: T)
    requires FullySpecified(query.selector) && level < from <= 5
    ensures MostSpecific(Retired(m, Ancestor(query, level), true), query, from, default)
            == MostSpecific(m, query, from, default)
    decreases 5 - from
  {
    if from < 5 {
      AncestorsDiffer(query, level, from);
      RestUnchanged(m, query, level, from + 1, default);
    }
  }

  /**
   Over every run of commits, tokens, retirements and expiry: a read that goes back `back` commits
   finds the most specific ancestor in the map that the unbounded record has there.
   */
  lemma ContextHistoryAgrees<T>(limits: SettingHistory.Limits, now: int,
                                run: seq<SettingRuns.Event<(Context, T), map<Context, T>>>, back: nat,
                                es: seq<Entry<T>>, query: Context, default: T)
    requires SettingHistory.BUFFER_MARGIN < limits.size && FullySpecified(query.selector)
    requires var h := SettingRuns.Run(SettingRuns.Start(map[], now), limits, OnCommit, run);
             && h.tail <= |h.log| - 1 - back
             && Enumerates(es, h.log[|h.log| - 1 - back].value) && OwnTime(es, query)
    ensures var values := SettingRuns.RecordedAll(SettingRuns.Record([map[]], []), OnCommit, run).values;
            && back < |values|
            && Get(es, query, default).value == MostSpecific(values[|values| - 1 - back], query, 0, default)
  {
    var h := SettingRuns.Run(SettingRuns.Start(map[], now), limits, OnCommit, run);
    var m := h.log[|h.log| - 1 - back].value;
    RecordedMap(limits, now, run, back, m);
    GetFindsMostSpecific(es, m, query, default);
  }

  lemma RecordedMap<T>(limits: SettingHistory.Limits, now: int,
                       run: seq<SettingRuns.Event<(Context, T), map<Context, T>>>, back: nat, m: map<Context, T>)
    requires SettingHistory.BUFFER_MARGIN < limits.size
    requires var h := SettingRuns.Run(SettingRuns.Start(map[], now), limits, OnCommit, run);
             h.tail <= |h.log| - 1 - back && h.log[|h.log| - 1 - back].value == m
    ensures var values := SettingRuns.RecordedAll(SettingRuns.Record([map[]], []), OnCommit, run).values;
            back < |values| && values[|values| - 1 - back] == m
  {
    SettingRuns.HistoryAgrees(map[], now, limits, OnCommit<T>, run, back);
  }
}
