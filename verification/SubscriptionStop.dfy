/**
 Whether a stop reaches the subscription that was started with an index. The start takes the index
 out of the URI by rebuilding it, and then rebuilds it once more for the name of the subscription;
 the stop rebuilds it once. Each hash map of parameters is enumerated in an order of its own.
 */
module SubscriptionStop {
  import opened Wrappers
  import opened UriQuery
  import opened SubscriptionTopic
  import Topic
  import Uri

  // ----- one rebuild -----------------------------------------------------------------------------------------

  /** The bare empty key, which is printed as nothing. */
  predicate Blank(e: Entry) {
    e == ("", None)
  }

  /** The entries in front of the last one, without a leading bare empty key. */
  function Body(front: seq<Entry>): seq<Entry> {
    if front != [] && Blank(front[0]) then front[1..] else front
  }

  ghost predicate Has(m: Params, e: Entry) {
    e.0 in m && m[e.0] == e.1
  }

  lemma HasIff(es: seq<Entry>, e: Entry)
    requires Entries(es)
    ensures Has(MapOf(es), e) <==> e in es
  {
    MapOfKeys(es, e.0);
    if e.0 in MapOf(es) {
      var i :| 0 <= i < |es| && es[i].0 == e.0;
      MapOfEntry(es, i);
      assert forall j | 0 <= j < |es| && es[j] == e :: j == i;
    }
  }

  lemma BodyEntries(front: seq<Entry>)
    requires Entries(front)
    ensures Entries(Body(front)) && forall e | e in Body(front) :: e in front
    ensures forall e | e in front && !(Blank(e) && front[0] == e) :: e in Body(front)
  {
    if front != [] && Blank(front[0]) {
      var body := front[1..];
      assert forall i | 0 <= i < |body| :: body[i] == front[i + 1];
      assert front == [front[0]] + body;
    }
  }

  /** A rebuild reads the entries in front of the last one as they are. */
  lemma RebuiltMap(front: seq<Entry>, last: Entry)
    requires Entries(front + [last]) && EntryBytes(last)
    ensures MapOf(Rebuilt(front + [last])) == ReadLast(last, MapOf(Body(front)))
  {
    var es := front + [last];
    EntriesFront(front, last);
    if front == [] {
      assert es == [last];
      SingleRebuilt(last);
      LastEntryEntries([], last);
    } else if Blank(front[0]) {
      var rest := front[1..];
      BodyEntries(front);
      assert es[1..] == rest + [last];
      assert forall i | 0 <= i < |es[1..]| :: es[1..][i] == es[i + 1];
      RebuiltSplits(rest + [last], rest, last);
      LastEntryEntries(rest, last);
    } else {
      RebuiltSplits(es, front, last);
      LastEntryEntries(front, last);
    }
  }

  /** A bare last key is not decoded, so it can take the place of another parameter. */
  predicate Hides(last: Entry, e: Entry)
    requires EntryBytes(last)
  {
    last.1.None? && last.0 != "" && Uri.Encode(last.0) == e.0
  }

  lemma OthersSurvive(front: seq<Entry>, last: Entry, e: Entry)
    requires Entries(front + [last]) && EntryBytes(last) && e in front && !Hides(last, e)
    requires !(Blank(e) && front[0] == e)
    ensures Has(MapOf(Rebuilt(front + [last])), e)
  {
    EntriesFront(front, last);
    BodyEntries(front);
    HasIff(Body(front), e);
    RebuiltMap(front, last);
  }

  lemma SturdyLastSurvives(front: seq<Entry>, last: Entry)
    requires Entries(front + [last]) && EntryBytes(last) && Sturdy(last)
    ensures Has(MapOf(Rebuilt(front + [last])), last)
  {
    RebuiltMap(front, last);
    Uri.UnreservedIsFixed(last.0);
  }

  lemma WeakLastIsLost(front: seq<Entry>, last: Entry)
    requires Entries(front + [last]) && EntryBytes(last) && !Sturdy(last)
    ensures !Has(MapOf(Rebuilt(front + [last])), last)
  {
    EntriesFront(front, last);
    BodyEntries(front);
    RebuiltMap(front, last);
    Uri.UnreservedIsFixed(last.0);
    assert last.0 !in MapOf(Body(front)) by {
      MapOfKeys(Body(front), last.0);
      assert forall i | 0 <= i < |Body(front)| :: Body(front)[i] in front;
    }
  }

  /** A weak parameter is kept in front of another one and lost behind it. */
  lemma TwoOrders(rest: seq<Entry>, x: Entry, y: Entry)
    requires Entries(rest + [x] + [y]) && Entries(rest + [y] + [x]) && EntryBytes(x) && EntryBytes(y)
    requires !Sturdy(x) && !Hides(y, x) && (Blank(x) ==> rest != [])
    ensures MapOf(Rebuilt(rest + [x] + [y])) != MapOf(Rebuilt(rest + [y] + [x]))
  {
    EntriesFront(rest + [x], y);
    EntriesFront(rest, x);
    assert (rest + [x])[|rest|] == x;
    assert rest != [] ==> (rest + [x])[0] == rest[0] != x;
    OthersSurvive(rest + [x], y, x);
    WeakLastIsLost(rest + [y], x);
  }

  lemma NoMutualHiding(x: Entry, y: Entry)
    requires EntryBytes(x) && EntryBytes(y) && x.0 != y.0 && Hides(y, x)
    ensures !Sturdy(y) && !Blank(y) && !Hides(x, y)
  {
    Uri.UnreservedIsFixed(y.0);
    Uri.EncodeGrows(y.0);
    Uri.EncodeLonger(x.0);
  }

  // ----- what makes a stop reliable ---------------------------------------------------------------------------

  /** Nothing changes, or the one thing that changes does so in every order and only once. */
  predicate Stoppable(es: seq<Entry>) {
    || AllSturdy(es)
    || (|es| == 1 && (Blank(es[0]) || (es[0].1 == Some("") && PlainKey(es[0].0))))
    || (|es| == 2 && ((Blank(es[0]) && Sturdy(es[1])) || (Blank(es[1]) && Sturdy(es[0]))))
  }

  lemma PickWeak(es: seq<Entry>) returns (p: nat)
    requires Entries(es) && |es| >= 2 && !Stoppable(es)
    ensures p < |es| && !Sturdy(es[p]) && (Blank(es[p]) ==> |es| >= 3)
  {
    if i :| 0 <= i < |es| && !Sturdy(es[i]) && !Blank(es[i]) {
      p := i;
    } else {
      p :| 0 <= p < |es| && !Sturdy(es[p]);
      assert forall i | 0 <= i < |es| && i != p :: es[i].0 != es[p].0;
      assert forall i | 0 <= i < |es| && i != p :: Sturdy(es[i]);
    }
  }

  lemma PickPair(es: seq<Entry>) returns (x: Entry, y: Entry)
    requires Entries(es) && |es| >= 2 && !Stoppable(es)
    ensures x in es && y in es && x.0 != y.0 && EntryBytes(x) && EntryBytes(y)
    ensures !Sturdy(x) && !Hides(y, x) && (Blank(x) ==> |es| >= 3)
  {
    var p := PickWeak(es);
    var q := if p == 0 then 1 else 0;
    x, y := es[p], es[q];
    assert x.0 != y.0;
    if Hides(y, x) {
      NoMutualHiding(x, y);
      x, y := y, x;
    }
  }

  lemma MoveOne(es: seq<Entry>, x: Entry) returns (rest: seq<Entry>)
    requires Entries(es) && x in es
    ensures Permuted(es, rest + [x]) && Entries(rest + [x])
  {
    var p :| 0 <= p < |es| && es[p] == x;
    rest := es[..p] + es[p + 1..];
    MovedLast(es, p);
  }

  lemma InFront(es: seq<Entry>, rest: seq<Entry>, x: Entry, y: Entry)
    requires Permuted(es, rest + [x]) && y in es && x.0 != y.0
    ensures y in rest
  {
    assert y in multiset(es);
    assert y in multiset(rest + [x]);
    assert y in rest + [x];
  }

  lemma Swapped(es: seq<Entry>, front: seq<Entry>, rest: seq<Entry>, x: Entry, y: Entry)
    requires Permuted(es, front + [x]) && Permuted(front, rest + [y])
    ensures Permuted(es, rest + [x] + [y]) && Permuted(es, rest + [y] + [x])
  {
  }

  lemma AppendBoth(rest: seq<Entry>, x: Entry, y: Entry)
    requires Entries(rest) && EntryBytes(x) && EntryBytes(y) && x.0 != y.0
    requires forall i | 0 <= i < |rest| :: rest[i].0 != x.0 && rest[i].0 != y.0
    ensures Entries(rest + [x] + [y])
  {
    EntriesSnoc(rest, x);
    EntriesSnoc(rest + [x], y);
  }

  /** Two parameters moved to the end, in both orders. */
  lemma MovePair(es: seq<Entry>, x: Entry, y: Entry) returns (rest: seq<Entry>)
    requires Entries(es) && x in es && y in es && x.0 != y.0
    ensures Permuted(es, rest + [x] + [y]) && Entries(rest + [x] + [y])
    ensures Permuted(es, rest + [y] + [x]) && Entries(rest + [y] + [x])
  {
    var front := MoveOne(es, x);
    InFront(es, front, x, y);
    EntriesFront(front, x);
    rest := MoveOne(front, y);
    EntriesFront(rest, y);
    Swapped(es, front, rest, x, y);
    assert forall i | 0 <= i < |rest| :: rest[i].0 != x.0 by {
      SameElements(front, rest + [y]);
      assert forall i | 0 <= i < |rest| :: (rest + [y])[i] == rest[i];
    }
    AppendBoth(rest, x, y);
    AppendBoth(rest, y, x);
  }

  // ----- unreliable stops --------------------------------------------------------------------------------------

  lemma RemainingPair(rest: seq<Entry>, x: Entry, y: Entry)
    requires x.0 != INDEX_PARAMETER && x.0 != BATCH_PARAMETER && y.0 != INDEX_PARAMETER && y.0 != BATCH_PARAMETER
    ensures Remaining(rest + [x] + [y]) == Remaining(rest) + [x] + [y]
  {
    RemainingSnoc(rest, x);
    RemainingSnoc(rest + [x], y);
  }

  /** With a weak parameter next to others, the stops in two orders are for two topics. */
  lemma TwoStops(params: seq<Entry>) returns (fs: seq<Entry>, gs: seq<Entry>)
    requires Entries(params) && |Remaining(params)| >= 2 && !Stoppable(Remaining(params))
    ensures Permuted(params, fs) && Entries(fs) && Permuted(params, gs) && Entries(gs)
    ensures MapOf(Rebuilt(Remaining(fs))) != MapOf(Rebuilt(Remaining(gs)))
  {
    RemainingEntries(params);
    RemainingElements(params);
    var x, y := PickPair(Remaining(params));
    var rest := MovePair(params, x, y);
    fs, gs := rest + [x] + [y], rest + [y] + [x];
    RemainingPair(rest, x, y);
    RemainingPair(rest, y, x);
    RemainingEntries(fs);
    RemainingEntries(gs);
    RemainingPermuted(params, fs);
    TwoOrders(Remaining(rest), x, y);
  }

  /** A single parameter that is not what it was after one rebuild, nor what it was then after two. */
  predicate Drifts(e: Entry) {
    if e.1.Some? then e.1.value == "" && !PlainKey(e.0) else e.0 != "" && !PlainKey(e.0)
  }

  /** The key of such a parameter after a rebuild, which leaves it without a value. */
  function Drifted(e: Entry): string
    requires EntryBytes(e)
  {
    if e.1.Some? then e.0 else Uri.Encode(e.0)
  }

  lemma DriftsOn(e: Entry)
    requires EntryBytes(e) && Drifts(e)
    ensures Uri.IsBytes(Drifted(e)) && !PlainKey(Drifted(e))
    ensures Drifted(e) != INDEX_PARAMETER && Drifted(e) != BATCH_PARAMETER
    ensures forall m: Params :: ReadLast(e, m) == m[Drifted(e) := None]
    ensures ReadLast((Drifted(e), None), map[]) != map[Drifted(e) := None]
  {
    EncodedIsBytes(e.0);
    Uri.EncodedUnreservedIff(e.0);
    EncodeEmptyIff(e.0);
    ParametersArePlain();
    var key := Drifted(e);
    Uri.UnreservedIsFixed(key);
    var m: Params := ReadLast((key, None), map[]);
    assert key !in m;
  }

  lemma RemainingSingle(order: seq<Entry>, e: Entry)
    requires Entries(order) && MapOf(order) - {INDEX_PARAMETER} - {BATCH_PARAMETER} == map[e.0 := e.1]
    ensures Remaining(order) == [e]
  {
    RemainingEntries(order);
    MapOfSize(Remaining(order));
    assert Has(MapOf(Remaining(order)), e);
    HasIff(Remaining(order), e);
  }

  predicate OnlyBatch(front: seq<Entry>) {
    forall i | 0 <= i < |front| :: front[i].0 == BATCH_PARAMETER
  }

  lemma OnlyBatchMap(front: seq<Entry>, key: string)
    requires OnlyBatch(front) && key != INDEX_PARAMETER && key != BATCH_PARAMETER
    ensures Body(front) == front
    ensures MapOf(front)[key := None] - {INDEX_PARAMETER} - {BATCH_PARAMETER} == map[key := None]
  {
    forall k | k in MapOf(front) ensures k == BATCH_PARAMETER {
      MapOfKeys(front, k);
    }
  }

  lemma DriftOrder(front: seq<Entry>, e: Entry, order: seq<Entry>)
    requires Entries(front + [e]) && EntryBytes(e) && OnlyBatch(front) && Drifts(e)
    requires Entries(order) && MapOf(order) == MapOf(Rebuilt(front + [e]))
    ensures Remaining(order) == [(Drifted(e), None)]
  {
    DriftsOn(e);
    RebuiltMap(front, e);
    OnlyBatchMap(front, Drifted(e));
    RemainingSingle(order, (Drifted(e), None));
  }

  lemma SingleMap(e: Entry)
    requires EntryBytes(e)
    ensures Entries([e]) && MapOf([e]) == map[e.0 := e.1] && MapOf(Rebuilt([e])) == ReadLast(e, map[])
  {
    var none: seq<Entry> := [];
    assert none + [e] == [e];
    MapOfSnoc(none, e);
    RebuiltMap(none, e);
  }

  /** A single drifting parameter in the last place: the second rebuild of the start changes it again. */
  lemma DriftMisses(front: seq<Entry>, e: Entry, order: seq<Entry>)
    requires Entries(front + [e]) && EntryBytes(e) && OnlyBatch(front) && Drifts(e)
    requires Entries(order) && MapOf(order) == MapOf(Rebuilt(front + [e]))
    ensures MapOf(Rebuilt(Remaining(order))) != MapOf(Rebuilt([e]))
  {
    DriftOrder(front, e, order);
    DriftsOn(e);
    SingleMap(e);
    SingleMap((Drifted(e), None));
  }

  lemma FrontIsBatch(rest: seq<Entry>, e: Entry)
    requires e.0 != INDEX_PARAMETER && e.0 != BATCH_PARAMETER && |Remaining(rest + [e])| == 1
    ensures OnlyBatch(Erase(rest, INDEX_PARAMETER)) && Remaining(rest + [e]) == [e]
    ensures Erase(rest + [e], INDEX_PARAMETER) == Erase(rest, INDEX_PARAMETER) + [e]
  {
    RemainingSnoc(rest, e);
    assert Remaining(rest) == [];
    var front := Erase(rest, INDEX_PARAMETER);
    EraseElements(front, BATCH_PARAMETER);
    forall i | 0 <= i < |front| ensures front[i].0 == BATCH_PARAMETER {
      assert front[i] in front;
      assert front[i] !in Remaining(rest);
    }
  }

  lemma SingleStopMisses(params: seq<Entry>) returns (fs: seq<Entry>, order: seq<Entry>)
    requires Entries(params) && |Remaining(params)| == 1 && Drifts(Remaining(params)[0])
    ensures Permuted(params, fs) && Entries(fs) && RebuildsTo(MdpTopic("", fs), order)
    ensures MapOf(Rebuilt(Remaining(order))) != MapOf(Rebuilt(Remaining(params)))
  {
    var e := Remaining(params)[0];
    assert Remaining(params) == [e];
    RemainingElements(params);
    assert e in Remaining(params);
    var rest := MoveOne(params, e);
    fs := rest + [e];
    EntriesFront(rest, e);
    RemainingPermuted(params, fs);
    FrontIsBatch(rest, e);
    EraseEntries(fs, INDEX_PARAMETER);
    order := Rebuilt(Erase(fs, INDEX_PARAMETER));
    RebuiltIs(Erase(fs, INDEX_PARAMETER), true);
    DriftMisses(Erase(rest, INDEX_PARAMETER), e, order);
  }

  // ----- reliable stops ----------------------------------------------------------------------------------------

  /** The parameters in front of which, and behind which, a start finds the others. */
  ghost predicate Around(f: seq<Entry>, es: seq<Entry>) {
    && (forall e | e in f :: e.0 == BATCH_PARAMETER || e in es)
    && (forall e | e in es :: e in f && e.0 != INDEX_PARAMETER && e.0 != BATCH_PARAMETER)
  }

  lemma ErasedIsAround(params: seq<Entry>, fs: seq<Entry>)
    requires Permuted(params, fs)
    ensures Around(Erase(fs, INDEX_PARAMETER), Remaining(params))
  {
    RemainingElements(params);
    EraseElements(fs, INDEX_PARAMETER);
    forall e ensures e in fs <==> e in params {
      assert e in multiset(fs) <==> e in multiset(params);
    }
  }

  /** A last entry that a rebuild keeps, or drops without a trace. */
  predicate Steady(e: Entry) {
    Blank(e) || Sturdy(e) || e.0 == BATCH_PARAMETER
  }

  lemma SteadyIsFixed(last: Entry)
    requires EntryBytes(last) && Steady(last)
    ensures last.1.None? && last.0 != "" ==> Uri.Encode(last.0) == last.0
  {
    ParametersArePlain();
    Uri.UnreservedIsFixed(last.0);
  }

  ghost predicate From(m: Params, front: seq<Entry>, last: Entry) {
    && (forall e | e in front && !Blank(e) :: Has(m, e))
    && (Sturdy(last) ==> Has(m, last))
    && (forall k | k in m :: (k == last.0 && !Blank(last)) || exists e :: e in front && Has(m, e) && e.0 == k)
  }

  /** Everything in front of a steady last entry stays, and nothing is added. */
  lemma SteadyLast(front: seq<Entry>, last: Entry)
    requires Entries(front + [last]) && EntryBytes(last) && Steady(last)
    ensures From(MapOf(Rebuilt(front + [last])), front, last)
  {
    var m := MapOf(Rebuilt(front + [last]));
    EntriesFront(front, last);
    SteadyIsFixed(last);
    forall e | e in front && !Blank(e) ensures Has(m, e) {
      OthersSurvive(front, last, e);
    }
    if Sturdy(last) {
      SturdyLastSurvives(front, last);
    }
    forall k | k in m && !(k == last.0 && !Blank(last)) ensures exists e :: e in front && Has(m, e) && e.0 == k {
      SteadyKeyFrom(front, last, k);
    }
  }

  lemma SteadyKeyFrom(front: seq<Entry>, last: Entry, k: string)
    requires Entries(front + [last]) && EntryBytes(last) && Steady(last)
    requires k in MapOf(Rebuilt(front + [last])) && !(k == last.0 && !Blank(last))
    ensures exists e :: e in front && Has(MapOf(Rebuilt(front + [last])), e) && e.0 == k
  {
    RebuiltMap(front, last);
    EntriesFront(front, last);
    BodyEntries(front);
    SteadyIsFixed(last);
    assert k in MapOf(Body(front));
    MapOfKeys(Body(front), k);
    var i :| 0 <= i < |Body(front)| && Body(front)[i].0 == k;
    var e := Body(front)[i];
    HasIff(Body(front), e);
    assert e in front;
  }

  /** The parameters, with or without the bare empty key. */
  ghost predicate Fits(m: Params, es: seq<Entry>) {
    && (forall e | e in es && !Blank(e) :: Has(m, e))
    && (forall k | k in m :: exists e :: e in es && Has(m, e) && e.0 == k)
  }

  /** The parameters without the bare empty key. */
  ghost predicate Exactly(m: Params, es: seq<Entry>) {
    && (forall e | e in es && !Blank(e) :: Has(m, e))
    && (forall k | k in m :: exists e :: e in es && !Blank(e) && e.0 == k)
  }

  lemma ExactlyOne(m: Params, m': Params, es: seq<Entry>)
    requires Exactly(m, es) && Exactly(m', es)
    ensures m == m'
  {
    forall k | k in m ensures k in m' && m'[k] == m[k] {
      var e :| e in es && !Blank(e) && e.0 == k;
      assert Has(m, e) && Has(m', e);
    }
    forall k | k in m' ensures k in m {
      var e :| e in es && !Blank(e) && e.0 == k;
      assert Has(m, e);
    }
  }

  ghost predicate BlankOrSturdy(es: seq<Entry>) {
    forall e | e in es :: Blank(e) || Sturdy(e)
  }

  lemma LastIsSteady(f: seq<Entry>, front: seq<Entry>, last: Entry, es: seq<Entry>)
    requires f == front + [last] && Around(f, es) && BlankOrSturdy(es)
    ensures Steady(last)
    ensures forall e | e in es :: e in front || e == last
    ensures forall e | e in front :: e.0 == BATCH_PARAMETER || e in es
  {
    assert f[|front|] == last;
    assert last in f;
    forall e | e in es ensures e in front || e == last {
      assert e in f;
    }
    forall e | e in front ensures e in f {
      var i :| 0 <= i < |front| && front[i] == e;
      assert f[i] == e;
    }
  }

  lemma FromFits(m: Params, front: seq<Entry>, last: Entry, es: seq<Entry>)
    requires From(m, front, last) && BlankOrSturdy(es) && (last.0 == BATCH_PARAMETER || last in es)
    requires forall e | e in es :: (e in front || e == last) && e.0 != INDEX_PARAMETER && e.0 != BATCH_PARAMETER
    requires forall e | e in front :: e.0 == BATCH_PARAMETER || e in es
    ensures Fits(m - {INDEX_PARAMETER} - {BATCH_PARAMETER}, es)
  {
    var rest := m - {INDEX_PARAMETER} - {BATCH_PARAMETER};
    forall e | e in es && !Blank(e) ensures Has(rest, e) {
      assert Has(m, e);
    }
    forall k | k in rest ensures exists e :: e in es && Has(rest, e) && e.0 == k {
      if k == last.0 && !Blank(last) {
        assert last in es && Has(rest, last);
      } else {
        var e :| e in front && Has(m, e) && e.0 == k;
        assert e in es && Has(rest, e);
      }
    }
  }

  lemma StartFits(f: seq<Entry>, es: seq<Entry>)
    requires Entries(f) && Around(f, es) && BlankOrSturdy(es)
    ensures Fits(MapOf(Rebuilt(f)) - {INDEX_PARAMETER} - {BATCH_PARAMETER}, es)
  {
    if f != [] {
      var n := |f| - 1;
      var front, last := f[..n], f[n];
      assert f == front + [last];
      assert last in f;
      LastIsSteady(f, front, last, es);
      SteadyLast(front, last);
      FromFits(MapOf(Rebuilt(f)), front, last, es);
    }
  }

  lemma FittingEntries(fs: seq<Entry>, es: seq<Entry>)
    requires Entries(fs) && Fits(MapOf(fs), es)
    ensures forall e | e in fs :: e in es
    ensures forall e | e in es && !Blank(e) :: e in fs
  {
    forall e | e in fs ensures e in es {
      HasIff(fs, e);
      var e' :| e' in es && Has(MapOf(fs), e') && e'.0 == e.0;
      assert e' == e;
    }
    forall e | e in es && !Blank(e) ensures e in fs {
      HasIff(fs, e);
    }
  }

  lemma NoThird(fs: seq<Entry>, es: seq<Entry>)
    requires Distinct(fs) && forall e | e in fs :: e in es
    ensures |fs| > 2 ==> |es| > 2
  {
    if |fs| > 2 {
      var a, b, c := fs[0], fs[1], fs[2];
      assert a in fs && b in fs && c in fs;
      assert a.0 != b.0 && a.0 != c.0 && b.0 != c.0;
      var i :| 0 <= i < |es| && es[i] == a;
      var j :| 0 <= j < |es| && es[j] == b;
      var k :| 0 <= k < |es| && es[k] == c;
      assert i != j && i != k && j != k;
    }
  }

  lemma PairIsDropped(a: Entry, b: Entry)
    requires Entries([a] + [b]) && EntryBytes(a) && EntryBytes(b) && a.0 != b.0
    requires (Blank(a) && Sturdy(b)) || (Sturdy(a) && Blank(b))
    ensures var e := if Blank(a) then b else a;
            MapOf(Rebuilt([a] + [b])) == map[e.0 := e.1]
  {
    RebuiltMap([a], b);
    SingleMap(a);
    Uri.UnreservedIsFixed(b.0);
    assert [a][1..] == [];
  }

  lemma SingleIsExact(e: Entry, es: seq<Entry>)
    requires e in es && !Blank(e) && forall e' | e' in es :: e' == e || Blank(e')
    ensures Exactly(map[e.0 := e.1], es)
  {
  }

  lemma PairIsExact(a: Entry, b: Entry)
    requires Entries([a] + [b]) && EntryBytes(a) && EntryBytes(b) && a.0 != b.0
    requires (Blank(a) && Sturdy(b)) || (Sturdy(a) && Blank(b))
    ensures Exactly(MapOf(Rebuilt([a] + [b])), [a] + [b])
  {
    PairIsDropped(a, b);
    var e := if Blank(a) then b else a;
    assert forall x | x in [a] + [b] :: x == a || x == b;
    assert a in [a] + [b] && b in [a] + [b];
    SingleIsExact(e, [a] + [b]);
  }

  lemma BlankAlone(x: Entry)
    requires Blank(x)
    ensures Exactly(MapOf(Rebuilt([x])), [x])
  {
    SingleMap(x);
  }

  lemma OneOfTwo(fs: seq<Entry>, x: Entry)
    requires Entries(fs) && BlankOrSturdy(fs) && |fs| == 2 && x in fs && Blank(x)
    ensures fs == [fs[0]] + [fs[1]] && fs[0].0 != fs[1].0
    ensures (Blank(fs[0]) && Sturdy(fs[1])) || (Sturdy(fs[0]) && Blank(fs[1]))
  {
    assert fs[0] in fs && fs[1] in fs;
  }

  /** Next to at most one sturdy parameter, the bare empty key is dropped in either place. */
  lemma BlankIsDropped(fs: seq<Entry>, x: Entry)
    requires Entries(fs) && BlankOrSturdy(fs) && |fs| <= 2 && x in fs && Blank(x)
    ensures Exactly(MapOf(Rebuilt(fs)), fs)
  {
    if |fs| == 1 {
      assert fs == [x];
      BlankAlone(x);
    } else {
      OneOfTwo(fs, x);
      PairIsExact(fs[0], fs[1]);
    }
  }

  lemma FittingRebuilt(fs: seq<Entry>, es: seq<Entry>)
    requires Entries(fs) && Fits(MapOf(fs), es) && BlankOrSturdy(es) && (|es| <= 2 || AllSturdy(es))
    ensures Exactly(MapOf(Rebuilt(fs)), es)
  {
    FittingEntries(fs, es);
    if e :| e in fs && Blank(e) {
      NoThird(fs, es);
      BlankIsDropped(fs, e);
      ExactlyOf(MapOf(Rebuilt(fs)), fs, es);
    } else {
      forall i | 0 <= i < |fs| ensures Sturdy(fs[i]) {
        assert fs[i] in fs;
      }
      SturdyKept(fs);
      MapIsExact(fs, es);
    }
  }

  lemma ExactlyOf(m: Params, fs: seq<Entry>, es: seq<Entry>)
    requires Exactly(m, fs) && (forall e | e in fs :: e in es) && (forall e | e in es && !Blank(e) :: e in fs)
    ensures Exactly(m, es)
  {
  }

  lemma MapIsExact(fs: seq<Entry>, es: seq<Entry>)
    requires Entries(fs) && AllSturdy(fs)
    requires (forall e | e in fs :: e in es) && (forall e | e in es && !Blank(e) :: e in fs)
    ensures Exactly(MapOf(fs), es)
  {
    forall e | e in es && !Blank(e) ensures Has(MapOf(fs), e) {
      HasIff(fs, e);
    }
    forall k | k in MapOf(fs) ensures exists e :: e in es && !Blank(e) && e.0 == k {
      MapOfKeys(fs, k);
      var i :| 0 <= i < |fs| && fs[i].0 == k;
      assert fs[i] in fs && Sturdy(fs[i]);
    }
  }

  // ----- a single empty value ----------------------------------------------------------------------------------

  lemma EmptySettles(e: Entry, x: Entry)
    requires EntryBytes(e) && e.1 == Some("") && PlainKey(e.0) && (x == e || x == (e.0, None))
    ensures MapOf(Rebuilt([x])) == map[e.0 := None]
  {
    SingleMap(x);
    Uri.UnreservedIsFixed(e.0);
  }

  lemma OthersAreBatch(f: seq<Entry>, front: seq<Entry>, last: Entry, e: Entry)
    requires Entries(f) && f == front + [last] && Around(f, [e])
    ensures last == e ==> OnlyBatch(front)
    ensures last != e ==> last.0 == BATCH_PARAMETER && forall x | x in front :: x == e
  {
    EntriesFront(front, last);
    assert last in f && e in [e];
    forall i | 0 <= i < |front| ensures front[i].0 == BATCH_PARAMETER || front[i] == e {
      assert f[i] == front[i] && f[i] in f;
    }
  }

  /** An empty value is dropped in the last place, and stays in front of the batch parameter. */
  lemma StartOfEmpty(f: seq<Entry>, e: Entry)
    requires Entries(f) && Around(f, [e]) && EntryBytes(e) && e.1 == Some("")
    ensures MapOf(Rebuilt(f)) - {INDEX_PARAMETER} - {BATCH_PARAMETER} == map[e.0 := None]
            || MapOf(Rebuilt(f)) - {INDEX_PARAMETER} - {BATCH_PARAMETER} == map[e.0 := e.1]
  {
    assert e in [e];
    var n := |f| - 1;
    var front, last := f[..n], f[n];
    assert f == front + [last];
    OthersAreBatch(f, front, last, e);
    if last == e {
      RebuiltMap(front, e);
      OnlyBatchMap(front, e.0);
    } else {
      SteadyLast(front, last);
      OneBeforeBatch(MapOf(Rebuilt(f)), front, last, e);
    }
  }

  lemma OneBeforeBatch(m: Params, front: seq<Entry>, last: Entry, e: Entry)
    requires From(m, front, last) && e in front && !Blank(e) && (forall x | x in front :: x == e)
    requires last.0 == BATCH_PARAMETER && e.0 != INDEX_PARAMETER && e.0 != BATCH_PARAMETER
    ensures m - {INDEX_PARAMETER} - {BATCH_PARAMETER} == map[e.0 := e.1]
  {
    var rest := m - {INDEX_PARAMETER} - {BATCH_PARAMETER};
    assert Has(m, e);
    forall k | k in rest ensures k == e.0 {
      var x :| x in front && Has(m, x) && x.0 == k;
    }
  }

  // ----- starts and stops --------------------------------------------------------------------------------------

  /** The enumerations that a start with an index, and a stop, can meet. */
  ghost predicate Enumerated(params: seq<Entry>, fs: seq<Entry>, order: seq<Entry>, gs: seq<Entry>) {
    && Permuted(params, fs) && Entries(fs) && Permuted(params, gs) && Entries(gs)
    && Entries(order) && MapOf(order) == MapOf(Rebuilt(Erase(fs, INDEX_PARAMETER)))
  }

  lemma OrderRemaining(params: seq<Entry>, fs: seq<Entry>, order: seq<Entry>, gs: seq<Entry>)
    requires Entries(params) && Enumerated(params, fs, order, gs)
    ensures Entries(Erase(fs, INDEX_PARAMETER)) && Around(Erase(fs, INDEX_PARAMETER), Remaining(params))
    ensures Entries(Remaining(order)) && Entries(Remaining(gs)) && Entries(Remaining(params))
    ensures MapOf(Remaining(order))
            == MapOf(Rebuilt(Erase(fs, INDEX_PARAMETER))) - {INDEX_PARAMETER} - {BATCH_PARAMETER}
    ensures MapOf(Remaining(gs)) == MapOf(Remaining(params))
  {
    EraseEntries(fs, INDEX_PARAMETER);
    ErasedIsAround(params, fs);
    RemainingEntries(order);
    RemainingEntries(gs);
    RemainingEntries(params);
    RemainingPermuted(params, gs);
  }

  lemma MapFits(es: seq<Entry>, m: Params)
    requires Entries(es) && m == MapOf(es)
    ensures Fits(m, es)
  {
    forall e | e in es ensures Has(m, e) {
      HasIff(es, e);
    }
    forall k | k in m ensures exists e :: e in es && Has(m, e) && e.0 == k {
      MapOfKeys(es, k);
      var i :| 0 <= i < |es| && es[i].0 == k;
      assert es[i] in es;
    }
  }

  lemma SettledStart(params: seq<Entry>, fs: seq<Entry>, order: seq<Entry>, gs: seq<Entry>)
    requires Entries(params) && Enumerated(params, fs, order, gs)
    requires BlankOrSturdy(Remaining(params)) && (|Remaining(params)| <= 2 || AllSturdy(Remaining(params)))
    ensures MapOf(Rebuilt(Remaining(order))) == MapOf(Rebuilt(Remaining(gs)))
  {
    var es := Remaining(params);
    OrderRemaining(params, fs, order, gs);
    StartFits(Erase(fs, INDEX_PARAMETER), es);
    FittingRebuilt(Remaining(order), es);
    MapFits(es, MapOf(Remaining(gs)));
    FittingRebuilt(Remaining(gs), es);
    ExactlyOne(MapOf(Rebuilt(Remaining(order))), MapOf(Rebuilt(Remaining(gs))), es);
  }

  lemma EmptyStart(params: seq<Entry>, fs: seq<Entry>, order: seq<Entry>, gs: seq<Entry>, e: Entry)
    requires Entries(params) && Enumerated(params, fs, order, gs)
    requires Remaining(params) == [e] && EntryBytes(e) && e.1 == Some("") && PlainKey(e.0)
    ensures MapOf(Rebuilt(Remaining(order))) == MapOf(Rebuilt(Remaining(gs)))
  {
    OrderRemaining(params, fs, order, gs);
    StartOfEmpty(Erase(fs, INDEX_PARAMETER), e);
    SingleMap(e);
    var x: Entry := if MapOf(Remaining(order)) == map[e.0 := e.1] then e else (e.0, None);
    SingleEntry(Remaining(order), x);
    SingleEntry(Remaining(gs), e);
    EmptySettles(e, x);
    EmptySettles(e, e);
  }

  lemma SingleEntry(es: seq<Entry>, e: Entry)
    requires Entries(es) && MapOf(es) == map[e.0 := e.1]
    ensures es == [e]
  {
    MapOfSize(es);
    assert Has(MapOf(es), e);
    HasIff(es, e);
  }

  lemma StoppableCases(es: seq<Entry>)
    requires Entries(es)
    ensures Stoppable(es)
            <==> (BlankOrSturdy(es) && (|es| <= 2 || AllSturdy(es)))
                 || (|es| == 1 && es[0].1 == Some("") && PlainKey(es[0].0))
  {
    assert forall i | 0 <= i < |es| :: es[i] in es;
    if |es| == 2 {
      assert es[0].0 != es[1].0;
    }
  }

  lemma StoppableStops(params: seq<Entry>, fs: seq<Entry>, order: seq<Entry>, gs: seq<Entry>)
    requires Entries(params) && Enumerated(params, fs, order, gs) && Stoppable(Remaining(params))
    ensures MapOf(Rebuilt(Remaining(order))) == MapOf(Rebuilt(Remaining(gs)))
  {
    var es := Remaining(params);
    RemainingEntries(params);
    StoppableCases(es);
    if BlankOrSturdy(es) && (|es| <= 2 || AllSturdy(es)) {
      SettledStart(params, fs, order, gs);
    } else {
      assert es == [es[0]];
      EmptyStart(params, fs, order, gs, es[0]);
    }
  }

  /** Otherwise there are orders for which the stop is for another topic. */
  lemma UnstoppableMisses(params: seq<Entry>) returns (fs: seq<Entry>, order: seq<Entry>, gs: seq<Entry>)
    requires Entries(params) && !Stoppable(Remaining(params))
    ensures Enumerated(params, fs, order, gs)
    ensures MapOf(Rebuilt(Remaining(order))) != MapOf(Rebuilt(Remaining(gs)))
  {
    RemainingEntries(params);
    if |Remaining(params)| == 1 {
      fs, order := SingleStopMisses(params);
      gs := params;
    } else {
      fs := params;
      EraseEntries(fs, INDEX_PARAMETER);
      order := Rebuilt(Erase(fs, INDEX_PARAMETER));
      RebuiltIs(Erase(fs, INDEX_PARAMETER), true);
      var one, other := TwoStops(params);
      gs := if MapOf(Rebuilt(Remaining(order))) != MapOf(Rebuilt(Remaining(one))) then one else other;
    }
  }

  /** Starting with an index, and stopping: are they for the same topic, whatever the hash maps do? */
  ghost predicate StopsWhatItStarts(topic: MdpTopic) {
    forall fs, order, gs | Enumerated(topic.params, fs, order, gs) ::
      Subscribed(MdpTopic(topic.path, order)) == Subscribed(MdpTopic(topic.path, gs))
  }

  /** The same for the key of the native client. */
  ghost predicate KeyStopsWhatItStarts(topic: MdpTopic) {
    forall fs, order, gs | Enumerated(topic.params, fs, order, gs) ::
      SubscriptionKey(MdpTopic(topic.path, order)) == SubscriptionKey(MdpTopic(topic.path, gs))
  }

  /**
   A subscription started with an index is stopped by the same topic, in whatever orders the
   parameters are enumerated, exactly if its remaining parameters are stoppable.
   */
  lemma StopsWhatItStartsIff(topic: MdpTopic)
    requires Entries(topic.params)
    ensures StopsWhatItStarts(topic) <==> Stoppable(Remaining(topic.params))
  {
    var params := topic.params;
    if Stoppable(Remaining(params)) {
      forall fs, order, gs | Enumerated(params, fs, order, gs)
        ensures Subscribed(MdpTopic(topic.path, order)) == Subscribed(MdpTopic(topic.path, gs))
      {
        StoppableStops(params, fs, order, gs);
        SameTopicIff(MdpTopic(topic.path, order), MdpTopic(topic.path, gs));
      }
    } else {
      var fs, order, gs := UnstoppableMisses(params);
      SameTopicIff(MdpTopic(topic.path, order), MdpTopic(topic.path, gs));
    }
  }

  lemma EnumeratedSplittable(params: seq<Entry>, fs: seq<Entry>, order: seq<Entry>, gs: seq<Entry>)
    requires Entries(params) && Enumerated(params, fs, order, gs) && Topic.Splittable(Remaining(params))
    ensures Topic.Splittable(Remaining(order)) && Topic.Splittable(Remaining(gs))
  {
    OrderRemaining(params, fs, order, gs);
    var f := Erase(fs, INDEX_PARAMETER);
    AroundSplittable(f, Remaining(params));
    RebuiltSplittable(f);
    RebuiltIs(f, true);
    SameKeysSplittable(order, Rebuilt(f));
    RemainingElements(order);
    SubsetSplittable(Remaining(order), order);
    SameKeysSplittable(Remaining(gs), Remaining(params));
  }

  lemma AroundSplittable(f: seq<Entry>, es: seq<Entry>)
    requires Entries(f) && Around(f, es) && Topic.Splittable(es)
    ensures Topic.Splittable(f)
  {
    forall i | 0 <= i < |f| ensures Topic.SplittableEntry(f[i]) {
      assert f[i] in f;
      if f[i].0 != BATCH_PARAMETER {
        var j :| 0 <= j < |es| && es[j] == f[i];
      }
    }
  }

  lemma SubsetSplittable(es: seq<Entry>, fs: seq<Entry>)
    requires Topic.Splittable(fs) && forall e | e in es :: e in fs
    ensures Topic.Splittable(es)
  {
    forall i | 0 <= i < |es| ensures Topic.SplittableEntry(es[i]) {
      assert es[i] in es;
      var j :| 0 <= j < |fs| && fs[j] == es[i];
    }
  }

  lemma SameKeysSplittable(es: seq<Entry>, fs: seq<Entry>)
    requires Entries(es) && Topic.Splittable(fs) && MapOf(es) == MapOf(fs)
    ensures Topic.Splittable(es)
  {
    forall i | 0 <= i < |es| ensures Topic.SplittableEntry(es[i]) {
      MapOfKeys(es, es[i].0);
      MapOfKeys(fs, es[i].0);
      var j :| 0 <= j < |fs| && fs[j].0 == es[i].0;
      assert Topic.SplittableEntry(fs[j]);
    }
  }

  /** The native client compares texts: the same condition, which is exact if no key contains a separator. */
  lemma KeyStopsWhatItStartsIff(topic: MdpTopic)
    requires Entries(topic.params) && HasTopic(topic)
    ensures Stoppable(Remaining(topic.params)) ==> KeyStopsWhatItStarts(topic)
    ensures Topic.Splittable(Remaining(topic.params)) ==>
              (KeyStopsWhatItStarts(topic) <==> Stoppable(Remaining(topic.params)))
  {
    var params := topic.params;
    StopsWhatItStartsIff(topic);
    if !Stoppable(Remaining(params)) && Topic.Splittable(Remaining(params)) {
      var fs, order, gs := UnstoppableMisses(params);
      EnumeratedSplittable(params, fs, order, gs);
      SameKeyIff(MdpTopic(topic.path, order), MdpTopic(topic.path, gs));
    }
  }

  // ----- a single bare key -------------------------------------------------------------------------------------

  lemma KeptSingle(params: seq<Entry>, fs: seq<Entry>, e: Entry)
    requires Entries(params) && Entries(fs) && Permuted(params, fs) && EntryBytes(e)
    requires MapOf(params) - {INDEX_PARAMETER} == map[e.0 := e.1]
    ensures Erase(fs, INDEX_PARAMETER) == [e]
  {
    PermutedMapOf(params, fs);
    EraseMap(fs, INDEX_PARAMETER);
    EraseEntries(fs, INDEX_PARAMETER);
    SingleEntry(Erase(fs, INDEX_PARAMETER), e);
  }

  lemma SameRemaining(path: string, es: seq<Entry>, e: Entry)
    requires Entries(es) && EntryBytes(e) && Remaining(es) == [e]
    requires e.0 != INDEX_PARAMETER && e.0 != BATCH_PARAMETER
    ensures Subscribed(MdpTopic(path, es)) == Subscribed(MdpTopic(path, [e]))
  {
    SingleRemaining(e);
  }

  lemma BareEntry(path: string, es: seq<Entry>, key: string)
    requires Entries(es) && Uri.IsBytes(key) && key != "" && Remaining(es) == [(key, None)]
    requires key != INDEX_PARAMETER && key != BATCH_PARAMETER
    ensures Topic.ZmqText(Subscribed(MdpTopic(path, es)))
            == ServiceName(MdpTopic(path, [])) + ("?" + (Uri.Encode(key) + "#"))
  {
    SameRemaining(path, es, (key, None));
    SingleTexts(path, key);
  }

  lemma BareStart(params: seq<Entry>, key: string, fs: seq<Entry>, order: seq<Entry>, gs: seq<Entry>)
    requires Entries(params) && Uri.IsBytes(key) && key != "" && !PlainKey(key)
    requires MapOf(params) - {INDEX_PARAMETER} == map[key := None] && Enumerated(params, fs, order, gs)
    ensures Remaining(order) == [(Drifted((key, None)), None)]
  {
    var e: Entry := (key, None);
    var none: seq<Entry> := [];
    KeptSingle(params, fs, e);
    SingleMap(e);
    assert none + [e] == [e];
    DriftOrder(none, e, order);
  }

  lemma BareStop(params: seq<Entry>, key: string, gs: seq<Entry>)
    requires Entries(params) && Entries(gs) && Permuted(params, gs) && Uri.IsBytes(key) && !PlainKey(key)
    requires MapOf(params) - {INDEX_PARAMETER} == map[key := None]
    ensures Remaining(gs) == [(key, None)]
  {
    ParametersArePlain();
    PermutedMapOf(params, gs);
    RemainingSingle(gs, (key, None));
  }

  lemma BareTopicsDiffer(path: string, key: string, gs: seq<Entry>, next: string, order: seq<Entry>)
    requires Entries(gs) && Uri.IsBytes(key) && key != "" && !PlainKey(key) && Remaining(gs) == [(key, None)]
    requires Entries(order) && Uri.IsBytes(next) && next != "" && !PlainKey(next) && Remaining(order) == [(next, None)]
    requires next == Uri.Encode(key)
    ensures Topic.ZmqText(Subscribed(MdpTopic(path, order))) != Topic.ZmqText(Subscribed(MdpTopic(path, gs)))
  {
    ParametersArePlain();
    BareEntry(path, gs, key);
    BareEntry(path, order, next);
    BareTextsDiffer(ServiceName(MdpTopic(path, [])), next, Uri.Encode(next));
    Uri.UnreservedIsFixed(next);
  }

  /** A bare key that needs encoding: however the hash maps are enumerated, the stop never reaches the start. */
  lemma BareKeyLosesStop(path: string, key: string, params: seq<Entry>, fs: seq<Entry>, order: seq<Entry>, gs: seq<Entry>)
    requires Entries(params) && Uri.IsBytes(key) && key != "" && !PlainKey(key)
    requires MapOf(params) - {INDEX_PARAMETER} == map[key := None] && Enumerated(params, fs, order, gs)
    ensures Subscribed(MdpTopic(path, order)) != Subscribed(MdpTopic(path, gs))
    ensures HasTopic(MdpTopic(path, [])) ==>
              SubscriptionKey(MdpTopic(path, order)) != SubscriptionKey(MdpTopic(path, gs))
  {
    BareStart(params, key, fs, order, gs);
    BareStop(params, key, gs);
    DriftsOn((key, None));
    EncodeEmptyIff(key);
    BareTopicsDiffer(path, key, gs, Uri.Encode(key), order);
  }
}
