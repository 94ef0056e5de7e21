/**
 Transactional settings over whole runs: the bounded history agrees with the unbounded record of
 all commits, a token publishes exactly its last staged value, and what expiry by time removes.
 */
module SettingRuns {
  import opened Wrappers
  import opened SettingHistory

  datatype Event<T, !U> =
    | Commits(value: T, now: int, read: int, retired: int)
    | Modifies(change: U -> U, now: int, read: int, retired: int)
    | Stages(token: Token, staged: T, retired: int)
    | CommitsToken(token: Token, now: int, clock: nat -> int)
    | Withdraws(token: Token)
    | Reads(entry: nat, read: int)
    | Expires(now: int)

  function Step<T, U>(h: History<T, U>, limits: Limits, onCommit: (U, T) -> U, e: Event<T, U>): (r: History<T, U>)
    requires Valid(h, limits)
    ensures Valid(r, limits)
  {
    match e
    case Commits(value, now, read, retired) => Publish(h, limits, onCommit(Latest(h), value), now, read, retired)
    case Modifies(change, now, read, retired) => Publish(h, limits, change(Latest(h)), now, read, retired)
    case Stages(token, value, retired) => StageToken(h, limits, token, value, retired)
    case CommitsToken(token, now, clock) => CommitToken(h, limits, onCommit, token, now, clock)
    case Withdraws(token) => h.(pending := Others(h.pending, token))
    case Reads(i, read) => if h.tail <= i < |h.log| then Touch(h, i, read) else h
    case Expires(now) => Retire(h, limits, now)
  }

  function Run<T, U>(h: History<T, U>, limits: Limits, onCommit: (U, T) -> U, run: seq<Event<T, U>>): (r: History<T, U>)
    requires Valid(h, limits)
    ensures Valid(r, limits)
    decreases |run|
  {
    if |run| == 0 then h else Run(Step(h, limits, onCommit, run[0]), limits, onCommit, run[1..])
  }

  function Start<T, U>(initial: U, now: int): History<T, U> {
    History([Node(initial, now, now)], 0, [])
  }

  // ----- the record of all commits --------------------------------------------------------------------------

  /** What a setting would be without any bound on its history: all values, and what is staged. */
  datatype Record<T, U> = Record(values: seq<U>, staged: seq<Staged<T>>)

  function Values<U>(log: seq<Node<U>>): seq<U> {
    seq(|log|, i requires 0 <= i < |log| => log[i].value)
  }

  function RecordOf<T, U>(h: History<T, U>): Record<T, U> {
    Record(Values(h.log), h.pending)
  }

  function Fold<T, U>(values: seq<U>, onCommit: (U, T) -> U, news: seq<T>): (r: seq<U>)
    requires values != []
    ensures r != []
    decreases |news|
  {
    if news == [] then values
    else
      var before := Fold(values, onCommit, news[..|news| - 1]);
      before + [onCommit(before[|before| - 1], news[|news| - 1])]
  }

  function Recorded<T, U>(r: Record<T, U>, onCommit: (U, T) -> U, e: Event<T, U>): (r': Record<T, U>)
    requires r.values != []
    ensures r'.values != []
  {
    var last := r.values[|r.values| - 1];
    match e
    case Commits(value, _, _, _) => r.(values := r.values + [onCommit(last, value)])
    case Modifies(change, _, _, _) => r.(values := r.values + [change(last)])
    case Stages(token, value, _) => r.(staged := Put(r.staged, token, value))
    case CommitsToken(token, _, _) =>
      Record(Fold(r.values, onCommit, Matching(r.staged, token)), Others(r.staged, token))
    case Withdraws(token) => r.(staged := Others(r.staged, token))
    case Reads(_, _) => r
    case Expires(_) => r
  }

  function RecordedAll<T, U>(r: Record<T, U>, onCommit: (U, T) -> U, run: seq<Event<T, U>>): (r': Record<T, U>)
    requires r.values != []
    ensures r'.values != []
    decreases |run|
  {
    if |run| == 0 then r else RecordedAll(Recorded(r, onCommit, run[0]), onCommit, run[1..])
  }

  lemma PublishRecords<T, U>(h: History<T, U>, limits: Limits, value: U, now: int, read: int, retired: int)
    requires Valid(h, limits)
    ensures var r := Publish(h, limits, value, now, read, retired);
            Values(r.log) == Values(h.log) + [value] && r.pending == h.pending
  {
  }

  lemma {:induction false} PublishAllRecords<T, U>(h: History<T, U>, limits: Limits, onCommit: (U, T) -> U,
                                                   values: seq<T>, now: int, clock: nat -> int)
    requires Valid(h, limits)
    ensures var r := PublishAll(h, limits, onCommit, values, now, clock);
            Values(r.log) == Fold(Values(h.log), onCommit, values) && r.pending == h.pending
    decreases |values|
  {
    if values != [] {
      var n := |values| - 1;
      PublishAllRecords(h, limits, onCommit, values[..n], now, clock);
      var before := PublishAll(h, limits, onCommit, values[..n], now, clock);
      PublishRecords(before, limits, onCommit(Latest(before), values[n]), now, clock(2 * n), clock(2 * n + 1));
    }
  }

  lemma StepRecords<T, U>(h: History<T, U>, limits: Limits, onCommit: (U, T) -> U, e: Event<T, U>)
    requires Valid(h, limits)
    ensures RecordOf(Step(h, limits, onCommit, e)) == Recorded(RecordOf(h), onCommit, e)
  {
    match e
    case Commits(value, now, read, retired) =>
      PublishRecords(h, limits, onCommit(Latest(h), value), now, read, retired);
    case Modifies(change, now, read, retired) =>
      PublishRecords(h, limits, change(Latest(h)), now, read, retired);
    case CommitsToken(token, now, clock) =>
      PublishAllRecords(h, limits, onCommit, Matching(h.pending, token), now, clock);
    case Reads(i, read) =>
      assert Values(Step(h, limits, onCommit, e).log) == Values(h.log);
    case _ =>
  }

  /** Reads, expiry and the ring have no influence on what has been recorded. */
  lemma {:induction false} RunRecords<T, U>(h: History<T, U>, limits: Limits, onCommit: (U, T) -> U, run: seq<Event<T, U>>)
    requires Valid(h, limits)
    ensures RecordOf(Run(h, limits, onCommit, run)) == RecordedAll(RecordOf(h), onCommit, run)
    decreases |run|
  {
    if |run| != 0 {
      StepRecords(h, limits, onCommit, run[0]);
      RunRecords(Step(h, limits, onCommit, run[0]), limits, onCommit, run[1..]);
    }
  }

  // ----- when values are valid ---------------------------------------------------------------------------------

  function Stamps<U>(log: seq<Node<U>>): seq<int> {
    seq(|log|, i requires 0 <= i < |log| => log[i].validSince)
  }

  function Repeat(now: int, n: nat): seq<int> {
    seq(n, i requires 0 <= i < n => now)
  }

  /** The time that a commit was given. */
  function StampOf<T, U>(e: Event<T, U>): int {
    match e
    case Commits(_, now, _, _) => now
    case Modifies(_, now, _, _) => now
    case CommitsToken(_, now, _) => now
    case _ => 0
  }

  /** The times of all commits, one for each value of the record. */
  function StampedAll<T, U>(r: Record<T, U>, times: seq<int>, onCommit: (U, T) -> U, run: seq<Event<T, U>>): seq<int>
    requires r.values != []
    decreases |run|
  {
    if |run| == 0 then times
    else
      var r' := Recorded(r, onCommit, run[0]);
      var more := |r'.values| - |r.values|;
      StampedAll(r', if more > 0 then times + Repeat(StampOf(run[0]), more) else times, onCommit, run[1..])
  }

  lemma {:induction false} PublishAllStamps<T, U>(h: History<T, U>, limits: Limits, onCommit: (U, T) -> U,
                                                  values: seq<T>, now: int, clock: nat -> int)
    requires Valid(h, limits)
    ensures var r := PublishAll(h, limits, onCommit, values, now, clock);
            Stamps(r.log) == Stamps(h.log) + Repeat(now, |values|)
    decreases |values|
  {
    if values != [] {
      var n := |values| - 1;
      PublishAllStamps(h, limits, onCommit, values[..n], now, clock);
      var before := PublishAll(h, limits, onCommit, values[..n], now, clock);
      PublishStamps(before, limits, onCommit(Latest(before), values[n]), now, clock(2 * n), clock(2 * n + 1));
      assert Repeat(now, n) + [now] == Repeat(now, n + 1);
    }
  }

  lemma PublishStamps<T, U>(h: History<T, U>, limits: Limits, value: U, now: int, read: int, retired: int)
    requires Valid(h, limits)
    ensures Stamps(Publish(h, limits, value, now, read, retired).log) == Stamps(h.log) + [now]
  {
  }

  lemma StepStamps<T, U>(h: History<T, U>, limits: Limits, onCommit: (U, T) -> U, e: Event<T, U>)
    requires Valid(h, limits)
    ensures var more := |Recorded(RecordOf(h), onCommit, e).values| - |h.log|;
            && more >= 0
            && Stamps(Step(h, limits, onCommit, e).log) == Stamps(h.log) + Repeat(StampOf(e), more)
  {
    StepRecords(h, limits, onCommit, e);
    match e
    case Commits(value, now, read, retired) =>
      PublishStamps(h, limits, onCommit(Latest(h), value), now, read, retired);
      assert Repeat(now, 1) == [now];
    case Modifies(change, now, read, retired) =>
      PublishStamps(h, limits, change(Latest(h)), now, read, retired);
      assert Repeat(now, 1) == [now];
    case CommitsToken(token, now, clock) =>
      PublishAllStamps(h, limits, onCommit, Matching(h.pending, token), now, clock);
      assert |Stamps(Step(h, limits, onCommit, e).log)| == |Step(h, limits, onCommit, e).log|;
    case _ =>
      assert Stamps(Step(h, limits, onCommit, e).log) == Stamps(h.log);
  }

  lemma {:induction false} RunStamps<T, U>(h: History<T, U>, limits: Limits, onCommit: (U, T) -> U, run: seq<Event<T, U>>)
    requires Valid(h, limits)
    ensures Stamps(Run(h, limits, onCommit, run).log) == StampedAll(RecordOf(h), Stamps(h.log), onCommit, run)
    decreases |run|
  {
    if |run| != 0 {
      StepRecords(h, limits, onCommit, run[0]);
      StepStamps(h, limits, onCommit, run[0]);
      assert Stamps(h.log) + Repeat(StampOf(run[0]), 0) == Stamps(h.log);
      RunStamps(Step(h, limits, onCommit, run[0]), limits, onCommit, run[1..]);
    }
  }

  /**
   Over every run: the newest entry that is valid at a time is the last value committed at or before
   that time, in the unbounded record of values and times.
   */
  lemma AsOfAgrees<T, U>(initial: U, now: int, limits: Limits, onCommit: (U, T) -> U, run: seq<Event<T, U>>,
                         timeStamp: int, at: nat)
    requires BUFFER_MARGIN < limits.size
    requires var h := Run(Start<T, U>(initial, now), limits, onCommit, run);
             && h.tail <= at < |h.log| && h.log[at].validSince <= timeStamp
             && forall i | at < i < |h.log| :: h.log[i].validSince > timeStamp
    ensures var h := Run(Start<T, U>(initial, now), limits, onCommit, run);
            var values := RecordedAll(Record([initial], []), onCommit, run).values;
            var times := StampedAll(Record([initial], []), [now], onCommit, run);
            && |values| == |times| && at < |times|
            && h.log[at].value == values[at] && times[at] <= timeStamp
            && forall i | at < i < |times| :: times[i] > timeStamp
  {
    var start := Start<T, U>(initial, now);
    assert RecordOf(start) == Record([initial], []) && Stamps(start.log) == [now];
    RunRecords(start, limits, onCommit, run);
    RunStamps(start, limits, onCommit, run);
    var h := Run(start, limits, onCommit, run);
    assert Values(h.log)[at] == h.log[at].value && Stamps(h.log)[at] == h.log[at].validSince;
  }

  // ----- the window --------------------------------------------------------------------------------------------

  /** Without expiry by time the history reaches back exactly as far as the ring allows. */
  ghost predicate Window<T, U>(h: History<T, U>, limits: Limits) {
    h.tail == WindowStart(|h.log| - 1, limits)
  }

  function WindowStart(head: int, limits: Limits): int {
    if head > limits.size - BUFFER_MARGIN then head - (limits.size - BUFFER_MARGIN) else 0
  }

  lemma {:induction false} PublishAllWindow<T, U>(h: History<T, U>, limits: Limits, onCommit: (U, T) -> U,
                                                  values: seq<T>, now: int, clock: nat -> int)
    requires Valid(h, limits) && limits.timeOut <= 0 && Window(h, limits)
    ensures Window(PublishAll(h, limits, onCommit, values, now, clock), limits)
    decreases |values|
  {
    if values != [] {
      PublishAllWindow(h, limits, onCommit, values[..|values| - 1], now, clock);
    }
  }

  lemma {:induction false} RunWindow<T, U>(h: History<T, U>, limits: Limits, onCommit: (U, T) -> U, run: seq<Event<T, U>>)
    requires Valid(h, limits) && limits.timeOut <= 0 && Window(h, limits)
    ensures Window(Run(h, limits, onCommit, run), limits)
    decreases |run|
  {
    if |run| != 0 {
      if run[0].CommitsToken? {
        PublishAllWindow(h, limits, onCommit, Matching(h.pending, run[0].token), run[0].now, run[0].clock);
      }
      RunWindow(Step(h, limits, onCommit, run[0]), limits, onCommit, run[1..]);
    }
  }

  /**
   The value `back` commits ago is the one in the unbounded record; it can be read as long as it is
   among the last `size - 8 + 1` values, and without expiry by time for exactly that long.
   */
  lemma HistoryAgrees<T, U>(initial: U, now: int, limits: Limits, onCommit: (U, T) -> U, run: seq<Event<T, U>>, back: nat)
    requires BUFFER_MARGIN < limits.size
    ensures var h := Run(Start<T, U>(initial, now), limits, onCommit, run);
            var values := RecordedAll(Record([initial], []), onCommit, run).values;
            && |h.log| == |values|
            && (h.tail <= |h.log| - 1 - back ==>
                  back < |values| && h.log[|h.log| - 1 - back].value == values[|values| - 1 - back])
            && (limits.timeOut <= 0 ==>
                  (h.tail <= |h.log| - 1 - back <==> back < |values| && back <= limits.size - BUFFER_MARGIN))
  {
    var start := Start<T, U>(initial, now);
    assert RecordOf(start) == Record([initial], []);
    RunRecords(start, limits, onCommit, run);
    var h := Run(start, limits, onCommit, run);
    assert |Values(h.log)| == |h.log|;
    if limits.timeOut <= 0 {
      RunWindow(start, limits, onCommit, run);
    }
  }

  // ----- tokens ------------------------------------------------------------------------------------------------

  /** The value staged for a token, if there is one. */
  function Lookup<T>(pending: seq<Staged<T>>, token: Token): (r: Option<T>)
    ensures r.None? ==> forall i | 0 <= i < |pending| :: pending[i].token != token
    ensures r.Some? ==> exists i | 0 <= i < |pending| :: pending[i] == Staged(token, r.value)
  {
    if pending == [] then None
    else
      var n := |pending| - 1;
      if pending[n].token == token then Some(pending[n].value)
      else
        var before := Lookup(pending[..n], token);
        assert before.Some? ==> exists i | 0 <= i < n :: pending[i] == pending[..n][i] == Staged(token, before.value);
        before
  }

  ghost predicate Distinct<T>(pending: seq<Staged<T>>) {
    && (forall i | 0 <= i < |pending| :: pending[i].token != NullToken)
    && (forall i, j | 0 <= i < j < |pending| :: pending[i].token != pending[j].token)
  }

  lemma LookupIs<T>(pending: seq<Staged<T>>, i: nat)
    requires Distinct(pending) && i < |pending|
    ensures Lookup(pending, pending[i].token) == Some(pending[i].value)
  {
  }

  /** Staging writes one place, the one of the token or a new one at the end. */
  lemma PutPlace<T>(pending: seq<Staged<T>>, token: Token, value: T) returns (i: nat)
    requires Distinct(pending)
    ensures i <= |pending| && |Put(pending, token, value)| == (if i < |pending| then |pending| else i + 1)
    ensures Put(pending, token, value)[i] == Staged(token, value) && (i < |pending| ==> pending[i].token == token)
    ensures forall k | 0 <= k < |pending| && k != i :: Put(pending, token, value)[k] == pending[k] && pending[k].token != token
  {
    i := 0;
    while i < |pending| && pending[i].token != token
      invariant i <= |pending| && forall k | 0 <= k < i :: pending[k].token != token
    {
      i := i + 1;
    }
    PutIs(pending, token, value, i);
  }

  lemma PutDistinct<T>(pending: seq<Staged<T>>, token: Token, value: T)
    requires Distinct(pending) && token != NullToken
    ensures Distinct(Put(pending, token, value))
    ensures Lookup(Put(pending, token, value), token) == Some(value)
  {
    var i := PutPlace(pending, token, value);
    LookupIs(Put(pending, token, value), i);
  }

  lemma LookupSame<T>(pending: seq<Staged<T>>, put: seq<Staged<T>>, i: nat, other: Token)
    requires Distinct(put) && i < |put| && |pending| <= |put| <= |pending| + 1 && (i == |pending| || |put| == |pending|)
    requires (forall k | 0 <= k < |pending| && k != i :: put[k] == pending[k]) && put[i].token != other
    requires i < |pending| ==> pending[i].token != other
    ensures Lookup(put, other) == Lookup(pending, other)
  {
    var here := Lookup(pending, other);
    if here.Some? {
      var k :| 0 <= k < |pending| && pending[k] == Staged(other, here.value);
      LookupIs(put, k);
    } else {
      assert forall k | 0 <= k < |put| :: put[k].token != other;
    }
  }

  lemma PutLookup<T>(pending: seq<Staged<T>>, token: Token, value: T, other: Token)
    requires Distinct(pending) && token != NullToken
    ensures Distinct(Put(pending, token, value))
    ensures Lookup(Put(pending, token, value), other) == if other == token then Some(value) else Lookup(pending, other)
  {
    PutDistinct(pending, token, value);
    if other != token {
      var i := PutPlace(pending, token, value);
      LookupSame(pending, Put(pending, token, value), i, other);
    }
  }

  lemma AppendLookup<T>(pending: seq<Staged<T>>, x: Staged<T>, other: Token)
    ensures Lookup(pending + [x], other) == if x.token == other then Some(x.value) else Lookup(pending, other)
  {
    assert (pending + [x])[..|pending|] == pending;
  }

  lemma {:induction false} OthersDistinct<T>(pending: seq<Staged<T>>, token: Token)
    requires Distinct(pending)
    ensures Distinct(Others(pending, token))
    ensures forall x | x in Others(pending, token) :: x in pending
  {
    if pending != [] {
      var n := |pending| - 1;
      var shorter := Others(pending[..n], token);
      OthersDistinct(pending[..n], token);
      forall i | 0 <= i < |shorter| ensures shorter[i].token != pending[n].token {
        assert shorter[i] in pending[..n];
      }
    }
  }

  lemma {:induction false} OthersLookup<T>(pending: seq<Staged<T>>, token: Token, other: Token)
    ensures Lookup(Others(pending, token), other)
            == if token == NullToken || other == token then None else Lookup(pending, other)
  {
    if pending != [] {
      var n := |pending| - 1;
      var front, last := pending[..n], pending[n];
      OthersLookup(front, token, other);
      assert pending == front + [last];
      AppendLookup(front, last, other);
      AppendLookup(Others(front, token), last, other);
      assert Others(front, token) + [] == Others(front, token);
    }
  }

  lemma {:induction false} MatchingIs<T>(pending: seq<Staged<T>>, token: Token)
    requires Distinct(pending) && token != NullToken
    ensures Matching(pending, token) == match Lookup(pending, token) case Some(v) => [v] case None => []
  {
    if pending != [] {
      MatchingIs(pending[..|pending| - 1], token);
    }
  }

  predicate Named<T, U>(e: Event<T, U>) {
    e.Stages? ==> e.token != NullToken
  }

  lemma RecordedDistinct<T, U>(r: Record<T, U>, onCommit: (U, T) -> U, e: Event<T, U>)
    requires r.values != [] && Distinct(r.staged) && Named(e)
    ensures Distinct(Recorded(r, onCommit, e).staged)
  {
    match e
    case Stages(token, value, _) => PutLookup(r.staged, token, value, token);
    case CommitsToken(token, _, _) => OthersDistinct(r.staged, token);
    case Withdraws(token) => OthersDistinct(r.staged, token);
    case _ =>
  }

  lemma {:induction false} RecordedAllDistinct<T, U>(r: Record<T, U>, onCommit: (U, T) -> U, run: seq<Event<T, U>>)
    requires r.values != [] && Distinct(r.staged)
    requires forall i | 0 <= i < |run| :: Named(run[i])
    ensures Distinct(RecordedAll(r, onCommit, run).staged)
    decreases |run|
  {
    if |run| != 0 {
      RecordedDistinct(r, onCommit, run[0]);
      RecordedAllDistinct(Recorded(r, onCommit, run[0]), onCommit, run[1..]);
    }
  }

  /** Stages, commits or withdraws something for the token. */
  predicate Concerns<T, U>(e: Event<T, U>, token: Token) {
    match e
    case Stages(t, _, _) => t == token
    case CommitsToken(t, _, _) => t == NullToken || t == token
    case Withdraws(t) => t == NullToken || t == token
    case _ => false
  }

  lemma StagedKept<T, U>(r: Record<T, U>, onCommit: (U, T) -> U, e: Event<T, U>, token: Token)
    requires r.values != [] && Distinct(r.staged) && Named(e) && !Concerns(e, token)
    ensures Lookup(Recorded(r, onCommit, e).staged, token) == Lookup(r.staged, token)
  {
    match e
    case Stages(t, value, _) => PutLookup(r.staged, t, value, token);
    case CommitsToken(t, _, _) => OthersLookup(r.staged, t, token);
    case Withdraws(t) => OthersLookup(r.staged, t, token);
    case _ =>
  }

  lemma {:induction false} StagedKeptInRun<T, U>(r: Record<T, U>, onCommit: (U, T) -> U, run: seq<Event<T, U>>, token: Token)
    requires r.values != [] && Distinct(r.staged)
    requires forall i | 0 <= i < |run| :: Named(run[i]) && !Concerns(run[i], token)
    ensures Distinct(RecordedAll(r, onCommit, run).staged)
    ensures Lookup(RecordedAll(r, onCommit, run).staged, token) == Lookup(r.staged, token)
    decreases |run|
  {
    if |run| != 0 {
      RecordedDistinct(r, onCommit, run[0]);
      StagedKept(r, onCommit, run[0], token);
      StagedKeptInRun(Recorded(r, onCommit, run[0]), onCommit, run[1..], token);
    }
  }

  lemma FoldNext<T, U>(values: seq<U>, onCommit: (U, T) -> U, news: seq<T>, value: T)
    requires values != []
    ensures var before := Fold(values, onCommit, news);
            Fold(values, onCommit, news + [value]) == before + [onCommit(before[|before| - 1], value)]
  {
    assert (news + [value])[..|news|] == news;
  }

  lemma FoldOne<T, U>(values: seq<U>, onCommit: (U, T) -> U, value: T)
    requires values != []
    ensures Fold(values, onCommit, [value]) == values + [onCommit(values[|values| - 1], value)]
  {
    var none: seq<T> := [];
    FoldNext(values, onCommit, none, value);
    assert none + [value] == [value];
  }

  lemma FoldFound<T, U>(values: seq<U>, onCommit: (U, T) -> U, staged: seq<Staged<T>>, token: Token)
    requires values != [] && Distinct(staged) && token != NullToken
    ensures Fold(values, onCommit, Matching(staged, token))
            == match Lookup(staged, token)
               case Some(v) => values + [onCommit(values[|values| - 1], v)]
               case None => values
  {
    MatchingIs(staged, token);
    var found := Lookup(staged, token);
    if found.Some? {
      FoldOne(values, onCommit, found.value);
    }
  }

  /** Committing a token adds its staged value, if there is one, on top of the latest value. */
  lemma TokenCommits<T, U>(r: Record<T, U>, onCommit: (U, T) -> U, token: Token, now: int, clock: nat -> int, other: Token)
    requires r.values != [] && Distinct(r.staged) && token != NullToken
    ensures var after := Recorded(r, onCommit, CommitsToken(token, now, clock));
            && after.values == (match Lookup(r.staged, token)
                                case Some(v) => r.values + [onCommit(r.values[|r.values| - 1], v)]
                                case None => r.values)
            && Lookup(after.staged, other) == if other == token then None else Lookup(r.staged, other)
  {
    FoldFound(r.values, onCommit, r.staged, token);
    OthersLookup(r.staged, token, other);
  }

  lemma CommitsFound<T, U>(r: Record<T, U>, onCommit: (U, T) -> U, token: Token, now: int, clock: nat -> int, value: T)
    requires r.values != [] && Distinct(r.staged) && token != NullToken && Lookup(r.staged, token) == Some(value)
    ensures var after := Recorded(r, onCommit, CommitsToken(token, now, clock));
            && after.values == r.values + [onCommit(r.values[|r.values| - 1], value)]
            && Lookup(after.staged, token) == None
  {
    TokenCommits(r, onCommit, token, now, clock, token);
  }

  /**
   Whatever came before, and whatever else happens between the two, committing a token publishes
   the value that was staged for it last, on top of everything committed in the meantime.
   */
  lemma TokenPublishesStaged<T, U>(r: Record<T, U>, onCommit: (U, T) -> U, token: Token, value: T, retired: int,
                                   between: seq<Event<T, U>>, now: int, clock: nat -> int)
    requires r.values != [] && Distinct(r.staged) && token != NullToken
    requires forall i | 0 <= i < |between| :: Named(between[i]) && !Concerns(between[i], token)
    ensures var staged := Recorded(r, onCommit, Stages(token, value, retired));
            var waiting := RecordedAll(staged, onCommit, between);
            var committed := Recorded(waiting, onCommit, CommitsToken(token, now, clock));
            && staged.values == r.values
            && committed.values == waiting.values + [onCommit(waiting.values[|waiting.values| - 1], value)]
            && Lookup(committed.staged, token) == None
  {
    var staged := Recorded(r, onCommit, Stages(token, value, retired));
    PutLookup(r.staged, token, value, token);
    StagedKeptInRun(staged, onCommit, between, token);
    CommitsFound(RecordedAll(staged, onCommit, between), onCommit, token, now, clock, value);
  }

  /** In every run from the start the staged tokens are distinct. */
  lemma RunsAreDistinct<T, U>(initial: U, now: int, limits: Limits, onCommit: (U, T) -> U, run: seq<Event<T, U>>)
    requires BUFFER_MARGIN < limits.size && forall i | 0 <= i < |run| :: Named(run[i])
    ensures Distinct(Run(Start<T, U>(initial, now), limits, onCommit, run).pending)
  {
    RunRecords(Start<T, U>(initial, now), limits, onCommit, run);
    RecordedAllDistinct(RecordOf(Start<T, U>(initial, now)), onCommit, run);
  }

  // ----- expiry by time ------------------------------------------------------------------------------------------

  /** Expiry by time removes expired entries only if no entry expires before an older one. */
  lemma DropsOnlyExpiredIff<U>(log: seq<Node<U>>, tail: nat, limits: Limits, now: int)
    requires tail < |log|
    ensures (forall i | tail <= i < TimeTail(log, tail, |log| - 1, limits, now) :: Expired(log[i], limits, now))
            <==> (forall i, j | tail <= i < j < |log| - 1 && Expired(log[j], limits, now) :: Expired(log[i], limits, now))
  {
    var t := TimeTail(log, tail, |log| - 1, limits, now);
    if t > tail {
      assert Expired(log[t - 1], limits, now);
    }
  }

  lemma RunOne<T, U>(h: History<T, U>, limits: Limits, onCommit: (U, T) -> U, e: Event<T, U>, rest: seq<Event<T, U>>)
    requires Valid(h, limits)
    ensures Run(h, limits, onCommit, [e] + rest) == Run(Step(h, limits, onCommit, e), limits, onCommit, rest)
  {
    assert ([e] + rest)[1..] == rest;
  }

  /** The setting of a run: two commits right after the start. */
  function ThreeEntries(past: int): History<int, int> {
    History([Node(0, past, past), Node(1, past, past), Node(2, past, past)], 0, [])
  }

  lemma TwoCommits(limits: Limits, past: int, onCommit: (int, int) -> int)
    requires BUFFER_MARGIN + 2 <= limits.size && limits.timeOut > 0 && forall u, t :: onCommit(u, t) == t
    ensures var start := Start<int, int>(0, past);
            var h := Step(start, limits, onCommit, Commits(1, past, past, past));
            Step(h, limits, onCommit, Commits(2, past, past, past)) == ThreeEntries(past)
  {
    var start := Start<int, int>(0, past);
    var h := Step(start, limits, onCommit, Commits(1, past, past, past));
    assert h == History([Node(0, past, past), Node(1, past, past)], 0, []);
  }

  /**
   Reading an old entry does not protect it: in this run from the start, the first entry has just
   been read when a younger one that has not been read for long takes it along.
   */
  lemma ReadEntryIsDropped(limits: Limits, past: int, onCommit: (int, int) -> int)
    requires BUFFER_MARGIN + 2 <= limits.size && limits.timeOut > 0 && forall u, t :: onCommit(u, t) == t
    ensures var now := past + limits.timeOut + 1;
            var start := Start<int, int>(0, past);
            var run := [Commits(1, past, past, past), Commits(2, past, past, past), Reads(0, now)];
            var h := Run(start, limits, onCommit, run);
            && h.tail == 0 && !Expired(h.log[0], limits, now)
            && Step(h, limits, onCommit, Expires(now)).tail == 2
  {
    var now := past + limits.timeOut + 1;
    var start := Start<int, int>(0, past);
    var a, b, c: Event<int, int> := Commits(1, past, past, past), Commits(2, past, past, past), Reads(0, now);
    TwoCommits(limits, past, onCommit);
    assert [a, b, c] == [a] + ([b] + ([c] + []));
    RunOne(start, limits, onCommit, a, [b] + ([c] + []));
    RunOne(Step(start, limits, onCommit, a), limits, onCommit, b, [c] + []);
    RunOne(ThreeEntries(past), limits, onCommit, c, []);
    var h := Touch(ThreeEntries(past), 0, now);
    assert Expired(h.log[1], limits, now);
  }

  /** An entry stays for exactly as long after its last access as the time-out says. */
  lemma ExpiryIsSharp(limits: Limits, past: int, onCommit: (int, int) -> int)
    requires BUFFER_MARGIN + 2 <= limits.size && limits.timeOut > 0 && forall u, t :: onCommit(u, t) == t
    ensures var start := Start<int, int>(0, past);
            var h := Run(start, limits, onCommit, [Commits(1, past, past, past), Commits(2, past, past, past)]);
            && Step(h, limits, onCommit, Expires(past + limits.timeOut)).tail == 0
            && Step(h, limits, onCommit, Expires(past + limits.timeOut + 1)).tail == 2
  {
    var start := Start<int, int>(0, past);
    var a, b: Event<int, int> := Commits(1, past, past, past), Commits(2, past, past, past);
    TwoCommits(limits, past, onCommit);
    assert [a, b] == [a] + ([b] + []);
    RunOne(start, limits, onCommit, a, [b] + []);
    RunOne(Step(start, limits, onCommit, a), limits, onCommit, b, []);
    var h := ThreeEntries(past);
    assert !Expired(h.log[0], limits, past + limits.timeOut) && !Expired(h.log[1], limits, past + limits.timeOut);
    assert Expired(h.log[1], limits, past + limits.timeOut + 1);
  }
}
