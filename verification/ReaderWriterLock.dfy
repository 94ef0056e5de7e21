/**
 The signed-counter lock: any number of threads step through the load, the compare-exchange
 loop and the release of `tryLock`, `lock` and `unlock`. One action is one atomic access.
 */
module ReaderWriterLock {

  datatype Kind = Read | Write

  /** Where a thread stands. `Trying` holds the local `expected` after the clamp to 0. */
  datatype Pc =
    | Idle
    | Trying(kind: Kind, expected: int, once: bool)
    | Holding(kind: Kind, returned: int)

  datatype State = State(counter: int, pcs: map<nat, Pc>)

  datatype Action =
    | Load(thread: nat, kind: Kind, once: bool, seen: int)
    | CompareExchange(thread: nat)
    | Unlock(thread: nat)

  /** A reader never expects a negative counter, a writer never a positive one. */
  function Clamp(kind: Kind, value: int): int {
    match kind
    case Read => if value < 0 then 0 else value
    case Write => if value > 0 then 0 else value
  }

  function Delta(kind: Kind): int {
    if kind == Read then 1 else -1
  }

  function Opposite(kind: Kind): Kind {
    if kind == Read then Write else Read
  }

  predicate Enabled(s: State, a: Action) {
    && a.thread in s.pcs
    && match a
       case Load(t, _, _, _) => s.pcs[t].Idle?
       case CompareExchange(t) => s.pcs[t].Trying?
       case Unlock(t) => s.pcs[t].Holding?
  }

  predicate Succeeds(s: State, t: nat)
    requires Enabled(s, CompareExchange(t))
  {
    s.counter == s.pcs[t].expected
  }

  /** The load is relaxed, so the value it sees is arbitrary: it may be stale. */
  function Step(s: State, a: Action): State
    requires Enabled(s, a)
  {
    match a
    case Load(t, kind, once, seen) =>
      s.(pcs := s.pcs[t := Trying(kind, Clamp(kind, seen), once)])
    case CompareExchange(t) =>
      var Trying(kind, expected, once) := s.pcs[t];
      if Succeeds(s, t) then
        State(expected + Delta(kind), s.pcs[t := Holding(kind, expected + Delta(kind))])
      else if once then
        s.(pcs := s.pcs[t := Idle])
      else
        s.(pcs := s.pcs[t := Trying(kind, Clamp(kind, s.counter), false)])
    case Unlock(t) =>
      State(s.counter - Delta(s.pcs[t].kind), s.pcs[t := Idle])
  }

  function Initial(threads: set<nat>): State {
    State(0, map t | t in threads :: Idle)
  }

  predicate Executable(s: State, run: seq<Action>)
    decreases |run|
  {
    run == [] || (Enabled(s, run[0]) && Executable(Step(s, run[0]), run[1..]))
  }

  function Run(s: State, run: seq<Action>): State
    requires Executable(s, run)
    decreases |run|
  {
    if run == [] then s else Run(Step(s, run[0]), run[1..])
  }

  function Holders(s: State, kind: Kind): set<nat> {
    set t | t in s.pcs && s.pcs[t].Holding? && s.pcs[t].kind == kind
  }

  /** What every step keeps; `Excluded` below is what a user of the lock relies on. */
  ghost predicate Inv(s: State) {
    && s.counter == |Holders(s, Read)| - |Holders(s, Write)|
    && (Holders(s, Read) == {} || Holders(s, Write) == {})
    && Clamped(s)
  }

  lemma StepHolders(s: State, a: Action, kind: Kind)
    requires Enabled(s, a)
    ensures Holders(Step(s, a), kind) ==
            if a.CompareExchange? && Succeeds(s, a.thread) && s.pcs[a.thread].kind == kind then
              Holders(s, kind) + {a.thread}
            else
              Holders(s, kind) - (if a.Unlock? then {a.thread} else {})
    ensures a.CompareExchange? ==> a.thread !in Holders(s, kind)
    ensures a.Unlock? ==> (a.thread in Holders(s, kind) <==> s.pcs[a.thread].kind == kind)
  {
  }

  ghost predicate Clamped(s: State) {
    forall t | t in s.pcs && s.pcs[t].Trying? :: s.pcs[t].expected == Clamp(s.pcs[t].kind, s.pcs[t].expected)
  }

  lemma StepKeepsClamped(s: State, a: Action)
    requires Clamped(s) && Enabled(s, a)
    ensures Clamped(Step(s, a))
  {
  }

  /** A successful exchange starts from a counter that leaves no room for the other kind. */
  lemma AcquireCounts(s: State, t: nat)
    requires Inv(s) && Enabled(s, CompareExchange(t)) && Succeeds(s, t)
    ensures var s', kind := Step(s, CompareExchange(t)), s.pcs[t].kind;
            && |Holders(s', kind)| == |Holders(s, kind)| + 1
            && Holders(s', Opposite(kind)) == Holders(s, Opposite(kind)) == {}
  {
    StepHolders(s, CompareExchange(t), s.pcs[t].kind);
    StepHolders(s, CompareExchange(t), Opposite(s.pcs[t].kind));
  }

  lemma ReleaseCounts(s: State, t: nat)
    requires Inv(s) && Enabled(s, Unlock(t))
    ensures var s', kind := Step(s, Unlock(t)), s.pcs[t].kind;
            && |Holders(s', kind)| == |Holders(s, kind)| - 1
            && Holders(s', Opposite(kind)) == Holders(s, Opposite(kind)) == {}
  {
    StepHolders(s, Unlock(t), s.pcs[t].kind);
    StepHolders(s, Unlock(t), Opposite(s.pcs[t].kind));
    var mine := Holders(s, s.pcs[t].kind);
    assert t in mine && |mine - {t}| == |mine| - 1;
  }

  lemma StepKeepsInv(s: State, a: Action)
    requires Inv(s) && Enabled(s, a)
    ensures Inv(Step(s, a))
  {
    assert Clamped(Step(s, a)) by { StepKeepsClamped(s, a); }
    if a.CompareExchange? && Succeeds(s, a.thread) {
      AcquireCounts(s, a.thread);
    } else if a.Unlock? {
      ReleaseCounts(s, a.thread);
    } else {
      StepHolders(s, a, Read);
      StepHolders(s, a, Write);
    }
  }

  /** Readers and writers never hold at once, and the counter says who holds. */
  predicate Excluded(s: State) {
    && (Holders(s, Read) == {} || Holders(s, Write) == {})
    && (s.counter > 0 <==> Holders(s, Read) != {})
    && (s.counter < 0 <==> Holders(s, Write) != {})
    && (s.counter == 0 <==> Holders(s, Read) + Holders(s, Write) == {})
    && s.counter == |Holders(s, Read)| - |Holders(s, Write)|
    && -|s.pcs| <= s.counter <= |s.pcs|
  }

  lemma InvExcludes(s: State)
    requires Inv(s)
    ensures Excluded(s)
  {
    forall kind ensures |Holders(s, kind)| <= |s.pcs| {
      SubsetSize(Holders(s, kind), s.pcs.Keys);
    }
  }

  lemma {:induction false} SubsetSize(a: set<nat>, b: set<nat>)
    requires a <= b
    ensures |a| <= |b|
  {
    if a != {} {
      var x :| x in a;
      SubsetSize(a - {x}, b - {x});
    }
  }

  lemma {:induction false} RunKeepsInv(s: State, run: seq<Action>)
    requires Inv(s) && Executable(s, run)
    ensures Inv(Run(s, run))
    decreases |run|
  {
    if run != [] {
      StepKeepsInv(s, run[0]);
      RunKeepsInv(Step(s, run[0]), run[1..]);
    }
  }

  /** Exclusion for every number of threads, every interleaving and every stale load. */
  lemma RunExcludes(threads: set<nat>, run: seq<Action>)
    requires Executable(Initial(threads), run)
    ensures Excluded(Run(Initial(threads), run))
  {
    assert Holders(Initial(threads), Read) == {} == Holders(Initial(threads), Write);
    RunKeepsInv(Initial(threads), run);
    InvExcludes(Run(Initial(threads), run));
  }

  /**
   The value `lock` returns is the one it installed, and its magnitude counts the holders of
   that kind, the caller included.
   */
  lemma LockReturnsHolders(s: State, t: nat)
    requires Inv(s) && Enabled(s, CompareExchange(t)) && Succeeds(s, t)
    ensures var s', kind := Step(s, CompareExchange(t)), s.pcs[t].kind;
            && s'.pcs[t] == Holding(kind, s'.counter)
            && s'.counter == Delta(kind) * |Holders(s', kind)|
            && t in Holders(s', kind)
  {
    StepKeepsInv(s, CompareExchange(t));
    StepHolders(s, CompareExchange(t), s.pcs[t].kind);
    InvExcludes(Step(s, CompareExchange(t)));
  }

  /** `unlock` returns the number of remaining holders of its kind, signed by the kind. */
  lemma UnlockReturnsHolders(s: State, t: nat)
    requires Inv(s) && Enabled(s, Unlock(t))
    ensures var s', kind := Step(s, Unlock(t)), s.pcs[t].kind;
            && s'.counter == Delta(kind) * |Holders(s', kind)|
            && Holders(s', kind) == Holders(s, kind) - {t}
            && Holders(s', Opposite(kind)) == {}
  {
    StepKeepsInv(s, Unlock(t));
    StepHolders(s, Unlock(t), Read);
    StepHolders(s, Unlock(t), Write);
    assert t in Holders(s, s.pcs[t].kind);
  }

  /**
   An attempt whose load saw the present counter is refused exactly when the other kind holds:
   that is the only thing `tryLock` and `lock` ever wait for in the absence of interference.
   */
  lemma FreshLoadSucceedsIff(s: State, t: nat, kind: Kind, once: bool)
    requires Inv(s) && Enabled(s, Load(t, kind, once, s.counter))
    ensures var s' := Step(s, Load(t, kind, once, s.counter));
            && s'.counter == s.counter && Enabled(s', CompareExchange(t))
            && (Succeeds(s', t) <==> Holders(s, Opposite(kind)) == {})
            && (Holders(Step(s', CompareExchange(t)), kind)
                == if Holders(s, Opposite(kind)) == {} then Holders(s, kind) + {t} else Holders(s, kind))
  {
    InvExcludes(s);
    var load := Load(t, kind, once, s.counter);
    StepHolders(s, load, kind);
    StepHolders(Step(s, load), CompareExchange(t), kind);
  }

  /**
   A refused `tryLock` leaves everything as it was. A refused `lock` tries again, and has learnt
   what the counter was: without interference it then succeeds exactly if the other kind does not hold.
   */
  lemma RefusedAttempt(s: State, t: nat)
    requires Inv(s) && Enabled(s, CompareExchange(t)) && !Succeeds(s, t)
    ensures var s' := Step(s, CompareExchange(t));
            && s'.counter == s.counter
            && (s.pcs[t].once ==> s'.pcs == s.pcs[t := Idle])
            && (!s.pcs[t].once ==>
                  && Enabled(s', CompareExchange(t)) && s'.pcs[t].kind == s.pcs[t].kind && !s'.pcs[t].once
                  && (Succeeds(s', t) <==> Holders(s, Opposite(s.pcs[t].kind)) == {}))
  {
    InvExcludes(s);
  }

  // ----- any number of holders at once ---------------------------------------------------------------

  function Numbers(n: nat): (threads: set<nat>)
    ensures |threads| == n && forall t: nat :: t in threads <==> t < n
  {
    if n == 0 then {} else Numbers(n - 1) + {n - 1}
  }

  function Signed(kind: Kind, n: nat): int {
    if kind == Write then 0 - n as int else n as int
  }

  function Join(kind: Kind, once: bool, t: nat): seq<Action> {
    [Load(t, kind, once, Signed(kind, t)), CompareExchange(t)]
  }

  /** Thread after thread locks, each with a load that sees the counter the one before has left. */
  function Crowd(kind: Kind, once: bool, n: nat): seq<Action> {
    if n == 0 then []
    else Crowd(kind, once, n - 1) + Join(kind, once, n - 1)
  }

  lemma {:induction false} RunAppend(s: State, run: seq<Action>, next: seq<Action>)
    requires Executable(s, run) && Executable(Run(s, run), next)
    ensures Executable(s, run + next) && Run(s, run + next) == Run(Run(s, run), next)
    decreases |run|
  {
    if run == [] {
      assert run + next == next;
    } else {
      RunAppend(Step(s, run[0]), run[1..], next);
      assert (run + next)[1..] == run[1..] + next;
    }
  }

  lemma RunTwo(s: State, a: Action, b: Action)
    requires Enabled(s, a) && Enabled(Step(s, a), b)
    ensures Executable(s, [a, b]) && Run(s, [a, b]) == Step(Step(s, a), b)
  {
    assert [a, b][1..] == [b] && [b][1..] == [];
    assert Executable(Step(s, a), [b]) && Run(Step(s, a), [b]) == Step(Step(s, a), b);
  }

  /** The first `n` threads hold, the others have not begun. */
  ghost predicate Crowded(s: State, threads: set<nat>, kind: Kind, n: nat) {
    && s.pcs.Keys == threads && s.counter == Signed(kind, n)
    && forall t | t in threads :: s.pcs[t] == if t < n then Holding(kind, Signed(kind, t + 1)) else Idle
  }

  lemma CrowdGrows(s: State, threads: set<nat>, kind: Kind, once: bool, n: nat)
    requires Crowded(s, threads, kind, n) && n in threads
    ensures var join := Join(kind, once, n);
            Executable(s, join) && Crowded(Run(s, join), threads, kind, n + 1)
  {
    RunTwo(s, Load(n, kind, once, Signed(kind, n)), CompareExchange(n));
  }

  lemma {:induction false} CrowdGathers(threads: set<nat>, kind: Kind, once: bool, n: nat)
    requires forall t: nat | t < n :: t in threads
    ensures Executable(Initial(threads), Crowd(kind, once, n))
    ensures Crowded(Run(Initial(threads), Crowd(kind, once, n)), threads, kind, n)
  {
    if n > 0 {
      var run := Crowd(kind, once, n - 1);
      CrowdGathers(threads, kind, once, n - 1);
      CrowdGrows(Run(Initial(threads), run), threads, kind, once, n - 1);
      RunAppend(Initial(threads), run, Join(kind, once, n - 1));
    }
  }

  /** Any number of readers, and any number of writers, can hold at once, by `lock` and by `tryLock`. */
  lemma AnyNumberHolds(kind: Kind, once: bool, n: nat) returns (threads: set<nat>, run: seq<Action>)
    ensures Executable(Initial(threads), run)
    ensures var s := Run(Initial(threads), run);
            && |Holders(s, kind)| == n && s.counter == Signed(kind, n)
            && (forall t | t in Holders(s, kind) :: s.pcs[t].returned == Signed(kind, t + 1))
  {
    threads, run := Numbers(n), Crowd(kind, once, n);
    CrowdGathers(threads, kind, once, n);
    assert Holders(Run(Initial(threads), run), kind) == threads;
  }
}
