/**
 The pointer exchange: the real-time thread takes the published object by swapping in null,
 the non-real-time threads publish a private copy by compare-exchange. Objects live in a heap
 from which a freed address disappears (and may be handed out again), so that every
 dereference in the model is a claim that the object is still allocated.
 */
module NonRealtimeMutable {
  import opened Wrappers

  datatype Realtime = Outside | Holding(ptr: nat)

  /** `basis` is how many publications there had been when a section made its copy, if it made one. */
  datatype Pc =
    | Idle
    | Locked
    | Section(basis: Option<nat>)
    | Releasing(basis: Option<nat>)
    | Exchanging(basis: Option<nat>, expected: nat)
    | Published
    | Moved

  datatype State<V> = State(
    heap: map<nat, V>,
    storage: nat,
    storagePtr: Option<nat>,
    rtStorageCopy: Option<nat>,
    owner: Option<nat>,
    realtime: Realtime,
    threads: map<nat, Pc>,
    publications: nat)

  datatype Action<V> =
    | RealtimeAcquire
    | RealtimeRelease
    | Lock(thread: nat)
    | Copy(thread: nat, ptr: nat)                 // nonRealtimeAcquire()
    | Construct(thread: nat, ptr: nat, value: V)  // nonRealtimeReplace(value)
    | Mutate(thread: nat, value: V)
    | Release(thread: nat)
    | LoadStorage(thread: nat)
    | CompareExchange(thread: nat, spurious: bool)
    | Move(thread: nat)
    | Unlock(thread: nat)

  function PcOf<V>(s: State<V>, t: nat): Pc {
    if t in s.threads then s.threads[t] else Idle
  }

  predicate Enabled<V>(s: State<V>, a: Action<V>) {
    match a
    case RealtimeAcquire => s.realtime.Outside? && s.storagePtr.Some?
    case RealtimeRelease => s.realtime.Holding?
    case Lock(t) => t in s.threads && s.threads[t].Idle? && s.owner == None
    case Copy(t, ptr) => PcOf(s, t).Locked? && ptr !in s.heap && s.storage in s.heap
    case Construct(t, ptr, _) => PcOf(s, t).Locked? && ptr !in s.heap
    case Mutate(t, _) => PcOf(s, t).Section? && s.rtStorageCopy.Some?
    case Release(t) => PcOf(s, t).Section?
    case LoadStorage(t) => PcOf(s, t).Releasing?
    case CompareExchange(t, _) => PcOf(s, t).Exchanging?
    case Move(t) => PcOf(s, t).Published? && s.rtStorageCopy.Some?
    case Unlock(t) => PcOf(s, t).Moved?
  }

  /** The compare-exchange publishes when it finds the pointer it expects. */
  predicate Publishes<V>(s: State<V>, a: Action<V>)
    requires Enabled(s, a)
  {
    a.CompareExchange? && !a.spurious && s.storagePtr == Some(PcOf(s, a.thread).expected)
  }

  function Freed(ptr: Option<nat>): set<nat> {
    if ptr.Some? then {ptr.value} else {}
  }

  function At<V>(s: State<V>, t: nat, pc: Pc): State<V> {
    s.(threads := s.threads[t := pc])
  }

  function Step<V>(s: State<V>, a: Action<V>): State<V>
    requires Enabled(s, a)
  {
    match a
    case RealtimeAcquire => s.(realtime := Holding(s.storagePtr.value), storagePtr := None)
    case RealtimeRelease => s.(storagePtr := Some(s.realtime.ptr), realtime := Outside)
    case Lock(t) => At(s, t, Locked).(owner := Some(t))
    case Copy(t, ptr) =>
      At(s, t, Section(Some(s.publications)))
      .(heap := (s.heap - Freed(s.rtStorageCopy))[ptr := s.heap[s.storage]],
        rtStorageCopy := Some(ptr))
    case Construct(t, ptr, value) =>
      At(s, t, Releasing(None))
      .(heap := (s.heap - Freed(s.rtStorageCopy))[ptr := value], rtStorageCopy := Some(ptr))
    case Mutate(t, value) => s.(heap := s.heap[s.rtStorageCopy.value := value])
    case Release(t) => At(s, t, Releasing(s.threads[t].basis))
    case LoadStorage(t) => At(s, t, Exchanging(s.threads[t].basis, s.storage))
    case CompareExchange(t, _) =>
      if Publishes(s, a) then
        At(s, t, Published).(storagePtr := s.rtStorageCopy, publications := s.publications + 1)
      else
        At(s, t, Releasing(s.threads[t].basis))
    case Move(t) =>
      At(s, t, Moved)
      .(heap := s.heap - {s.storage}, storage := s.rtStorageCopy.value, rtStorageCopy := None)
    case Unlock(t) => At(s, t, Idle).(owner := None)
  }

  /** The constructor publishes the initial value as the first publication. */
  function Initial<V>(value: V, ptr: nat, threads: set<nat>): State<V> {
    State(map[ptr := value], ptr, Some(ptr), None, None, Outside, map t | t in threads :: Idle, 1)
  }

  predicate Executable<V>(s: State<V>, run: seq<Action<V>>)
    decreases |run|
  {
    run == [] || (Enabled(s, run[0]) && Executable(Step(s, run[0]), run[1..]))
  }

  function Run<V>(s: State<V>, run: seq<Action<V>>): State<V>
    requires Executable(s, run)
    decreases |run|
  {
    if run == [] then s else Run(Step(s, run[0]), run[1..])
  }

  // ----- the specification: a log of publications, updated atomically ---------------------

  /** A read of a freed object would show as `None`. */
  datatype Event<V> = Read(seen: Option<V>) | Publish(basis: Option<nat>, value: Option<V>)

  function Deref<V>(s: State<V>, ptr: Option<nat>): Option<V> {
    if ptr.Some? && ptr.value in s.heap then Some(s.heap[ptr.value]) else None
  }

  function EventOf<V>(s: State<V>, a: Action<V>): Option<Event<V>>
    requires Enabled(s, a)
  {
    match a
    case RealtimeAcquire => Some(Read(Deref(s, s.storagePtr)))
    case Copy(t, _) => Some(Read(Deref(s, Some(s.storage))))
    case CompareExchange(t, _) =>
      if Publishes(s, a) then Some(Publish(s.threads[t].basis, Deref(s, s.rtStorageCopy))) else None
    case _ => None
  }

  function Trace<V>(s: State<V>, run: seq<Action<V>>): seq<Event<V>>
    requires Executable(s, run)
    decreases |run|
  {
    if run == [] then []
    else
      var event := EventOf(s, run[0]);
      (if event.Some? then [event.value] else []) + Trace(Step(s, run[0]), run[1..])
  }

  /**
   Every read, real-time or not, sees the newest publication, and a publication that started
   from a copy started from the publication right before it: no update is lost.
   */
  ghost predicate Linearised<V>(log: seq<V>, trace: seq<Event<V>>)
    requires log != []
    decreases |trace|
  {
    trace == []
    || match trace[0]
       case Read(seen) => seen == Some(log[|log| - 1]) && Linearised(log, trace[1..])
       case Publish(basis, value) =>
         && (basis.Some? ==> basis.value == |log|)
         && value.Some?
         && Linearised(log + [value.value], trace[1..])
  }

  // ----- the invariant --------------------------------------------------------------------

  predicate OwnsCopy(pc: Pc) {
    pc.Section? || pc.Releasing? || pc.Exchanging? || pc.Published?
  }

  /** The object last published; in the window after the exchange it is still the copy. */
  function Current<V>(s: State<V>): Option<nat> {
    if s.owner.Some? && PcOf(s, s.owner.value).Published? then s.rtStorageCopy else Some(s.storage)
  }

  ghost predicate MutexHeld<V>(s: State<V>) {
    && (forall t | t in s.threads :: !s.threads[t].Idle? <==> s.owner == Some(t))
    && (s.owner.Some? ==> s.owner.value in s.threads)
  }

  ghost predicate Ownership<V>(s: State<V>) {
    && (s.rtStorageCopy.Some? <==> s.owner.Some? && OwnsCopy(PcOf(s, s.owner.value)))
    && s.rtStorageCopy != Some(s.storage)
    && s.heap.Keys == {s.storage} + Freed(s.rtStorageCopy)
    && (s.realtime.Outside? ==> s.storagePtr == Current(s))
    && (s.realtime.Holding? ==> s.storagePtr == None && Some(s.realtime.ptr) == Current(s))
  }

  ghost predicate Sections<V>(s: State<V>) {
    forall t | t in s.threads ::
      match s.threads[t]
      case Section(basis) => basis.Some? ==> basis.value == s.publications
      case Releasing(basis) => basis.Some? ==> basis.value == s.publications
      case Exchanging(basis, expected) =>
        (basis.Some? ==> basis.value == s.publications) && expected == s.storage
      case _ => true
  }

  ghost predicate Inv<V>(s: State<V>, log: seq<V>) {
    && MutexHeld(s) && Ownership(s) && Sections(s)
    && |log| == s.publications > 0
    && Deref(s, Current(s)) == Some(log[|log| - 1])
  }

  ghost function Extended<V>(log: seq<V>, event: Option<Event<V>>): seq<V> {
    if event.Some? && event.value.Publish? && event.value.value.Some?
    then log + [event.value.value.value] else log
  }

  ghost predicate Allowed<V>(log: seq<V>, event: Event<V>)
    requires log != []
  {
    match event
    case Read(seen) => seen == Some(log[|log| - 1])
    case Publish(basis, value) => (basis.Some? ==> basis.value == |log|) && value.Some?
  }

  lemma MutexKept<V>(s: State<V>, a: Action<V>)
    requires MutexHeld(s) && Enabled(s, a)
    ensures MutexHeld(Step(s, a))
  {
  }

  lemma SectionsKept<V>(s: State<V>, log: seq<V>, a: Action<V>)
    requires Inv(s, log) && Enabled(s, a)
    ensures Sections(Step(s, a))
  {
    var s' := Step(s, a);
    if Publishes(s, a) {
      forall t | t in s'.threads && t != a.thread ensures s'.threads[t].Idle? {
        assert t in s.threads && s.owner == Some(a.thread);
      }
    }
    if a.Move? {
      forall t | t in s'.threads && t != a.thread ensures s'.threads[t].Idle? {
        assert t in s.threads && s.owner == Some(a.thread);
      }
    }
  }

  lemma OwnershipKept<V>(s: State<V>, log: seq<V>, a: Action<V>)
    requires Inv(s, log) && Enabled(s, a)
    ensures Ownership(Step(s, a))
  {
    if a.Lock? || a.RealtimeAcquire? || a.RealtimeRelease? {
    } else {
      assert s.owner == Some(a.thread);
    }
  }

  lemma StepLinearises<V>(s: State<V>, log: seq<V>, a: Action<V>)
    requires Inv(s, log) && Enabled(s, a)
    ensures var event := EventOf(s, a);
            && Inv(Step(s, a), Extended(log, event))
            && (event.Some? ==> Allowed(log, event.value))
  {
    MutexKept(s, a);
    SectionsKept(s, log, a);
    OwnershipKept(s, log, a);
    if a.Lock? || a.RealtimeAcquire? || a.RealtimeRelease? {
    } else {
      assert s.owner == Some(a.thread);
    }
  }

  lemma {:induction false} RunLinearises<V>(s: State<V>, log: seq<V>, run: seq<Action<V>>)
    requires Inv(s, log) && Executable(s, run)
    ensures Linearised(log, Trace(s, run))
    decreases |run|
  {
    if run != [] {
      StepLinearises(s, log, run[0]);
      var event := EventOf(s, run[0]);
      var rest := Trace(Step(s, run[0]), run[1..]);
      RunLinearises(Step(s, run[0]), Extended(log, event), run[1..]);
      if event.Some? {
        assert ([event.value] + rest)[1..] == rest;
      } else {
        assert [] + rest == rest;
      }
    }
  }

  /** Every interleaving of the real-time thread with any number of other threads. */
  lemma RunsAreLinearised<V>(value: V, ptr: nat, threads: set<nat>, run: seq<Action<V>>)
    requires Executable(Initial(value, ptr, threads), run)
    ensures Linearised([value], Trace(Initial(value, ptr, threads), run))
  {
    RunLinearises(Initial(value, ptr, threads), [value], run);
  }

  lemma {:induction false} RunKeepsInv<V>(s: State<V>, log: seq<V>, run: seq<Action<V>>)
    returns (log': seq<V>)
    requires Inv(s, log) && Executable(s, run)
    ensures Inv(Run(s, run), log')
    decreases |run|
  {
    log' := log;
    if run != [] {
      StepLinearises(s, log, run[0]);
      log' := RunKeepsInv(Step(s, run[0]), Extended(log, EventOf(s, run[0])), run[1..]);
    }
  }

  /**
   In every reachable state, the window between the exchange and the move included, the object
   the real-time thread holds is allocated, is not the one being mutated, and no step of any
   thread frees or changes it. Nothing leaks: the only other object is the private copy.
   */
  lemma RealtimeObjectIsSafe<V>(value: V, ptr: nat, threads: set<nat>, run: seq<Action<V>>, a: Action<V>)
    requires Executable(Initial(value, ptr, threads), run)
    ensures var s := Run(Initial(value, ptr, threads), run);
            && s.heap.Keys == {s.storage} + Freed(s.rtStorageCopy)
            && (s.realtime.Holding? ==>
                  && s.realtime.ptr in s.heap
                  && (forall t | t in s.threads && s.threads[t].Section? ::
                        s.rtStorageCopy.Some? && s.rtStorageCopy.value != s.realtime.ptr)
                  && (Enabled(s, a) && a != RealtimeRelease ==>
                        && Step(s, a).realtime == s.realtime
                        && s.realtime.ptr in Step(s, a).heap
                        && Step(s, a).heap[s.realtime.ptr] == s.heap[s.realtime.ptr]))
  {
    var s := Run(Initial(value, ptr, threads), run);
    var log := RunKeepsInv(Initial(value, ptr, threads), [value], run);
    assert Inv(s, log);
    if s.realtime.Holding? && Enabled(s, a) && a != RealtimeRelease {
      StepLinearises(s, log, a);
      if !a.RealtimeAcquire? && !a.Lock? {
        assert s.owner == Some(a.thread);
      }
    }
  }

  // ----- what is published, from the actions alone ---------------------------------------------------

  /** The real-time thread has taken the object and not put it back. */
  predicate Held<V>(run: seq<Action<V>>) {
    run != []
    && match run[|run| - 1]
       case RealtimeAcquire => true
       case RealtimeRelease => false
       case _ => Held(run[..|run| - 1])
  }

  /**
   Everything published: the initial value, then what each section has made of it. An exchange
   publishes unless it fails for no reason or the real-time thread has the object.
   */
  function Log<V>(value: V, run: seq<Action<V>>): (log: seq<V>)
    ensures log != []
    decreases |run|, 1
  {
    if run == [] then [value]
    else
      var before := run[..|run| - 1];
      match run[|run| - 1]
      case CompareExchange(t, spurious) =>
        if spurious || Held(before) then Log(value, before) else Log(value, before) + [Draft(value, before, t)]
      case _ => Log(value, before)
  }

  /**
   What a thread has made since it entered: the argument of its replacement, else the value it
   assigned last, else the publication that it copied.
   */
  function Draft<V>(value: V, run: seq<Action<V>>, t: nat): V
    decreases |run|, 0
  {
    if run == [] then value
    else
      var before := run[..|run| - 1];
      match run[|run| - 1]
      case Lock(u) => if u == t then value else Draft(value, before, t)
      case Copy(u, _) => if u == t then Newest(value, before) else Draft(value, before, t)
      case Construct(u, _, made) => if u == t then made else Draft(value, before, t)
      case Mutate(u, given) => if u == t then given else Draft(value, before, t)
      case _ => Draft(value, before, t)
  }

  /** How many publications there had been when a thread made its copy, if it made one since it entered. */
  function CopiedAt<V>(value: V, run: seq<Action<V>>, t: nat): Option<nat> {
    if run == [] then None
    else
      var before := run[..|run| - 1];
      match run[|run| - 1]
      case Lock(u) => if u == t then None else CopiedAt(value, before, t)
      case Copy(u, _) => if u == t then Some(|Log(value, before)|) else CopiedAt(value, before, t)
      case Construct(u, _, _) => if u == t then None else CopiedAt(value, before, t)
      case _ => CopiedAt(value, before, t)
  }

  function Newest<V>(value: V, run: seq<Action<V>>): V
    decreases |run|, 2
  {
    var log := Log(value, run);
    log[|log| - 1]
  }

  function Emitted<V>(event: Option<Event<V>>): seq<Event<V>> {
    if event.Some? then [event.value] else []
  }

  lemma {:induction false} RunLast<V>(s: State<V>, run: seq<Action<V>>)
    requires run != [] && Executable(s, run)
    ensures var before, a := run[..|run| - 1], run[|run| - 1];
            && Executable(s, before) && Enabled(Run(s, before), a)
            && Run(s, run) == Step(Run(s, before), a)
            && Trace(s, run) == Trace(s, before) + Emitted(EventOf(Run(s, before), a))
    decreases |run|
  {
    var n := |run| - 1;
    if n == 0 {
      assert run[..0] == [] && run[1..] == [];
    } else {
      RunLast(Step(s, run[0]), run[1..]);
      assert run[1..][..n - 1] == run[..n][1..];
    }
  }

  /** The private copy holds what its section has made, and the object is away exactly while it is held. */
  ghost predicate Tracks<V>(s: State<V>, value: V, run: seq<Action<V>>) {
    && Inv(s, Log(value, run))
    && (s.realtime.Holding? <==> Held(run))
    && (s.rtStorageCopy.Some? ==> Deref(s, s.rtStorageCopy) == Some(Draft(value, run, s.owner.value)))
    && (s.owner.Some? ==> BasisIs(PcOf(s, s.owner.value), CopiedAt(value, run, s.owner.value)))
  }

  predicate BasisIs(pc: Pc, copied: Option<nat>) {
    match pc
    case Section(basis) => basis == copied
    case Releasing(basis) => basis == copied
    case Exchanging(basis, _) => basis == copied
    case Locked => copied == None
    case _ => true
  }

  lemma PublishesIff<V>(s: State<V>, log: seq<V>, t: nat, spurious: bool)
    requires Inv(s, log) && Enabled(s, CompareExchange(t, spurious))
    ensures Publishes(s, CompareExchange(t, spurious)) <==> !spurious && s.realtime.Outside?
  {
    assert s.owner == Some(t);
  }

  lemma OwnerActs<V>(s: State<V>, log: seq<V>, a: Action<V>)
    requires Inv(s, log) && Enabled(s, a) && !a.RealtimeAcquire? && !a.RealtimeRelease?
    ensures if a.Lock? then s.owner == None else s.owner == Some(a.thread)
  {
  }

  lemma TracksOn<V>(s: State<V>, value: V, run: seq<Action<V>>)
    requires run != [] && Tracks(s, value, run[..|run| - 1]) && Enabled(s, run[|run| - 1])
    ensures Tracks(Step(s, run[|run| - 1]), value, run)
  {
    var before, a := run[..|run| - 1], run[|run| - 1];
    var log := Log(value, before);
    StepLinearises(s, log, a);
    if !a.RealtimeAcquire? && !a.RealtimeRelease? {
      OwnerActs(s, log, a);
    }
    if a.CompareExchange? {
      PublishesIff(s, log, a.thread, a.spurious);
    }
  }

  lemma {:induction false} RunTracks<V>(value: V, ptr: nat, threads: set<nat>, run: seq<Action<V>>)
    requires Executable(Initial(value, ptr, threads), run)
    ensures Tracks(Run(Initial(value, ptr, threads), run), value, run)
    decreases |run|
  {
    if run != [] {
      var start, before := Initial(value, ptr, threads), run[..|run| - 1];
      RunLast(start, run);
      RunTracks(value, ptr, threads, before);
      TracksOn(Run(start, before), value, run);
    }
  }

  /**
   In every interleaving, whoever takes the object, and whoever copies it, gets what was published
   last: the initial value, or what the last section to publish had constructed or assigned.
   */
  lemma ReadsNewest<V>(value: V, ptr: nat, threads: set<nat>, run: seq<Action<V>>)
    requires Executable(Initial(value, ptr, threads), run)
    ensures var s := Run(Initial(value, ptr, threads), run);
            && (Enabled(s, RealtimeAcquire) ==>
                  var taken := Step(s, RealtimeAcquire);
                  taken.realtime.Holding? && Deref(taken, Some(taken.realtime.ptr)) == Some(Newest(value, run)))
            && (forall t: nat, p: nat | Enabled(s, Copy(t, p)) ::
                  Deref(Step(s, Copy(t, p)), Some(p)) == Some(Newest(value, run))
                  && Step(s, Copy(t, p)).rtStorageCopy == Some(p))
  {
    RunTracks(value, ptr, threads, run);
  }

  /** The history that the actions call for. */
  function Expected<V>(value: V, run: seq<Action<V>>): seq<Event<V>> {
    if run == [] then []
    else
      var before := run[..|run| - 1];
      Expected(value, before) +
      match run[|run| - 1]
      case RealtimeAcquire => [Read(Some(Newest(value, before)))]
      case Copy(_, _) => [Read(Some(Newest(value, before)))]
      case CompareExchange(t, spurious) =>
        if spurious || Held(before) then [] else [Publish(CopiedAt(value, before, t), Some(Draft(value, before, t)))]
      case _ => []
  }

  lemma EventIs<V>(s: State<V>, value: V, run: seq<Action<V>>)
    requires run != [] && Tracks(s, value, run[..|run| - 1]) && Enabled(s, run[|run| - 1])
    ensures Expected(value, run) == Expected(value, run[..|run| - 1]) + Emitted(EventOf(s, run[|run| - 1]))
  {
    var before, a := run[..|run| - 1], run[|run| - 1];
    if a.CompareExchange? {
      PublishesIff(s, Log(value, before), a.thread, a.spurious);
      OwnerActs(s, Log(value, before), a);
    }
  }

  /**
   The history of a run is the one that its actions call for, and a section that copied has copied
   what is still the newest publication when it publishes: no update is lost.
   */
  lemma {:induction false} TraceIsExpected<V>(value: V, ptr: nat, threads: set<nat>, run: seq<Action<V>>, t: nat)
    requires Executable(Initial(value, ptr, threads), run)
    ensures Trace(Initial(value, ptr, threads), run) == Expected(value, run)
    ensures PcOf(Run(Initial(value, ptr, threads), run), t).Exchanging? && CopiedAt(value, run, t).Some? ==>
              CopiedAt(value, run, t).value == |Log(value, run)|
    decreases |run|
  {
    var start := Initial(value, ptr, threads);
    RunTracks(value, ptr, threads, run);
    if run != [] {
      var before := run[..|run| - 1];
      RunLast(start, run);
      RunTracks(value, ptr, threads, before);
      TraceIsExpected(value, ptr, threads, before, t);
      EventIs(Run(start, before), value, run);
    }
  }

  // ----- who waits for whom --------------------------------------------------------------------------

  /**
   The real-time thread never waits: it can take the object whenever it does not have it, and put
   it back whenever it does. A section that has looked gets through exactly unless the real-time
   thread has the object, and tries again otherwise.
   */
  lemma OnlySectionsWait<V>(value: V, ptr: nat, threads: set<nat>, run: seq<Action<V>>, t: nat)
    requires Executable(Initial(value, ptr, threads), run)
    ensures var s := Run(Initial(value, ptr, threads), run);
            && (Enabled(s, RealtimeAcquire) <==> !Held(run)) && (Enabled(s, RealtimeRelease) <==> Held(run))
            && (Enabled(s, LoadStorage(t)) ==>
                  var looked := Step(s, LoadStorage(t));
                  && Enabled(looked, CompareExchange(t, false))
                  && var tried := Step(looked, CompareExchange(t, false));
                     if Held(run) then Enabled(tried, LoadStorage(t)) else Enabled(tried, Move(t)))
  {
    RunTracks(value, ptr, threads, run);
    var s, log := Run(Initial(value, ptr, threads), run), Log(value, run);
    if Enabled(s, LoadStorage(t)) {
      StepLinearises(s, log, LoadStorage(t));
      PublishesIff(Step(s, LoadStorage(t)), log, t, false);
      StepLinearises(Step(s, LoadStorage(t)), log, CompareExchange(t, false));
    }
  }

  /** A section entered while nobody is inside can be gone through to its end, with a copy or without. */
  lemma SectionsGoThrough<V>(value: V, ptr: nat, threads: set<nat>, run: seq<Action<V>>, t: nat, p: nat, made: V)
    requires Executable(Initial(value, ptr, threads), run)
    ensures var s := Run(Initial(value, ptr, threads), run);
            && (s.owner == None && t in s.threads ==> Enabled(s, Lock(t)))
            && (PcOf(s, t).Locked? && p !in s.heap ==> Enabled(s, Copy(t, p)) && Enabled(s, Construct(t, p, made)))
            && (PcOf(s, t).Section? ==> Enabled(s, Mutate(t, made)) && Enabled(s, Release(t)))
            && (Enabled(s, Release(t)) ==> Enabled(Step(s, Release(t)), LoadStorage(t)))
            && (Enabled(s, Construct(t, p, made)) ==> Enabled(Step(s, Construct(t, p, made)), LoadStorage(t)))
            && (Enabled(s, Move(t)) ==> Enabled(Step(s, Move(t)), Unlock(t)) && Step(Step(s, Move(t)), Unlock(t)).owner == None)
  {
    RunTracks(value, ptr, threads, run);
  }
}
