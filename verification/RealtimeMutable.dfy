/**
 The two-slot exchange written by one real-time thread and read by any number of
 non-real-time threads. One action is one access to `control`, one mutex operation, or one
 half of the (not atomic) assignment to a slot.
 */
module RealtimeMutable {
  import opened Wrappers

  const INDEX_BIT: bv8 := 1
  const BUSY_BIT: bv8 := 2
  const NEWDATA_BIT: bv8 := 4

  /** A slot is torn from the first to the last byte written by `data[idx] = ...`. */
  datatype Slot<V> = Torn | Full(value: V)

  datatype WriterPc<V> =
    | Outside
    | Claimed(idx: bv8, obj: V)
    | Storing(idx: bv8, obj: V)
    | Stored(idx: bv8, obj: V)

  datatype ReaderPc =
    | Idle
    | Locked
    | Flipping(expected: bv8)
    | Reading(slot: bv8)

  datatype State<V> = State(
    control: bv8,
    data: (Slot<V>, Slot<V>),
    realtimeCopy: V,
    owner: Option<nat>,
    writer: WriterPc<V>,
    readers: map<nat, ReaderPc>)

  datatype Action<V> =
    | Modify(value: V)                      // through the reference realtimeAcquire() returns
    | AcquireIndex(replacement: Option<V>)  // realtimeReplace(value), else realtimeRelease()
    | BeginStore
    | EndStore
    | ReleaseIndex
    | Lock(reader: nat)
    | LoadControl(reader: nat)
    | CompareExchange(reader: nat, spurious: bool)
    | Unlock(reader: nat)

  function At<V>(data: (Slot<V>, Slot<V>), idx: bv8): Slot<V> {
    if idx == 0 then data.0 else data.1
  }

  function Put<V>(data: (Slot<V>, Slot<V>), idx: bv8, slot: Slot<V>): (Slot<V>, Slot<V>) {
    if idx == 0 then (slot, data.1) else (data.0, slot)
  }

  predicate Enabled<V>(s: State<V>, a: Action<V>) {
    match a
    case Modify(_) => s.writer.Outside?
    case AcquireIndex(_) => s.writer.Outside?
    case BeginStore => s.writer.Claimed?
    case EndStore => s.writer.Storing?
    case ReleaseIndex => s.writer.Stored?
    case Lock(t) => t in s.readers && s.readers[t].Idle? && s.owner == None
    case LoadControl(t) => t in s.readers && s.readers[t].Locked?
    case CompareExchange(t, _) => t in s.readers && s.readers[t].Flipping?
    case Unlock(t) => t in s.readers && s.readers[t].Reading?
  }

  /** The non-real-time side always uses the slot the real-time thread is not using. */
  function Other(control: bv8): bv8 {
    (control & INDEX_BIT) ^ 1
  }

  function Flipped(expected: bv8): bv8 {
    (expected ^ INDEX_BIT) & INDEX_BIT
  }

  predicate Flips<V>(s: State<V>, a: Action<V>)
    requires Enabled(s, a)
  {
    a.CompareExchange? && !a.spurious && s.control == s.readers[a.reader].expected
  }

  function Step<V>(s: State<V>, a: Action<V>): State<V>
    requires Enabled(s, a)
  {
    match a
    case Modify(value) => s.(realtimeCopy := value)
    case AcquireIndex(replacement) =>
      var obj := if replacement.Some? then replacement.value else s.realtimeCopy;
      s.(control := s.control | BUSY_BIT, writer := Claimed(s.control & INDEX_BIT, obj))
    case BeginStore =>
      s.(data := Put(s.data, s.writer.idx, Torn), writer := Storing(s.writer.idx, s.writer.obj))
    case EndStore =>
      s.(data := Put(s.data, s.writer.idx, Full(s.writer.obj)),
         writer := Stored(s.writer.idx, s.writer.obj))
    case ReleaseIndex =>
      s.(control := (s.writer.idx & INDEX_BIT) | NEWDATA_BIT, writer := Outside)
    case Lock(t) => s.(owner := Some(t), readers := s.readers[t := Locked])
    case LoadControl(t) =>
      if s.control & NEWDATA_BIT != 0 then
        s.(readers := s.readers[t := Flipping(s.control & !BUSY_BIT)])
      else
        s.(readers := s.readers[t := Reading(Other(s.control))])
    case CompareExchange(t, _) =>
      if Flips(s, a) then
        var newValue := Flipped(s.control);
        s.(control := newValue, readers := s.readers[t := Reading(Other(newValue))])
      else
        s.(readers := s.readers[t := Flipping(s.control & !BUSY_BIT)])
    case Unlock(t) => s.(owner := None, readers := s.readers[t := Idle])
  }

  function Initial<V>(value: V, readers: set<nat>): State<V> {
    State(0, (Full(value), Full(value)), value, None, Outside, map t | t in readers :: Idle)
  }

  predicate Executable<V>(s: State<V>, run: seq<Action<V>>)
    decreases |run|
  {
    run == [] || (Enabled(s, run[0]) && Executable(Step(s, run[0]), run[1..]))
  }

  function Run<V>(s: State<V>, run: seq<Action<V>>): State<V>
    requires Executable(s, run)
    decreases |run|
  {
    if run == [] then s else Run(Step(s, run[0]), run[1..])
  }

  // ----- the specification: one atomic register ------------------------------------------

  /** A read event carries what the slot really holds, which might be a torn value. */
  datatype Event<V> = Write(value: V) | Read(slot: Slot<V>)

  /**
   Where the operations take effect: a publication at the release store, a read at the load
   when no new data is announced, and at the successful compare-exchange otherwise.
   */
  function EventOf<V>(s: State<V>, a: Action<V>): Option<Event<V>>
    requires Enabled(s, a)
  {
    match a
    case ReleaseIndex => Some(Write(s.writer.obj))
    case LoadControl(t) =>
      if s.control & NEWDATA_BIT != 0 then None else Some(Read(At(s.data, Other(s.control))))
    case CompareExchange(t, _) =>
      if Flips(s, a) then Some(Read(At(s.data, Other(Flipped(s.control))))) else None
    case _ => None
  }

  function Trace<V>(s: State<V>, run: seq<Action<V>>): seq<Event<V>>
    requires Executable(s, run)
    decreases |run|
  {
    if run == [] then []
    else
      var event := EventOf(s, run[0]);
      (if event.Some? then [event.value] else []) + Trace(Step(s, run[0]), run[1..])
  }

  /** A history of a register holding `value`: every read returns the latest write. */
  ghost predicate Atomic<V>(value: V, trace: seq<Event<V>>)
    decreases |trace|
  {
    trace == []
    || match trace[0]
       case Write(next) => Atomic(next, trace[1..])
       case Read(slot) => slot == Full(value) && Atomic(value, trace[1..])
  }

  // ----- the invariant -------------------------------------------------------------------

  ghost predicate MutexHeld<V>(s: State<V>) {
    forall t | t in s.readers :: !s.readers[t].Idle? <==> s.owner == Some(t)
  }

  ghost predicate WriterHasIndex<V>(s: State<V>) {
    && s.control <= INDEX_BIT | BUSY_BIT | NEWDATA_BIT
    && (s.control & BUSY_BIT != 0 <==> !s.writer.Outside?)
    && (!s.writer.Outside? ==> s.writer.idx == s.control & INDEX_BIT)
    && (s.writer.Stored? ==> At(s.data, s.writer.idx) == Full(s.writer.obj))
  }

  ghost predicate ReadersHaveOther<V>(s: State<V>) {
    forall t | t in s.readers ::
      match s.readers[t]
      case Flipping(expected) => expected & BUSY_BIT == 0 && s.control & NEWDATA_BIT != 0
                                 && (expected & NEWDATA_BIT != 0)
      case Reading(slot) => slot == Other(s.control)
      case _ => true
  }

  /** Where the register's value is: announced on the writer's side, else on the readers'. */
  ghost predicate Published<V>(s: State<V>, value: V) {
    && At(s.data, Other(s.control)).Full?
    && (s.control & NEWDATA_BIT == 0 ==> At(s.data, Other(s.control)) == Full(value))
    && (s.control & NEWDATA_BIT != 0 && s.writer.Outside? ==>
          At(s.data, s.control & INDEX_BIT) == Full(value))
  }

  ghost predicate Inv<V>(s: State<V>, value: V) {
    MutexHeld(s) && WriterHasIndex(s) && ReadersHaveOther(s) && Published(s, value)
  }

  function Next<V>(value: V, event: Option<Event<V>>): V {
    if event.Some? && event.value.Write? then event.value.value else value
  }

  lemma MutexKept<V>(s: State<V>, a: Action<V>)
    requires MutexHeld(s) && Enabled(s, a)
    ensures MutexHeld(Step(s, a))
  {
  }

  lemma ReadersKept<V>(s: State<V>, a: Action<V>, value: V)
    requires Inv(s, value) && Enabled(s, a)
    ensures ReadersHaveOther(Step(s, a))
  {
    var s' := Step(s, a);
    forall t | t in s'.readers
      ensures match s'.readers[t]
              case Flipping(expected) => expected & BUSY_BIT == 0 && s'.control & NEWDATA_BIT != 0
                                         && (expected & NEWDATA_BIT != 0)
              case Reading(slot) => slot == Other(s'.control)
              case _ => true
    {
      assert t in s.readers;
    }
  }

  lemma StepRefines<V>(s: State<V>, a: Action<V>, value: V)
    requires Inv(s, value) && Enabled(s, a)
    ensures var event := EventOf(s, a);
            && Inv(Step(s, a), Next(value, event))
            && (event.Some? && event.value.Read? ==> event.value.slot == Full(value))
  {
    MutexKept(s, a);
    ReadersKept(s, a, value);
  }

  lemma {:induction false} RunRefines<V>(s: State<V>, value: V, run: seq<Action<V>>)
    requires Inv(s, value) && Executable(s, run)
    ensures Atomic(value, Trace(s, run))
    decreases |run|
  {
    if run != [] {
      StepRefines(s, run[0], value);
      var event := EventOf(s, run[0]);
      var rest := Trace(Step(s, run[0]), run[1..]);
      RunRefines(Step(s, run[0]), Next(value, event), run[1..]);
      if event.Some? {
        assert ([event.value] + rest)[1..] == rest;
      } else {
        assert [] + rest == rest;
      }
    }
  }

  /** Every interleaving of one writer and any number of readers is an atomic register. */
  lemma RunsAreAtomic<V>(value: V, readers: set<nat>, run: seq<Action<V>>)
    requires Executable(Initial(value, readers), run)
    ensures Atomic(value, Trace(Initial(value, readers), run))
  {
    RunRefines(Initial(value, readers), value, run);
  }

  /** Every reachable state satisfies the invariant for some register value. */
  lemma {:induction false} RunKeepsInv<V>(s: State<V>, value: V, run: seq<Action<V>>) returns (last: V)
    requires Inv(s, value) && Executable(s, run)
    ensures Inv(Run(s, run), last)
    decreases |run|
  {
    last := value;
    if run != [] {
      StepRefines(s, run[0], value);
      last := RunKeepsInv(Step(s, run[0]), Next(value, EventOf(s, run[0])), run[1..]);
    }
  }

  /**
   In every reachable state a reader's slot is whole and is not the slot the writer has
   claimed, BUSY is set exactly while the writer is inside, on the INDEX side, and no step of
   any thread changes what a reader that keeps its reference sees.
   */
  lemma ReadersAreUndisturbed<V>(value: V, readers: set<nat>, run: seq<Action<V>>, t: nat, a: Action<V>)
    requires Executable(Initial(value, readers), run)
    requires t in readers
    ensures var s := Run(Initial(value, readers), run);
            && (s.control & BUSY_BIT != 0 <==> !s.writer.Outside?)
            && (!s.writer.Outside? ==> s.writer.idx == s.control & INDEX_BIT)
            && (t in s.readers && s.readers[t].Reading? ==>
                  && At(s.data, s.readers[t].slot).Full?
                  && (!s.writer.Outside? ==> s.writer.idx != s.readers[t].slot)
                  && (forall u | u in s.readers && s.readers[u].Reading? :: u == t)
                  && (Enabled(s, a) && a != Unlock(t) ==>
                        && t in Step(s, a).readers
                        && Step(s, a).readers[t] == s.readers[t]
                        && At(Step(s, a).data, s.readers[t].slot) == At(s.data, s.readers[t].slot)))
  {
    var last := RunKeepsInv(Initial(value, readers), value, run);
  }

  // ----- what is published, from the calls alone --------------------------------------------------

  /** What the real-time thread has written last through its reference. */
  function Edited<V>(value: V, run: seq<Action<V>>): V {
    if run == [] then value
    else
      match run[|run| - 1]
      case Modify(written) => written
      case _ => Edited(value, run[..|run| - 1])
  }

  /** The value of the last call begun: the argument of a replacement, else what was edited by then. */
  function Begun<V>(value: V, run: seq<Action<V>>): V {
    if run == [] then value
    else
      var before := run[..|run| - 1];
      match run[|run| - 1]
      case AcquireIndex(replacement) => if replacement.Some? then replacement.value else Edited(value, before)
      case _ => Begun(value, before)
  }

  /** The values of all calls completed, in order. */
  function Calls<V>(value: V, run: seq<Action<V>>): seq<V> {
    if run == [] then []
    else
      var before := run[..|run| - 1];
      Calls(value, before) + if run[|run| - 1].ReleaseIndex? then [Begun(value, before)] else []
  }

  /** The value of the last call completed; at first the one the object was made with. */
  function Completed<V>(value: V, run: seq<Action<V>>): V {
    var calls := Calls(value, run);
    if calls == [] then value else calls[|calls| - 1]
  }

  /** A call has begun and is not completed. */
  predicate Inside<V>(run: seq<Action<V>>) {
    run != []
    && match run[|run| - 1]
       case AcquireIndex(_) => true
       case ReleaseIndex => false
       case _ => Inside(run[..|run| - 1])
  }

  lemma {:induction false} RunLast<V>(s: State<V>, run: seq<Action<V>>)
    requires run != [] && Executable(s, run)
    ensures var before, a := run[..|run| - 1], run[|run| - 1];
            && Executable(s, before) && Enabled(Run(s, before), a)
            && Run(s, run) == Step(Run(s, before), a)
            && Trace(s, run) == Trace(s, before) + Emitted(EventOf(Run(s, before), a))
    decreases |run|
  {
    var n := |run| - 1;
    if n == 0 {
      assert run[..0] == [] && run[1..] == [];
    } else {
      RunLast(Step(s, run[0]), run[1..]);
      assert run[1..][..n - 1] == run[..n][1..];
    }
  }

  function Emitted<V>(event: Option<Event<V>>): seq<Event<V>> {
    if event.Some? then [event.value] else []
  }

  /** A call has been completed since a reader last turned to the other slot. */
  predicate Announced<V>(run: seq<Action<V>>) {
    run != []
    && var before := run[..|run| - 1];
       match run[|run| - 1]
       case ReleaseIndex => true
       case CompareExchange(_, spurious) => Announced(before) && (spurious || Inside(before))
       case _ => Announced(before)
  }

  /**
   The history that the actions call for. A reader reads when it finds nothing announced, or when
   its exchange meets no call under way.
   */
  function Expected<V>(value: V, run: seq<Action<V>>): seq<Event<V>> {
    if run == [] then []
    else
      var before := run[..|run| - 1];
      Expected(value, before) +
      match run[|run| - 1]
      case ReleaseIndex => [Write(Begun(value, before))]
      case LoadControl(_) => if Announced(before) then [] else [Read(Full(Completed(value, before)))]
      case CompareExchange(_, spurious) =>
        if spurious || Inside(before) then [] else [Read(Full(Completed(value, before)))]
      case _ => []
  }

  /** How the state of the real-time side follows from the calls. */
  ghost predicate Tracks<V>(s: State<V>, value: V, run: seq<Action<V>>) {
    && Inv(s, Completed(value, run))
    && s.realtimeCopy == Edited(value, run)
    && (s.writer.Outside? <==> !Inside(run))
    && (!s.writer.Outside? ==> s.writer.obj == Begun(value, run))
    && (s.writer.Storing? ==> At(s.data, s.writer.idx) == Torn)
    && (s.control & NEWDATA_BIT != 0 <==> Announced(run))
    && (forall t | t in s.readers && s.readers[t].Flipping? :: s.readers[t].expected == s.control & !BUSY_BIT)
  }

  lemma LookingStays<V>(s: State<V>, value: V, run: seq<Action<V>>, a: Action<V>)
    requires Tracks(s, value, run) && Enabled(s, a)
    ensures var s' := Step(s, a);
            forall t | t in s'.readers && s'.readers[t].Flipping? :: s'.readers[t].expected == s'.control & !BUSY_BIT
  {
    var s' := Step(s, a);
    forall t | t in s'.readers && s'.readers[t].Flipping? ensures s'.readers[t].expected == s'.control & !BUSY_BIT {
      assert t in s.readers;
    }
  }

  lemma BusyIsVisible(control: bv8)
    ensures control & !BUSY_BIT == control <==> control & BUSY_BIT == 0
  {
  }

  lemma FlipsIff<V>(s: State<V>, value: V, run: seq<Action<V>>, t: nat, spurious: bool)
    requires Tracks(s, value, run) && Enabled(s, CompareExchange(t, spurious))
    ensures Flips(s, CompareExchange(t, spurious)) <==> !spurious && !Inside(run)
  {
    BusyIsVisible(s.control);
  }

  lemma TracksOn<V>(s: State<V>, value: V, run: seq<Action<V>>)
    requires run != [] && Tracks(s, value, run[..|run| - 1]) && Enabled(s, run[|run| - 1])
    ensures Tracks(Step(s, run[|run| - 1]), value, run)
  {
    var before, a := run[..|run| - 1], run[|run| - 1];
    StepRefines(s, a, Completed(value, before));
    LookingStays(s, value, before, a);
    AnnouncementStays(s, value, before, a);
  }

  lemma AnnouncementStays<V>(s: State<V>, value: V, run: seq<Action<V>>, a: Action<V>)
    requires Tracks(s, value, run) && Enabled(s, a)
    ensures Step(s, a).control & NEWDATA_BIT != 0
            <==> a.ReleaseIndex? || (Announced(run) && !(a.CompareExchange? && !a.spurious && !Inside(run)))
  {
    if a.CompareExchange? {
      FlipsIff(s, value, run, a.reader, a.spurious);
    }
  }

  /** What a step adds to the history. */
  lemma EventIs<V>(s: State<V>, value: V, run: seq<Action<V>>)
    requires run != [] && Tracks(s, value, run[..|run| - 1]) && Enabled(s, run[|run| - 1])
    ensures Expected(value, run) == Expected(value, run[..|run| - 1]) + Emitted(EventOf(s, run[|run| - 1]))
  {
    var before, a := run[..|run| - 1], run[|run| - 1];
    StepRefines(s, a, Completed(value, before));
    if a.CompareExchange? {
      FlipsIff(s, value, before, a.reader, a.spurious);
    }
  }

  lemma {:induction false} RunTracks<V>(value: V, readers: set<nat>, run: seq<Action<V>>)
    requires Executable(Initial(value, readers), run)
    ensures Tracks(Run(Initial(value, readers), run), value, run)
    ensures Trace(Initial(value, readers), run) == Expected(value, run)
    decreases |run|
  {
    if run != [] {
      var start, before := Initial(value, readers), run[..|run| - 1];
      RunLast(start, run);
      RunTracks(value, readers, before);
      TracksOn(Run(start, before), value, run);
      EventIs(Run(start, before), value, run);
    }
  }

  /**
   The history is the one that the actions call for: what is published is what the calls say, in
   their order, and whoever begins to read at any moment of any interleaving gets the value of the
   last call completed by then, although the slot that is being stored into is torn. The reference
   of the real-time thread shows what was written through it last, whatever was published since.
   */
  lemma ReadsLastCompleted<V>(value: V, readers: set<nat>, run: seq<Action<V>>, a: Action<V>, t: nat)
    requires Executable(Initial(value, readers), run) && Enabled(Run(Initial(value, readers), run), a)
    ensures Trace(Initial(value, readers), run) == Expected(value, run)
    ensures var s := Run(Initial(value, readers), run);
            && s.realtimeCopy == Edited(value, run)
            && (s.writer.Storing? ==> At(s.data, s.writer.idx) == Torn)
    ensures var s := Run(Initial(value, readers), run);
            var s' := Step(s, a);
            t in s'.readers && s'.readers[t].Reading? && !s.readers[t].Reading? ==>
              At(s'.data, s'.readers[t].slot) == Full(Completed(value, run))
  {
    RunTracks(value, readers, run);
    var s := Run(Initial(value, readers), run);
    StepRefines(s, a, Completed(value, run));
  }

  // ----- who waits for whom --------------------------------------------------------------------------

  /** A reader that has just looked, and its next exchange unless that fails for no reason. */
  ghost predicate GoesThrough<V>(s: State<V>, t: nat) {
    Enabled(s, CompareExchange(t, false)) && Step(s, CompareExchange(t, false)).readers[t].Reading?
  }

  /**
   A reader that has looked at the control word, or whose exchange has failed, reads at once if
   nothing is announced, and otherwise gets through exactly unless a call is under way.
   */
  lemma LookGoesThroughIff<V>(value: V, readers: set<nat>, run: seq<Action<V>>, a: Action<V>, t: nat)
    requires Executable(Initial(value, readers), run) && Enabled(Run(Initial(value, readers), run), a)
    requires (a.LoadControl? || a.CompareExchange?) && a.reader == t
    ensures var s' := Step(Run(Initial(value, readers), run), a);
            s'.readers[t].Reading? || (GoesThrough(s', t) <==> !Inside(run))
  {
    RunTracks(value, readers, run);
    BusyIsVisible(Run(Initial(value, readers), run).control);
  }

  predicate IsWriters<V>(a: Action<V>) {
    a.Modify? || a.AcquireIndex? || a.BeginStore? || a.EndStore? || a.ReleaseIndex?
  }

  lemma RunFour<V>(s: State<V>, a: Action<V>, b: Action<V>, c: Action<V>, d: Action<V>)
    requires Enabled(s, a) && Enabled(Step(s, a), b) && Enabled(Step(Step(s, a), b), c)
    requires Enabled(Step(Step(Step(s, a), b), c), d)
    ensures Executable(s, [a, b, c, d])
  {
    assert [a, b, c, d][1..] == [b, c, d] && [b, c, d][1..] == [c, d] && [c, d][1..] == [d] && [d][1..] == [];
    var s3 := Step(Step(Step(s, a), b), c);
    assert Executable(s3, [d]);
    assert Executable(Step(Step(s, a), b), [c, d]);
    assert Executable(Step(s, a), [b, c, d]);
  }

  /** The real-time thread never waits: a call is four steps of its own, which no reader can hold up. */
  lemma WriterNeverWaits<V>(value: V, readers: set<nat>, run: seq<Action<V>>, replacement: Option<V>, a: Action<V>, b: Action<V>)
    requires Executable(Initial(value, readers), run)
    ensures var s := Run(Initial(value, readers), run);
            && (!Inside(run) ==> Executable(s, [AcquireIndex(replacement), BeginStore, EndStore, ReleaseIndex]))
            && (IsWriters(a) && !IsWriters(b) && Enabled(s, a) && Enabled(s, b) ==> Enabled(Step(s, b), a))
  {
    RunTracks(value, readers, run);
    var s := Run(Initial(value, readers), run);
    if !Inside(run) {
      RunFour(s, AcquireIndex(replacement), BeginStore, EndStore, ReleaseIndex);
    }
  }

  /**
   A reader alone gets through in three steps while no call is under way, and when it is done the
   next one can enter.
   */
  lemma ReaderGetsThrough<V>(value: V, readers: set<nat>, run: seq<Action<V>>, t: nat)
    requires Executable(Initial(value, readers), run) && t in Run(Initial(value, readers), run).readers
    ensures var s := Run(Initial(value, readers), run);
            && (s.readers[t].Reading? ==> Enabled(s, Unlock(t)) && Step(s, Unlock(t)).owner == None)
            && (s.owner == None ==> Enabled(s, Lock(t)) && Enabled(Step(s, Lock(t)), LoadControl(t)))
            && (s.owner == None && !Inside(run) ==>
                  var looked := Step(Step(s, Lock(t)), LoadControl(t));
                  looked.readers[t].Reading? || GoesThrough(looked, t))
  {
    RunTracks(value, readers, run);
    BusyIsVisible(Run(Initial(value, readers), run).control);
  }
}
