/**
 What the Emscripten worker keeps in every run, however completions, returns and commands interleave:
 a subscription owns at most one fetch, a subscription that has ended stays silent, and what its
 callback hears accounts for every index.
 */
module EmscriptenRuns {
  import opened Wrappers
  import opened Text
  import opened LongPollingBatch
  import opened Delivery
  import opened SubscriptionTopic
  import opened RestClientEmscripten
  import BatchGrammar
  import UriQuery
  import Native = RestClientNative

  // ----- closing a fetch --------------------------------------------------------------------------------

  ghost predicate Calm(w: Worker) {
    forall f | f in w.fetches :: !w.fetches[f].closing
  }

  function Closed(w: Worker, fetch: nat): Worker {
    w.(fetches := w.fetches - {fetch})
  }

  /** Closing a fetch removes it and does nothing else: the completion it provokes is ignored. */
  lemma CloseIs(w: Worker, fetch: nat, aborted: Completion)
    requires Calm(w)
    ensures CloseFetch(w, fetch, aborted) == Closed(w, fetch)
    ensures Calm(Closed(w, fetch))
  {
    if fetch in w.fetches {
      var marked := w.(fetches := w.fetches[fetch := w.fetches[fetch].(closing := true)]);
      assert Complete(marked, fetch, aborted) == marked;
      assert marked.fetches - {fetch} == w.fetches - {fetch};
    } else {
      assert w.fetches - {fetch} == w.fetches;
    }
  }

  // ----- one fetch per subscription -----------------------------------------------------------------------

  predicate Polls(w: Worker, fetch: nat, id: nat) {
    fetch in w.fetches && w.fetches[fetch].subscription == Some(id)
  }

  /** Every open fetch of a subscription is the one that a live subscription names as its own. */
  ghost predicate Owned(w: Worker) {
    forall fetch: nat, id: nat | Polls(w, fetch, id) :: id in w.subscriptions && w.subscriptions[id].activeFetch == Some(fetch)
  }

  ghost predicate Numbered(w: Worker) {
    && (forall f | f in w.fetches :: f < w.nextFetch)
    && (forall id | id in w.subscriptions :: id < w.nextSubscription)
  }

  /** A fetch can be aborted unless the call that started it is still open. */
  ghost predicate Abortable(w: Worker) {
    forall f | f in w.fetches :: w.fetches[f].handle || f in w.calls
  }

  /** A subscription that uses batches is the only one for its topic. */
  ghost predicate Exclusive(w: Worker) {
    forall a, b | a in w.subscriptions && b in w.subscriptions && a != b
                  && SameSubscription(w.subscriptions[a].target, w.subscriptions[b].target) ::
      !UsesBatch(w.subscriptions[a].target.topic)
  }

  ghost predicate Inv(w: Worker) {
    Calm(w) && Owned(w) && Numbered(w) && Abortable(w) && Exclusive(w)
  }

  lemma ClosedKeepsInv(w: Worker, fetch: nat)
    requires Inv(w)
    ensures Inv(Closed(w, fetch))
    ensures forall id: nat | Polls(w, fetch, id) :: forall f: nat :: !Polls(Closed(w, fetch), f, id)
  {
    var c := Closed(w, fetch);
    forall f: nat, id: nat | Polls(c, f, id) ensures Polls(w, f, id) && f != fetch {
    }
  }

  lemma PollKeepsInv(w: Worker, id: nat, position: Position)
    requires Inv(w)
    requires forall f: nat :: !Polls(w, f, id)
    ensures Inv(StartLongPoll(w, id, position))
  {
    var w' := StartLongPoll(w, id, position);
    if w' != w {
      forall f: nat, s: nat | Polls(w', f, s)
        ensures s in w'.subscriptions && w'.subscriptions[s].activeFetch == Some(f)
      {
        assert f == w.nextFetch || Polls(w, f, s);
      }
    }
  }

  /** The bookkeeping of a delivery leaves fetches, targets and ownership alone. */
  function Recorded(w: Worker, id: nat, messages: seq<Delivered>, last: u64): Worker
    requires id in w.subscriptions
  {
    var sub := w.subscriptions[id];
    w.(subscriptions := w.subscriptions[id := sub.(last := Some(last), delivered := sub.delivered + messages)])
  }

  lemma RecordedKeepsInv(w: Worker, id: nat, messages: seq<Delivered>, last: u64)
    requires Inv(w) && id in w.subscriptions
    ensures Inv(Recorded(w, id, messages, last))
    ensures forall f: nat, s: nat :: Polls(Recorded(w, id, messages, last), f, s) == Polls(w, f, s)
  {
    var w' := Recorded(w, id, messages, last);
    forall f: nat, s: nat | Polls(w', f, s)
      ensures s in w'.subscriptions && w'.subscriptions[s].activeFetch == Some(f)
    {
      assert Polls(w, f, s);
    }
  }

  lemma InvokeKeepsInv(w: Worker, news: seq<Call>)
    requires Inv(w)
    ensures Inv(Invoke(w, news))
    ensures forall f: nat, s: nat :: Polls(Invoke(w, news), f, s) == Polls(w, f, s)
  {
    var w' := Invoke(w, news);
    forall f: nat, s: nat | Polls(w', f, s)
      ensures s in w'.subscriptions && w'.subscriptions[s].activeFetch == Some(f)
    {
      assert Polls(w, f, s);
    }
  }

  /** Erasing a subscription and closing the fetch it names, as both ways of ending it do. */
  function Erased(w: Worker, id: nat): Worker
    requires id in w.subscriptions
  {
    var erased := w.(subscriptions := w.subscriptions - {id});
    var outstanding := w.subscriptions[id].activeFetch;
    if outstanding.Some? then Closed(erased, outstanding.value) else erased
  }

  lemma ErasedKeepsInv(w: Worker, id: nat)
    requires Inv(w) && id in w.subscriptions
    ensures Inv(Erased(w, id))
    ensures forall f: nat :: !Polls(Erased(w, id), f, id)
  {
    var w' := Erased(w, id);
    forall f: nat, s: nat | Polls(w', f, s)
      ensures s in w'.subscriptions && w'.subscriptions[s].activeFetch == Some(f) && s != id
    {
      assert Polls(w, f, s);
    }
  }

  lemma EndIs(w: Worker, id: nat, aborted: Completion)
    requires Calm(w)
    ensures EndSubscription(w, id, aborted)
            == if id in w.subscriptions then Invoke(Erased(w, id), [End(id)]) else w
  {
    if id in w.subscriptions && w.subscriptions[id].activeFetch.Some? {
      CloseIs(w.(subscriptions := w.subscriptions - {id}), w.subscriptions[id].activeFetch.value, aborted);
    }
  }

  lemma EndKeepsInv(w: Worker, id: nat, aborted: Completion)
    requires Inv(w)
    ensures Inv(EndSubscription(w, id, aborted))
  {
    EndIs(w, id, aborted);
    if id in w.subscriptions {
      ErasedKeepsInv(w, id);
      InvokeKeepsInv(Erased(w, id), [End(id)]);
    }
  }

  lemma AdvanceKeepsInv(w: Worker, fetch: nat, id: nat, messages: seq<Delivered>, last: u64, done: Completion)
    requires Inv(w) && id in w.subscriptions && Polls(w, fetch, id)
    ensures Inv(Advance(w, fetch, id, messages, last, done))
  {
    var recorded := Recorded(w, id, messages, last);
    RecordedKeepsInv(w, id, messages, last);
    CloseIs(recorded, fetch, done);
    ClosedKeepsInv(recorded, fetch);
    var told := Invoke(Closed(recorded, fetch), Report(id, messages));
    InvokeKeepsInv(Closed(recorded, fetch), Report(id, messages));
    PollKeepsInv(told, id, At(Successor(last)));
  }

  lemma RestartKeepsInv(w: Worker, fetch: nat, id: nat, news: seq<Call>, next: Position)
    requires Inv(w) && Polls(w, fetch, id)
    ensures Inv(StartLongPoll(Invoke(Closed(w, fetch), news), id, next))
    ensures Inv(StartLongPoll(Closed(w, fetch), id, next))
  {
    ClosedKeepsInv(w, fetch);
    InvokeKeepsInv(Closed(w, fetch), news);
    PollKeepsInv(Invoke(Closed(w, fetch), news), id, next);
    PollKeepsInv(Closed(w, fetch), id, next);
  }

  lemma PartsKeepInv(w: Worker, fetch: nat, id: nat, parts: seq<BatchPart>, done: Completion)
    requires Inv(w) && id in w.subscriptions && Polls(w, fetch, id) && parts != []
    ensures Inv(HandleParts(w, fetch, id, parts, done))
  {
    var last := w.subscriptions[id].last;
    if Readable(last, parts, Native.ReadableTopic) {
      BatchEqualsOneByOne(last, parts);
      var all := DeliverAll(last, parts);
      AdvanceKeepsInv(w, fetch, id, all.messages, all.last.value, done);
    } else {
      var index := parts[|parts| - 1].index;
      CloseIs(w, fetch, done);
      RestartKeepsInv(w, fetch, id, [Problem(id)], Following(if index < U64_LIMIT - 1 then Some(index + 1) else None));
    }
  }

  lemma BatchKeepsInv(w: Worker, fetch: nat, id: nat, done: Completion)
    requires Inv(w) && id in w.subscriptions && Polls(w, fetch, id)
    ensures Inv(HandleBatch(w, fetch, id, done))
  {
    var parts := Decode(done.body);
    if parts.Err? {
      CloseIs(w, fetch, done);
      RestartKeepsInv(w, fetch, id, [Problem(id)], Next);
    } else {
      BatchGrammar.AcceptedIsConsecutive(done.body);
      PartsKeepInv(w, fetch, id, parts.value, done);
    }
  }

  lemma SubscriptionKeepsInv(w: Worker, fetch: nat, id: nat, done: Completion)
    requires Inv(w) && Polls(w, fetch, id)
    ensures Inv(HandleSubscription(w, fetch, id, done))
  {
    CloseIs(w, fetch, done);
    ClosedKeepsInv(w, fetch);
    EndKeepsInv(w, id, done);
    if w.accepting && id in w.subscriptions {
      var sub := w.subscriptions[id];
      RestartKeepsInv(w, fetch, id, [], Following(done.index));
      BatchKeepsInv(w, fetch, id, done);
      if done.index.Some? {
        if IsDuplicate(sub.last, done.index.value) {
          RestartKeepsInv(w, fetch, id, [], At(Successor(sub.last.value)));
        }
        var sample := BatchPart(done.index.value, "", "", done.body);
        AdvanceKeepsInv(w, fetch, id, [Delivered(sample, Skipped(sub.last, done.index.value))], done.index.value, done);
      }
    }
  }

  lemma CompleteKeepsInv(w: Worker, fetch: nat, done: Completion)
    requires Inv(w)
    ensures Inv(Complete(w, fetch, done))
  {
    if fetch in w.fetches {
      if w.fetches[fetch].subscription.Some? {
        SubscriptionKeepsInv(w, fetch, w.fetches[fetch].subscription.value, done);
      } else {
        CloseIs(w, fetch, done);
        ClosedKeepsInv(w, fetch);
        InvokeKeepsInv(Closed(w, fetch), [Answer(fetch)]);
      }
    }
  }

  // ----- returns and commands ---------------------------------------------------------------------------

  const NO_HANDLE := Completion(500, true, None, "")

  /** The worker once `emscripten_fetch` has returned without a handle and its fetch is forgotten. */
  function Popped(w: Worker): Worker
    requires w.calls != []
  {
    Closed(w, w.calls[|w.calls| - 1]).(calls := w.calls[..|w.calls| - 1])
  }

  lemma PoppedKeepsInv(w: Worker)
    requires Inv(w) && w.calls != []
    ensures Inv(Popped(w))
  {
    var fetch := w.calls[|w.calls| - 1];
    ClosedKeepsInv(w, fetch);
    var w' := Popped(w);
    forall f: nat, s: nat | Polls(w', f, s)
      ensures s in w'.subscriptions && w'.subscriptions[s].activeFetch == Some(f)
    {
      assert Polls(w, f, s);
    }
    forall f | f in w'.fetches ensures w'.fetches[f].handle || f in w'.calls {
      assert w.fetches[f].handle || f in w.calls;
      if f in w.calls && f != fetch {
        var i :| 0 <= i < |w.calls| && w.calls[i] == f;
        assert w'.calls[i] == f;
      }
    }
  }

  lemma ReturnKeepsInv(w: Worker, handle: bool)
    requires Inv(w)
    ensures Inv(Return(w, handle))
  {
    if w.calls != [] {
      var fetch := w.calls[|w.calls| - 1];
      PoppedKeepsInv(w);
      if fetch !in w.fetches {
        assert w.fetches - {fetch} == w.fetches;
      } else if handle {
        var w' := Return(w, handle);
        forall f: nat, s: nat | Polls(w', f, s)
          ensures s in w'.subscriptions && w'.subscriptions[s].activeFetch == Some(f)
        {
          assert Polls(w, f, s);
        }
        forall f | f in w'.fetches ensures w'.fetches[f].handle || f in w'.calls {
          assert f != fetch ==> f in Popped(w).fetches;
        }
      } else if w.fetches[fetch].subscription.Some? {
        EndKeepsInv(Popped(w), w.fetches[fetch].subscription.value, NO_HANDLE);
      } else {
        InvokeKeepsInv(Popped(w), [Answer(fetch)]);
      }
    }
  }

  lemma AddedKeepsInv(w: Worker, target: Target, position: Position)
    requires Inv(w) && !Conflicts(w, target)
    ensures Inv(Added(w, target, position))
    ensures forall f: nat :: !Polls(Added(w, target, position), f, w.nextSubscription)
  {
    var added := Added(w, target, position);
    forall f: nat, s: nat | Polls(added, f, s)
      ensures s in w.subscriptions && added.subscriptions[s].activeFetch == Some(f)
    {
      assert Polls(w, f, s);
    }
  }

  /** A subscribe command is ignored, refused, or begins a subscription. */
  lemma SubscribeCases(w: Worker, e: Event) returns (target: Target, position: Position)
    requires e.Subscribes?
    ensures Step(w, e) == w || Step(w, e) == Invoke(w, [Refusal])
            || (w.accepting && Step(w, e) == Begin(w, target, position))
  {
    target, position := e.target, Next;
    if CanTake(e.target.topic, e.order) {
      var initial := TakeInitialIndex(e.target.topic, NextMode, e.order);
      if initial.Some? {
        target := e.target.(topic := initial.value.topic);
        position := Requested(initial.value.mode, initial.value.index);
      }
    }
  }

  lemma BeginKeepsInv(w: Worker, target: Target, position: Position)
    requires Inv(w)
    ensures Inv(Begin(w, target, position))
  {
    InvokeKeepsInv(w, [Refusal]);
    if !Conflicts(w, target) {
      AddedKeepsInv(w, target, position);
      PollKeepsInv(Added(w, target, position), w.nextSubscription, position);
    }
  }

  lemma SubscribeKeepsInv(w: Worker, e: Event)
    requires Inv(w) && e.Subscribes?
    ensures Inv(Step(w, e))
  {
    var target, position := SubscribeCases(w, e);
    InvokeKeepsInv(w, [Refusal]);
    BeginKeepsInv(w, target, position);
  }

  lemma UnsubscribeIs(w: Worker, id: Option<nat>)
    requires Calm(w)
    ensures StopSubscription(w, id)
            == if w.accepting && id.Some? && id.value in w.subscriptions then Erased(w, id.value) else w
  {
    if id.Some? && id.value in w.subscriptions && w.subscriptions[id.value].activeFetch.Some? {
      CloseIs(w.(subscriptions := w.subscriptions - {id.value}), w.subscriptions[id.value].activeFetch.value,
              Completion(0, true, None, ""));
    }
  }

  lemma RequestKeepsInv(w: Worker)
    requires Inv(w)
    ensures Inv(StartFetch(w, Fetch(None, Unasked, false, false)))
  {
    var w' := StartFetch(w, Fetch(None, Unasked, false, false));
    forall f: nat, s: nat | Polls(w', f, s)
      ensures s in w'.subscriptions && w'.subscriptions[s].activeFetch == Some(f)
    {
      assert Polls(w, f, s);
    }
  }

  lemma StepKeepsInv(w: Worker, e: Event)
    requires Inv(w)
    ensures Inv(Step(w, e))
  {
    match e
    case Subscribes(_, _) => SubscribeKeepsInv(w, e);
    case Unsubscribes(_, id) =>
      UnsubscribeIs(w, id);
      if id.Some? && id.value in w.subscriptions { ErasedKeepsInv(w, id.value); }
    case Requests => RequestKeepsInv(w);
    case Completes(fetch, done) => CompleteKeepsInv(w, fetch, done);
    case Returns(handle) => ReturnKeepsInv(w, handle);
    case Shuts =>
      var w' := Step(w, e);
      forall f: nat, s: nat | Polls(w', f, s)
        ensures s in w'.subscriptions && w'.subscriptions[s].activeFetch == Some(f)
      {
        assert Polls(w, f, s);
      }
    case CleansUp =>
  }

  /** In every run, each open fetch belongs to one live subscription, and each to at most one. */
  lemma {:induction false} RunKeepsInv(w: Worker, run: seq<Event>)
    requires Inv(w)
    ensures Inv(Run(w, run))
    decreases |run|
  {
    if run != [] {
      StepKeepsInv(w, run[0]);
      RunKeepsInv(Step(w, run[0]), run[1..]);
    }
  }

  /** Stopping a subscription between handlers aborts its request: its handle is always known. */
  lemma StopAborts(run: seq<Event>, target: Target, id: nat, fetch: nat)
    requires var w := Run(INITIAL, run);
             Enabled(w, Unsubscribes(target, Some(id))) && w.accepting && Polls(w, fetch, id)
    ensures var w := Run(INITIAL, run);
            && w.fetches[fetch].handle
            && fetch !in Step(w, Unsubscribes(target, Some(id))).fetches
  {
    RunKeepsInv(INITIAL, run);
    UnsubscribeIs(Run(INITIAL, run), Some(id));
  }

  // ----- what a callback hears --------------------------------------------------------------------------

  /** The samples passed to the callback of one subscription, in order. */
  function Heard(log: seq<Call>, id: nat): seq<Delivered> {
    if log == [] then []
    else
      var call := log[|log| - 1];
      Heard(log[..|log| - 1], id) + if call.Sample? && call.id == id then [call.message] else []
  }

  lemma HeardOne(log: seq<Call>, call: Call, id: nat)
    ensures Heard(log + [call], id)
            == if call.Sample? && call.id == id then Heard(log, id) + [call.message] else Heard(log, id)
  {
    assert (log + [call])[..|log|] == log;
  }

  lemma ReportSplits(log: seq<Call>, id: nat, messages: seq<Delivered>)
    requires messages != []
    ensures var n := |messages| - 1;
            log + Report(id, messages) == log + Report(id, messages[..n]) + [Sample(id, messages[n])]
  {
  }

  lemma {:induction false} HeardReport(log: seq<Call>, id: nat, messages: seq<Delivered>, other: nat)
    ensures Heard(log + Report(id, messages), other)
            == if other == id then Heard(log, other) + messages else Heard(log, other)
    decreases |messages|
  {
    if messages == [] {
      assert log + Report(id, messages) == log;
    } else {
      var n := |messages| - 1;
      ReportSplits(log, id, messages);
      HeardReport(log, id, messages[..n], other);
      HeardOne(log + Report(id, messages[..n]), Sample(id, messages[n]), other);
      Rejoined(Heard(log, other), messages);
    }
  }

  lemma Rejoined<T>(front: seq<T>, messages: seq<T>)
    requires messages != []
    ensures var n := |messages| - 1;
            front + messages[..n] + [messages[n]] == front + messages
  {
  }

  /** The last index accounted for: that of the last message heard, or where counting began. */
  function LastHeard(start: Option<u64>, heard: seq<Delivered>): Option<u64> {
    Before(start, heard, |heard|)
  }

  /** What was heard accounts for every index since the subscription began to count. */
  ghost predicate HeardInOrder(w: Worker, id: nat)
    requires id in w.starts
  {
    Accounted(w.starts[id], Heard(w.log, id), LastHeard(w.starts[id], Heard(w.log, id)))
  }

  ghost predicate Book(w: Worker, id: nat) {
    if id in w.starts then
      && id < w.nextSubscription
      && HeardInOrder(w, id)
      && (id in w.subscriptions ==>
            && w.subscriptions[id].delivered == Heard(w.log, id)
            && w.subscriptions[id].last == LastHeard(w.starts[id], Heard(w.log, id)))
    else id !in w.subscriptions && Heard(w.log, id) == []
  }

  ghost predicate Books(w: Worker) {
    forall id: nat :: Book(w, id)
  }

  /** Only fetches, calls and the fetch ids of subscriptions may differ. */
  ghost predicate SameBooks(w: Worker, w': Worker) {
    && w'.log == w.log && w'.nextSubscription == w.nextSubscription && w'.starts == w.starts
    && w'.subscriptions.Keys == w.subscriptions.Keys
    && forall id | id in w.subscriptions ::
         w'.subscriptions[id] == w.subscriptions[id].(activeFetch := w'.subscriptions[id].activeFetch)
  }

  lemma SameBooksKept(w: Worker, w': Worker)
    requires Books(w) && SameBooks(w, w')
    ensures Books(w')
  {
    forall id: nat ensures Book(w', id) {
      assert Book(w, id);
    }
  }

  lemma InvokeKeepsBooks(w: Worker, call: Call)
    requires Books(w) && !call.Sample?
    ensures Books(Invoke(w, [call]))
  {
    forall id: nat ensures Book(Invoke(w, [call]), id) {
      HeardOne(w.log, call, id);
      assert Book(w, id);
    }
  }

  lemma RestartKeepsBooks(w: Worker, fetch: nat, id: nat, call: Call, next: Position)
    requires Books(w) && !call.Sample?
    ensures Books(Closed(w, fetch))
    ensures Books(StartLongPoll(Invoke(Closed(w, fetch), [call]), id, next))
    ensures Books(StartLongPoll(Closed(w, fetch), id, next))
  {
    SameBooksKept(w, Closed(w, fetch));
    InvokeKeepsBooks(Closed(w, fetch), call);
    var told := Invoke(Closed(w, fetch), [call]);
    SameBooksKept(told, StartLongPoll(told, id, next));
    SameBooksKept(Closed(w, fetch), StartLongPoll(Closed(w, fetch), id, next));
  }

  lemma ErasedKeepsBooks(w: Worker, id: nat)
    requires Books(w) && id in w.subscriptions
    ensures Books(Erased(w, id))
  {
    forall other: nat ensures Book(Erased(w, id), other) {
      assert Book(w, other);
    }
  }

  lemma EndKeepsBooks(w: Worker, id: nat, aborted: Completion)
    requires Calm(w) && Books(w)
    ensures Books(EndSubscription(w, id, aborted))
  {
    EndIs(w, id, aborted);
    if id in w.subscriptions {
      ErasedKeepsBooks(w, id);
      InvokeKeepsBooks(Erased(w, id), End(id));
    }
  }

  /** The messages keep the account of a subscription that has delivered up to its last index. */
  ghost predicate Continues(w: Worker, id: nat, messages: seq<Delivered>, last: u64) {
    && id in w.subscriptions && id in w.starts
    && Accounted(w.starts[id], w.subscriptions[id].delivered + messages, Some(last))
  }

  lemma ReportKeepsBooks(w: Worker, id: nat, messages: seq<Delivered>, last: u64)
    requires Books(w) && w.accepting && Continues(w, id, messages, last)
    ensures Books(Invoke(Recorded(w, id, messages, last), Report(id, messages)))
  {
    var w' := Invoke(Recorded(w, id, messages, last), Report(id, messages));
    forall other: nat ensures Book(w', other) {
      HeardReport(w.log, id, messages, other);
      assert Book(w, other);
      assert other == id ==> w'.subscriptions[id].delivered == w.subscriptions[id].delivered + messages;
    }
  }

  lemma AdvanceKeepsBooks(w: Worker, fetch: nat, id: nat, messages: seq<Delivered>, last: u64, done: Completion)
    requires Calm(w) && Books(w) && w.accepting && Continues(w, id, messages, last)
    ensures Books(Advance(w, fetch, id, messages, last, done))
  {
    var recorded := Recorded(w, id, messages, last);
    CloseIs(recorded, fetch, done);
    ReportKeepsBooks(w, id, messages, last);
    SameBooksKept(Invoke(recorded, Report(id, messages)), Invoke(Closed(recorded, fetch), Report(id, messages)));
    SameBooksKept(Invoke(Closed(recorded, fetch), Report(id, messages)), Advance(w, fetch, id, messages, last, done));
  }

  lemma PartsKeepBooks(w: Worker, fetch: nat, id: nat, parts: seq<BatchPart>, done: Completion)
    requires Calm(w) && Books(w) && w.accepting && id in w.subscriptions && parts != []
    ensures Books(HandleParts(w, fetch, id, parts, done))
  {
    var sub := w.subscriptions[id];
    if Readable(sub.last, parts, Native.ReadableTopic) {
      BatchEqualsOneByOne(sub.last, parts);
      assert Book(w, id);
      DeliverAllAccounts(w.starts[id], sub.delivered, sub.last, parts);
      var all := DeliverAll(sub.last, parts);
      AdvanceKeepsBooks(w, fetch, id, all.messages, all.last.value, done);
    } else {
      var index := parts[|parts| - 1].index;
      CloseIs(w, fetch, done);
      RestartKeepsBooks(w, fetch, id, Problem(id), Following(if index < U64_LIMIT - 1 then Some(index + 1) else None));
    }
  }

  lemma BatchKeepsBooks(w: Worker, fetch: nat, id: nat, done: Completion)
    requires Calm(w) && Books(w) && w.accepting && id in w.subscriptions
    ensures Books(HandleBatch(w, fetch, id, done))
  {
    var parts := Decode(done.body);
    if parts.Err? {
      CloseIs(w, fetch, done);
      RestartKeepsBooks(w, fetch, id, Problem(id), Next);
    } else {
      BatchGrammar.AcceptedIsConsecutive(done.body);
      PartsKeepBooks(w, fetch, id, parts.value, done);
    }
  }

  lemma SampleKeepsBooks(w: Worker, fetch: nat, id: nat, index: u64, done: Completion)
    requires Calm(w) && Books(w) && w.accepting && id in w.subscriptions
    requires !IsDuplicate(w.subscriptions[id].last, index)
    ensures var sample := BatchPart(index, "", "", done.body);
            Books(Advance(w, fetch, id, [Delivered(sample, Skipped(w.subscriptions[id].last, index))], index, done))
  {
    var sub, sample := w.subscriptions[id], BatchPart(index, "", "", done.body);
    assert Book(w, id);
    DeliverOneAccounts(w.starts[id], sub.delivered, sub.last, sample);
    AdvanceKeepsBooks(w, fetch, id, [Delivered(sample, Skipped(sub.last, index))], index, done);
  }

  lemma SubscriptionKeepsBooks(w: Worker, fetch: nat, id: nat, done: Completion)
    requires Calm(w) && Books(w)
    ensures Books(HandleSubscription(w, fetch, id, done))
  {
    CloseIs(w, fetch, done);
    RestartKeepsBooks(w, fetch, id, Refusal, Following(done.index));
    EndKeepsBooks(w, id, done);
    if w.accepting && id in w.subscriptions {
      var last := w.subscriptions[id].last;
      BatchKeepsBooks(w, fetch, id, done);
      if done.index.Some? {
        if IsDuplicate(last, done.index.value) {
          RestartKeepsBooks(w, fetch, id, Refusal, At(Successor(last.value)));
        } else {
          SampleKeepsBooks(w, fetch, id, done.index.value, done);
        }
      }
    }
  }

  lemma CompleteKeepsBooks(w: Worker, fetch: nat, done: Completion)
    requires Calm(w) && Books(w)
    ensures Books(Complete(w, fetch, done))
  {
    if fetch in w.fetches {
      if w.fetches[fetch].subscription.Some? {
        SubscriptionKeepsBooks(w, fetch, w.fetches[fetch].subscription.value, done);
      } else {
        CloseIs(w, fetch, done);
        SameBooksKept(w, Closed(w, fetch));
        InvokeKeepsBooks(Closed(w, fetch), Answer(fetch));
      }
    }
  }

  lemma ReturnKeepsBooks(w: Worker, handle: bool)
    requires Inv(w) && Books(w)
    ensures Books(Return(w, handle))
  {
    if w.calls != [] {
      var fetch := w.calls[|w.calls| - 1];
      PoppedKeepsInv(w);
      SameBooksKept(w, Popped(w));
      if fetch in w.fetches && !handle {
        if w.fetches[fetch].subscription.Some? {
          EndKeepsBooks(Popped(w), w.fetches[fetch].subscription.value, NO_HANDLE);
        } else {
          InvokeKeepsBooks(Popped(w), Answer(fetch));
        }
      } else {
        SameBooksKept(w, Return(w, handle));
      }
    }
  }

  lemma AddedKeepsBooks(w: Worker, target: Target, position: Position)
    requires Books(w)
    ensures Books(Added(w, target, position))
  {
    assert Book(w, w.nextSubscription);
    forall id: nat ensures Book(Added(w, target, position), id) {
      assert Book(w, id);
    }
  }

  lemma BeginKeepsBooks(w: Worker, target: Target, position: Position)
    requires Books(w)
    ensures Books(Begin(w, target, position))
  {
    InvokeKeepsBooks(w, Refusal);
    AddedKeepsBooks(w, target, position);
    SameBooksKept(Added(w, target, position), StartLongPoll(Added(w, target, position), w.nextSubscription, position));
  }

  lemma SubscribeKeepsBooks(w: Worker, e: Event)
    requires Books(w) && e.Subscribes?
    ensures Books(Step(w, e))
  {
    var target, position := SubscribeCases(w, e);
    InvokeKeepsBooks(w, Refusal);
    BeginKeepsBooks(w, target, position);
  }

  lemma CleanUpKeepsBooks(w: Worker)
    requires Books(w)
    ensures Books(Step(w, CleansUp))
  {
    forall id: nat ensures Book(Step(w, CleansUp), id) {
      assert Book(w, id);
    }
  }

  lemma StepKeepsBooks(w: Worker, e: Event)
    requires Inv(w) && Books(w)
    ensures Books(Step(w, e))
  {
    match e
    case Subscribes(_, _) => SubscribeKeepsBooks(w, e);
    case Unsubscribes(_, id) =>
      UnsubscribeIs(w, id);
      if id.Some? && id.value in w.subscriptions { ErasedKeepsBooks(w, id.value); }
    case Requests => SameBooksKept(w, Step(w, e));
    case Completes(fetch, done) => CompleteKeepsBooks(w, fetch, done);
    case Returns(handle) => ReturnKeepsBooks(w, handle);
    case Shuts => SameBooksKept(w, Step(w, e));
    case CleansUp => CleanUpKeepsBooks(w);
  }

  lemma {:induction false} RunKeepsBooks(w: Worker, run: seq<Event>)
    requires Inv(w) && Books(w)
    ensures Books(Run(w, run))
    decreases |run|
  {
    if run != [] {
      StepKeepsInv(w, run[0]);
      StepKeepsBooks(w, run[0]);
      RunKeepsBooks(Step(w, run[0]), run[1..]);
    }
  }

  lemma InitialBooks()
    ensures Books(INITIAL)
  {
    forall id: nat ensures Book(INITIAL, id) {
      assert Heard([], id) == [];
    }
  }

  /**
   Whatever happens, for every subscription that was ever started: its callback hears strictly
   increasing indices, each message reports exactly the indices missed since the one before it or
   since the recorded start, and messages and reported skips add up to the last index minus the one
   the subscription began to count from.
   */
  lemma EveryRunIsAccounted(run: seq<Event>, id: nat)
    requires id in Run(INITIAL, run).starts
    ensures var w := Run(INITIAL, run);
            var start, heard := w.starts[id], Heard(w.log, id);
            var last := LastHeard(start, heard);
            && Accounted(start, heard, last)
            && (last.Some? ==> Total(heard) == last.value - Base(start, heard))
            && (id in w.subscriptions ==> w.subscriptions[id].last == last)
  {
    InitialBooks();
    RunKeepsBooks(INITIAL, run);
    var w := Run(INITIAL, run);
    assert Book(w, id);
    var last := LastHeard(w.starts[id], Heard(w.log, id));
    if last.Some? {
      AccountedTotal(w.starts[id], Heard(w.log, id), last);
    }
  }

  // ----- silence ------------------------------------------------------------------------------------------

  predicate Concerns(call: Call, id: nat) {
    (call.Sample? || call.Problem? || call.End?) && call.id == id
  }

  /** A step only calls back live subscriptions, and a final call is the last one it makes. */
  ghost predicate Change(w: Worker, w': Worker) {
    && w.nextSubscription <= w'.nextSubscription
    && (forall id | id in w'.subscriptions :: id in w.subscriptions || w.nextSubscription <= id)
    && (forall id | id in w.starts && id < w.nextSubscription :: id in w'.starts && w'.starts[id] == w.starts[id])
    && w.log <= w'.log
    && (forall i, id: nat | |w.log| <= i < |w'.log| && Concerns(w'.log[i], id) :: id in w.subscriptions)
    && (forall i | |w.log| <= i < |w'.log| && w'.log[i].End? ::
          i == |w'.log| - 1 && w'.log[i].id !in w'.subscriptions)
  }

  lemma AdvanceChanges(w: Worker, fetch: nat, id: nat, messages: seq<Delivered>, last: u64, done: Completion)
    requires Calm(w) && id in w.subscriptions
    ensures Change(w, Advance(w, fetch, id, messages, last, done))
  {
    CloseIs(Recorded(w, id, messages, last), fetch, done);
  }

  lemma BatchChanges(w: Worker, fetch: nat, id: nat, done: Completion)
    requires Calm(w) && id in w.subscriptions
    ensures Change(w, HandleBatch(w, fetch, id, done))
  {
    CloseIs(w, fetch, done);
    var parts := Decode(done.body);
    if parts.Ok? {
      BatchGrammar.AcceptedIsConsecutive(done.body);
      PartsChange(w, fetch, id, parts.value, done);
    }
  }

  lemma PartsChange(w: Worker, fetch: nat, id: nat, parts: seq<BatchPart>, done: Completion)
    requires Calm(w) && id in w.subscriptions && parts != []
    ensures Change(w, HandleParts(w, fetch, id, parts, done))
  {
    var last := w.subscriptions[id].last;
    CloseIs(w, fetch, done);
    if Readable(last, parts, Native.ReadableTopic) {
      BatchEqualsOneByOne(last, parts);
      var all := DeliverAll(last, parts);
      AdvanceChanges(w, fetch, id, all.messages, all.last.value, done);
    }
  }

  lemma EndChanges(w: Worker, id: nat, done: Completion)
    requires Calm(w)
    ensures Change(w, EndSubscription(w, id, done))
  {
    EndIs(w, id, done);
  }

  lemma SubscriptionChanges(w: Worker, fetch: nat, id: nat, done: Completion)
    requires Calm(w)
    ensures Change(w, HandleSubscription(w, fetch, id, done))
  {
    CloseIs(w, fetch, done);
    EndChanges(w, id, done);
    if w.accepting && id in w.subscriptions {
      BatchChanges(w, fetch, id, done);
      if done.index.Some? {
        var sample := BatchPart(done.index.value, "", "", done.body);
        var skipped := Skipped(w.subscriptions[id].last, done.index.value);
        AdvanceChanges(w, fetch, id, [Delivered(sample, skipped)], done.index.value, done);
      }
    }
  }

  lemma ReturnChanges(w: Worker, handle: bool)
    requires Inv(w)
    ensures Change(w, Return(w, handle))
  {
    if w.calls != [] {
      var fetch := w.calls[|w.calls| - 1];
      PoppedKeepsInv(w);
      if fetch in w.fetches && w.fetches[fetch].subscription.Some? {
        EndChanges(Popped(w), w.fetches[fetch].subscription.value, NO_HANDLE);
      }
    }
  }

  lemma CompleteChanges(w: Worker, fetch: nat, done: Completion)
    requires Calm(w)
    ensures Change(w, Complete(w, fetch, done))
  {
    CloseIs(w, fetch, done);
    if fetch in w.fetches && w.fetches[fetch].subscription.Some? {
      SubscriptionChanges(w, fetch, w.fetches[fetch].subscription.value, done);
    }
  }

  lemma RefusalChanges(w: Worker)
    ensures Change(w, Invoke(w, [Refusal]))
  {
  }

  lemma AddedChanges(w: Worker, target: Target, position: Position)
    ensures Change(w, StartLongPoll(Added(w, target, position), w.nextSubscription, position))
  {
  }

  lemma BeginChanges(w: Worker, target: Target, position: Position)
    ensures Change(w, Begin(w, target, position))
  {
    RefusalChanges(w);
    AddedChanges(w, target, position);
  }

  lemma SubscribeChanges(w: Worker, e: Event)
    requires e.Subscribes?
    ensures Change(w, Step(w, e))
  {
    var target, position := SubscribeCases(w, e);
    BeginChanges(w, target, position);
  }

  lemma StepChanges(w: Worker, e: Event)
    requires Inv(w)
    ensures Change(w, Step(w, e))
  {
    match e
    case Subscribes(_, _) => SubscribeChanges(w, e);
    case Unsubscribes(_, found) => UnsubscribeIs(w, found);
    case Completes(fetch, done) => CompleteChanges(w, fetch, done);
    case Returns(handle) => ReturnChanges(w, handle);
    case _ =>
  }

  /** Where a subscription began to count is never forgotten or changed. */
  lemma {:induction false} RunKeepsStart(w: Worker, run: seq<Event>, id: nat)
    requires Inv(w) && id in w.starts && id < w.nextSubscription
    ensures id in Run(w, run).starts && Run(w, run).starts[id] == w.starts[id]
    decreases |run|
  {
    if run != [] {
      StepChanges(w, run[0]);
      StepKeepsInv(w, run[0]);
      RunKeepsStart(Step(w, run[0]), run[1..], id);
    }
  }

  /** A subscription to a topic with a number as its index. */
  predicate AsksFor(e: Event, index: u64) {
    && e.Subscribes? && CanTake(e.target.topic, e.order)
    && var initial := TakeInitialIndex(e.target.topic, NextMode, e.order);
       initial.Some? && initial.value.index == Some(index)
  }

  lemma StartIsRecorded(w: Worker, e: Event, index: u64)
    requires Books(w) && AsksFor(e, index) && w.nextSubscription in Step(w, e).starts
    ensures Step(w, e).starts[w.nextSubscription] == if index > 0 then Some(index - 1) else None
    ensures Step(w, e).nextSubscription == w.nextSubscription + 1
  {
    assert Book(w, w.nextSubscription);
  }

  lemma FirstFollows(w: Worker, id: nat)
    requires Books(w) && id in w.starts && Heard(w.log, id) != []
    ensures Delivery.Follows(w.starts[id], Heard(w.log, id)[0])
  {
    assert Book(w, id);
    var start, heard := w.starts[id], Heard(w.log, id);
    assert Before(start, heard, 0) == start;
  }

  /**
   In every run, the first message of a subscription that asked for an index reports exactly what
   was missed from that index on, unless the index is 0: then nothing is reported.
   */
  lemma FirstGapIsReportedIff(before: seq<Event>, e: Event, index: u64, later: seq<Event>)
    requires AsksFor(e, index)
    requires var w := Run(INITIAL, before);
             var w' := Run(Step(w, e), later);
             w.nextSubscription in Step(w, e).starts && Heard(w'.log, w.nextSubscription) != []
    ensures var w := Run(INITIAL, before);
            var first := Heard(Run(Step(w, e), later).log, w.nextSubscription)[0];
            && (first.skipped == first.sample.index - index <==> index > 0 || first.sample.index == 0)
            && (index == 0 ==> first.skipped == 0)
  {
    InitialBooks();
    RunKeepsInv(INITIAL, before);
    RunKeepsBooks(INITIAL, before);
    var w := Run(INITIAL, before);
    var id := w.nextSubscription;
    var begun := Step(w, e);
    StepKeepsInv(w, e);
    StepKeepsBooks(w, e);
    StartIsRecorded(w, e, index);
    RunKeepsBooks(begun, later);
    RunKeepsStart(begun, later, id);
    FirstFollows(Run(begun, later), id);
  }

  ghost predicate Ended(w: Worker, id: nat) {
    id < w.nextSubscription && id !in w.subscriptions
  }

  /** Nothing more is called about a subscription from here on. */
  ghost predicate Silent(w: Worker, w': Worker, id: nat) {
    && Ended(w', id)
    && w.log <= w'.log
    && forall i | |w.log| <= i < |w'.log| :: !Concerns(w'.log[i], id)
  }

  /** Once a subscription has been stopped or has ended, its callback is never called again. */
  lemma {:induction false} RunIsSilent(w: Worker, run: seq<Event>, id: nat)
    requires Inv(w) && Ended(w, id)
    ensures Silent(w, Run(w, run), id)
    decreases |run|
  {
    if run != [] {
      var next := Step(w, run[0]);
      StepChanges(w, run[0]);
      StepKeepsInv(w, run[0]);
      RunIsSilent(next, run[1..], id);
    }
  }

  /** Stopping a subscription calls nothing, and nothing is called about it afterwards. */
  lemma StopSilences(before: seq<Event>, target: Target, id: nat, after: seq<Event>)
    requires var w := Run(INITIAL, before); w.accepting && Enabled(w, Unsubscribes(target, Some(id)))
    ensures var w := Run(INITIAL, before);
            var stopped := Step(w, Unsubscribes(target, Some(id)));
            stopped.log == w.log && Silent(stopped, Run(stopped, after), id)
  {
    var w := Run(INITIAL, before);
    RunKeepsInv(INITIAL, before);
    UnsubscribeIs(w, Some(id));
    StepKeepsInv(w, Unsubscribes(target, Some(id)));
    RunIsSilent(Step(w, Unsubscribes(target, Some(id))), after, id);
  }

  ghost predicate Final(w: Worker) {
    && (forall i | 0 <= i < |w.log| && w.log[i].End? :: Ended(w, w.log[i].id))
    && (forall i, j | 0 <= i < j < |w.log| && w.log[i].End? :: !Concerns(w.log[j], w.log[i].id))
  }

  lemma ChangeKeepsFinal(w: Worker, w': Worker)
    requires Final(w) && Numbered(w) && Change(w, w')
    ensures Final(w')
  {
    forall i | 0 <= i < |w'.log| && w'.log[i].End? ensures Ended(w', w'.log[i].id) {
      if i < |w.log| {
        assert w'.log[i] == w.log[i];
      } else {
        assert Concerns(w'.log[i], w'.log[i].id);
      }
    }
    forall i, j | 0 <= i < j < |w'.log| && w'.log[i].End? ensures !Concerns(w'.log[j], w'.log[i].id) {
      if i < |w.log| {
        assert w'.log[i] == w.log[i] && Ended(w, w.log[i].id);
        if j < |w.log| {
          assert w'.log[j] == w.log[j];
        }
      }
    }
  }

  lemma {:induction false} RunKeepsFinal(w: Worker, run: seq<Event>)
    requires Inv(w) && Final(w)
    ensures Final(Run(w, run))
    decreases |run|
  {
    if run != [] {
      var next := Step(w, run[0]);
      assert Final(next) by {
        StepChanges(w, run[0]);
        ChangeKeepsFinal(w, next);
      }
      assert Inv(next) by { StepKeepsInv(w, run[0]); }
      RunKeepsFinal(next, run[1..]);
    }
  }

  /** The message that ends a subscription is the last one its callback gets. */
  lemma EndIsLast(run: seq<Event>, i: nat, j: nat)
    requires i < j < |Run(INITIAL, run).log| && Run(INITIAL, run).log[i].End?
    ensures !Concerns(Run(INITIAL, run).log[j], Run(INITIAL, run).log[i].id)
  {
    RunKeepsFinal(INITIAL, run);
  }

  // ----- no subscription stalls ---------------------------------------------------------------------------

  predicate Attends(w: Worker, id: nat) {
    && id in w.subscriptions
    && w.subscriptions[id].activeFetch.Some?
    && Polls(w, w.subscriptions[id].activeFetch.value, id)
  }

  ghost predicate AttendedBut(w: Worker, id: nat) {
    w.accepting ==> forall s | s in w.subscriptions && s != id :: Attends(w, s)
  }

  /** While the worker accepts work, every live subscription has its request under way. */
  ghost predicate Attended(w: Worker) {
    w.accepting ==> forall s | s in w.subscriptions :: Attends(w, s)
  }

  lemma PollAttends(w: Worker, id: nat, position: Position)
    requires Numbered(w) && AttendedBut(w, id)
    ensures Attended(StartLongPoll(w, id, position))
  {
    var w' := StartLongPoll(w, id, position);
    if w.accepting {
      forall s | s in w'.subscriptions ensures Attends(w', s) {
        assert s != id ==> Attends(w, s);
      }
    }
  }

  lemma ClosedAttends(w: Worker, fetch: nat, id: nat)
    requires Attended(w) && Polls(w, fetch, id)
    ensures AttendedBut(Closed(w, fetch), id)
  {
    if w.accepting {
      forall s | s in w.subscriptions && s != id ensures Attends(Closed(w, fetch), s) {
        assert Attends(w, s);
      }
    }
  }

  lemma RestartAttends(w: Worker, fetch: nat, id: nat, news: seq<Call>, next: Position)
    requires Numbered(w) && Attended(w) && Polls(w, fetch, id)
    ensures Attended(StartLongPoll(Invoke(Closed(w, fetch), news), id, next))
    ensures Attended(StartLongPoll(Closed(w, fetch), id, next))
  {
    ClosedAttends(w, fetch, id);
    PollAttends(Closed(w, fetch), id, next);
    var told := Invoke(Closed(w, fetch), news);
    if w.accepting {
      forall s | s in w.subscriptions && s != id ensures Attends(told, s) {
        assert Attends(Closed(w, fetch), s);
      }
    }
    PollAttends(told, id, next);
  }

  lemma AdvanceAttends(w: Worker, fetch: nat, id: nat, messages: seq<Delivered>, last: u64, done: Completion)
    requires Calm(w) && Numbered(w) && Attended(w) && id in w.subscriptions && Polls(w, fetch, id)
    ensures Attended(Advance(w, fetch, id, messages, last, done))
  {
    var recorded := Recorded(w, id, messages, last);
    CloseIs(recorded, fetch, done);
    if w.accepting {
      forall s | s in w.subscriptions ensures Attends(recorded, s) {
        assert Attends(w, s);
      }
    }
    RestartAttends(recorded, fetch, id, Report(id, messages), At(Successor(last)));
  }

  /** The fetch that a subscription names, if it is open at all, is its own. */
  predicate Named(w: Worker, id: nat) {
    id in w.subscriptions && w.subscriptions[id].activeFetch.Some?
    && w.subscriptions[id].activeFetch.value in w.fetches
    ==> Polls(w, w.subscriptions[id].activeFetch.value, id)
  }

  lemma ErasedAttends(w: Worker, id: nat)
    requires AttendedBut(w, id) && id in w.subscriptions && (w.accepting ==> Named(w, id))
    ensures Attended(Erased(w, id))
  {
    if w.accepting {
      forall s | s in w.subscriptions && s != id ensures Attends(Erased(w, id), s) {
        assert Attends(w, s);
      }
    }
  }

  lemma EndAttends(w: Worker, id: nat, done: Completion)
    requires Calm(w) && AttendedBut(w, id) && (w.accepting ==> Named(w, id))
    ensures Attended(EndSubscription(w, id, done))
  {
    EndIs(w, id, done);
    if id in w.subscriptions {
      ErasedAttends(w, id);
      InvokeAttends(Erased(w, id), [End(id)]);
    }
  }

  lemma InvokeAttends(w: Worker, news: seq<Call>)
    requires Attended(w)
    ensures Attended(Invoke(w, news))
  {
    if w.accepting {
      forall s | s in w.subscriptions ensures Attends(Invoke(w, news), s) {
        assert Attends(w, s);
      }
    }
  }

  lemma BatchAttends(w: Worker, fetch: nat, id: nat, done: Completion)
    requires Calm(w) && Numbered(w) && Attended(w) && id in w.subscriptions && Polls(w, fetch, id)
    ensures Attended(HandleBatch(w, fetch, id, done))
  {
    var parts := Decode(done.body);
    if parts.Err? {
      CloseIs(w, fetch, done);
      RestartAttends(w, fetch, id, [Problem(id)], Next);
    } else {
      BatchGrammar.AcceptedIsConsecutive(done.body);
      PartsAttend(w, fetch, id, parts.value, done);
    }
  }

  lemma PartsAttend(w: Worker, fetch: nat, id: nat, parts: seq<BatchPart>, done: Completion)
    requires Calm(w) && Numbered(w) && Attended(w) && id in w.subscriptions && Polls(w, fetch, id) && parts != []
    ensures Attended(HandleParts(w, fetch, id, parts, done))
  {
    var last := w.subscriptions[id].last;
    if Readable(last, parts, Native.ReadableTopic) {
      BatchEqualsOneByOne(last, parts);
      var all := DeliverAll(last, parts);
      AdvanceAttends(w, fetch, id, all.messages, all.last.value, done);
    } else {
      var index := parts[|parts| - 1].index;
      CloseIs(w, fetch, done);
      RestartAttends(w, fetch, id, [Problem(id)], Following(if index < U64_LIMIT - 1 then Some(index + 1) else None));
    }
  }

  lemma SubscriptionAttends(w: Worker, fetch: nat, id: nat, done: Completion)
    requires Inv(w) && Attended(w) && Polls(w, fetch, id)
    ensures Attended(HandleSubscription(w, fetch, id, done))
  {
    CloseIs(w, fetch, done);
    if w.accepting {
      assert Attends(w, id);
      EndAttends(w, id, done);
      RestartAttends(w, fetch, id, [], Following(done.index));
      BatchAttends(w, fetch, id, done);
      if done.index.Some? {
        var last := w.subscriptions[id].last;
        if IsDuplicate(last, done.index.value) {
          RestartAttends(w, fetch, id, [], At(Successor(last.value)));
        }
        var sample := BatchPart(done.index.value, "", "", done.body);
        AdvanceAttends(w, fetch, id, [Delivered(sample, Skipped(last, done.index.value))], done.index.value, done);
      }
    }
  }

  /** Removing a request, or the request of no subscription, leaves the others attended. */
  lemma ClosedRequestAttends(w: Worker, fetch: nat)
    requires Attended(w) && (fetch in w.fetches ==> w.fetches[fetch].subscription.None?)
    ensures Attended(Closed(w, fetch))
  {
    if w.accepting {
      forall s | s in w.subscriptions ensures Attends(Closed(w, fetch), s) {
        assert Attends(w, s);
      }
    }
  }

  lemma CompleteAttends(w: Worker, fetch: nat, done: Completion)
    requires Inv(w) && Attended(w)
    ensures Attended(Complete(w, fetch, done))
  {
    if fetch in w.fetches {
      if w.fetches[fetch].subscription.Some? {
        SubscriptionAttends(w, fetch, w.fetches[fetch].subscription.value, done);
      } else {
        CloseIs(w, fetch, done);
        ClosedRequestAttends(w, fetch);
        InvokeAttends(Closed(w, fetch), [Answer(fetch)]);
      }
    }
  }

  lemma ReturnAttends(w: Worker, handle: bool)
    requires Inv(w) && Attended(w)
    ensures Attended(Return(w, handle))
  {
    if w.calls != [] {
      var fetch := w.calls[|w.calls| - 1];
      var w' := Return(w, handle);
      PoppedKeepsInv(w);
      if handle || fetch !in w.fetches {
        forall s | w.accepting && s in w'.subscriptions ensures Attends(w', s) {
          assert Attends(w, s);
        }
      } else {
        var id := w.fetches[fetch].subscription;
        forall s | w.accepting && s in w.subscriptions && id != Some(s) ensures Attends(Popped(w), s) {
          assert Attends(w, s);
        }
        if id.Some? {
          assert Polls(w, fetch, id.value);
          EndAttends(Popped(w), id.value, NO_HANDLE);
        } else {
          InvokeAttends(Popped(w), [Answer(fetch)]);
        }
      }
    }
  }

  lemma BeginAttends(w: Worker, target: Target, position: Position)
    requires Inv(w) && Attended(w) && w.accepting
    ensures Attended(Begin(w, target, position))
  {
    InvokeAttends(w, [Refusal]);
    var added := Added(w, target, position);
    forall s | s in added.subscriptions && s != w.nextSubscription ensures Attends(added, s) {
      assert Attends(w, s);
    }
    PollAttends(added, w.nextSubscription, position);
  }

  lemma SubscribeAttends(w: Worker, e: Event)
    requires Inv(w) && Attended(w) && e.Subscribes?
    ensures Attended(Step(w, e))
  {
    var target, position := SubscribeCases(w, e);
    InvokeAttends(w, [Refusal]);
    if w.accepting {
      BeginAttends(w, target, position);
    }
  }

  lemma StepAttends(w: Worker, e: Event)
    requires Inv(w) && Attended(w)
    ensures Attended(Step(w, e))
  {
    match e
    case Subscribes(_, _) => SubscribeAttends(w, e);
    case Unsubscribes(_, id) =>
      UnsubscribeIs(w, id);
      if w.accepting && id.Some? && id.value in w.subscriptions {
        assert Attends(w, id.value);
        ErasedAttends(w, id.value);
      }
    case Requests =>
      forall s | w.accepting && s in w.subscriptions ensures Attends(Step(w, e), s) {
        assert Attends(w, s);
      }
    case Completes(fetch, done) => CompleteAttends(w, fetch, done);
    case Returns(handle) => ReturnAttends(w, handle);
    case Shuts =>
    case CleansUp =>
  }

  /** In every run, every live subscription has exactly one request under way until the shutdown. */
  lemma {:induction false} RunAttends(w: Worker, run: seq<Event>)
    requires Inv(w) && Attended(w)
    ensures Inv(Run(w, run)) && Attended(Run(w, run))
    decreases |run|
  {
    if run != [] {
      StepKeepsInv(w, run[0]);
      StepAttends(w, run[0]);
      RunAttends(Step(w, run[0]), run[1..]);
    }
  }

  /** Everything the worker keeps: ownership, a request for each live subscription, all accounts. */
  ghost predicate Good(w: Worker) {
    Inv(w) && Attended(w) && Books(w)
  }

  lemma StepKeepsGood(w: Worker, e: Event)
    requires Good(w)
    ensures Good(Step(w, e))
  {
    StepKeepsInv(w, e);
    StepAttends(w, e);
    StepKeepsBooks(w, e);
  }

  lemma ExactlyOneFetch(run: seq<Event>, id: nat)
    requires var w := Run(INITIAL, run); w.accepting && id in w.subscriptions
    ensures var w := Run(INITIAL, run);
            exists f: nat :: Polls(w, f, id) && forall f': nat :: Polls(w, f', id) ==> f' == f
  {
    RunAttends(INITIAL, run);
    var w := Run(INITIAL, run);
    assert Attends(w, id);
    assert Polls(w, w.subscriptions[id].activeFetch.value, id);
  }

  // ----- what a completion delivers -------------------------------------------------------------------------

  /** The samples of a successful completion: the decoded batch, or the one sample of the response. */
  ghost predicate Carries(sub: Subscription, done: Completion, parts: seq<BatchPart>) {
    && done.status != 504 && !done.failed
    && if UsesBatch(sub.target.topic)
       then Decode(done.body) == Ok(parts) && Readable(sub.last, parts, Native.ReadableTopic)
       else done.index.Some? && parts == [BatchPart(done.index.value, "", "", done.body)]
  }

  /** The callback hears exactly the messages, and the index after the last one is asked for. */
  ghost predicate Delivers(w: Worker, w': Worker, id: nat, o: Outcome) {
    && Heard(w'.log, id) == Heard(w.log, id) + o.messages
    && id in w'.subscriptions && w'.subscriptions[id].last == o.last && o.last.Some?
    && Polls(w', w.nextFetch, id) && w'.fetches[w.nextFetch].position == At(Successor(o.last.value))
  }

  lemma AdvanceDelivers(w: Worker, fetch: nat, id: nat, messages: seq<Delivered>, last: u64, done: Completion)
    requires Calm(w) && w.accepting && id in w.subscriptions
    ensures Delivers(w, Advance(w, fetch, id, messages, last, done), id, Outcome(messages, Some(last)))
  {
    CloseIs(Recorded(w, id, messages, last), fetch, done);
    HeardReport(w.log, id, messages, id);
  }

  lemma DeliverSingle(last: Option<u64>, part: BatchPart)
    ensures DeliverAll(last, [part]) == DeliverOne(last, part)
  {
    var none: seq<BatchPart> := [part][1..];
    assert none == [];
    var one := DeliverOne(last, part);
    assert DeliverAll(one.last, none) == Outcome([], one.last);
    assert one.messages + [] == one.messages;
  }

  lemma SampleDelivers(w: Worker, fetch: nat, id: nat, done: Completion, part: BatchPart)
    requires Calm(w) && w.accepting && id in w.subscriptions && done.status != 504 && !done.failed
    requires !UsesBatch(w.subscriptions[id].target.topic)
    requires done.index == Some(part.index) && part == BatchPart(part.index, "", "", done.body)
    ensures Delivers(w, HandleSubscription(w, fetch, id, done), id, DeliverOne(w.subscriptions[id].last, part))
  {
    var last := w.subscriptions[id].last;
    CloseIs(w, fetch, done);
    if IsDuplicate(last, part.index) {
      assert Heard(w.log, id) + [] == Heard(w.log, id);
    } else {
      AdvanceDelivers(w, fetch, id, [Delivered(part, Skipped(last, part.index))], part.index, done);
    }
  }

  lemma PartsDeliver(w: Worker, fetch: nat, id: nat, parts: seq<BatchPart>, done: Completion)
    requires Calm(w) && w.accepting && id in w.subscriptions && parts != []
    requires Readable(w.subscriptions[id].last, parts, Native.ReadableTopic)
    ensures Delivers(w, HandleParts(w, fetch, id, parts, done), id, DeliverAll(w.subscriptions[id].last, parts))
  {
    BatchEqualsOneByOne(w.subscriptions[id].last, parts);
    var all := DeliverAll(w.subscriptions[id].last, parts);
    AdvanceDelivers(w, fetch, id, all.messages, all.last.value, done);
  }

  lemma BatchIsParts(w: Worker, fetch: nat, id: nat, parts: seq<BatchPart>, done: Completion)
    requires w.accepting && id in w.subscriptions && done.status != 504 && !done.failed
    requires UsesBatch(w.subscriptions[id].target.topic) && Decode(done.body) == Ok(parts)
    ensures parts != [] && HandleSubscription(w, fetch, id, done) == HandleParts(w, fetch, id, parts, done)
  {
    BatchGrammar.AcceptedIsConsecutive(done.body);
  }

  /**
   A successful completion passes on exactly its samples that are new, with their warnings, and
   asks for the index after the last one.
   */
  lemma CompletionDelivers(w: Worker, fetch: nat, id: nat, done: Completion, parts: seq<BatchPart>)
    requires Inv(w) && w.accepting && Polls(w, fetch, id) && id in w.subscriptions
    requires Carries(w.subscriptions[id], done, parts)
    ensures Delivers(w, Complete(w, fetch, done), id, DeliverAll(w.subscriptions[id].last, parts))
  {
    assert Complete(w, fetch, done) == HandleSubscription(w, fetch, id, done);
    if UsesBatch(w.subscriptions[id].target.topic) {
      BatchIsParts(w, fetch, id, parts, done);
      PartsDeliver(w, fetch, id, parts, done);
    } else {
      DeliverSingle(w.subscriptions[id].last, parts[0]);
      SampleDelivers(w, fetch, id, done, parts[0]);
    }
  }

  // ----- shutting down --------------------------------------------------------------------------------

  /** Nothing is called and nothing is started from one worker to the other. */
  ghost predicate Quiet(w: Worker, w': Worker) {
    && !w'.accepting && w'.log == w.log && w'.nextFetch == w.nextFetch && w'.nextSubscription == w.nextSubscription
    && w'.fetches.Keys <= w.fetches.Keys && w'.subscriptions.Keys <= w.subscriptions.Keys
  }

  lemma CompleteIsQuiet(w: Worker, fetch: nat, done: Completion)
    requires Inv(w) && !w.accepting
    ensures Quiet(w, Complete(w, fetch, done))
  {
    CloseIs(w, fetch, done);
  }

  lemma ReturnIsQuiet(w: Worker, handle: bool)
    requires Inv(w) && !w.accepting
    ensures Quiet(w, Return(w, handle))
  {
    if w.calls != [] && w.calls[|w.calls| - 1] in w.fetches && !handle {
      var fetch := w.calls[|w.calls| - 1];
      var erased := w.(calls := w.calls[..|w.calls| - 1], fetches := w.fetches - {fetch});
      if w.fetches[fetch].subscription.Some? {
        EndIs(erased, w.fetches[fetch].subscription.value, Completion(500, true, None, ""));
      }
    }
  }

  lemma StepIsQuiet(w: Worker, e: Event)
    requires Inv(w) && !w.accepting
    ensures Quiet(w, Step(w, e))
  {
    match e
    case Completes(fetch, done) => CompleteIsQuiet(w, fetch, done);
    case Returns(handle) => ReturnIsQuiet(w, handle);
    case _ =>
  }

  /** Once the worker has been told to stop, no run calls anything or starts anything. */
  lemma {:induction false} ShutIsQuiet(w: Worker, run: seq<Event>)
    requires Inv(w) && !w.accepting
    ensures Quiet(w, Run(w, run))
    decreases |run|
  {
    if run != [] {
      StepIsQuiet(w, run[0]);
      StepKeepsInv(w, run[0]);
      ShutIsQuiet(Step(w, run[0]), run[1..]);
    }
  }

  predicate CanRun(w: Worker, run: seq<Event>)
    decreases |run|
  {
    run == [] || (Enabled(w, run[0]) && CanRun(Step(w, run[0]), run[1..]))
  }

  /** The open calls return, and what is left is cleaned up. */
  function Leaving(open: nat): seq<Event> {
    if open == 0 then [CleansUp] else [Returns(true)] + Leaving(open - 1)
  }

  lemma {:induction false} CanLeave(w: Worker)
    requires !w.accepting
    ensures var run := Leaving(|w.calls|);
            && CanRun(w, run)
            && Run(w, run).fetches == map[] && Run(w, run).subscriptions == map[] && Run(w, run).calls == []
    decreases |w.calls|
  {
    if w.calls == [] {
      assert Leaving(0)[1..] == [];
    } else {
      var run := Leaving(|w.calls|);
      assert run[1..] == Leaving(|w.calls| - 1);
      CanLeave(Step(w, Returns(true)));
    }
  }

  /** From wherever a run has got to, the worker can be stopped and leaves nothing behind. */
  lemma EveryRunCanEnd(run: seq<Event>)
    ensures var w := Run(INITIAL, run);
            var ending := [Shuts] + Leaving(|w.calls|);
            && CanRun(w, ending)
            && var end := Run(w, ending);
               end.fetches == map[] && end.subscriptions == map[] && end.calls == [] && end.log == w.log
  {
    var w := Run(INITIAL, run);
    var ending := [Shuts] + Leaving(|w.calls|);
    assert ending[1..] == Leaving(|w.calls|);
    RunKeepsInv(INITIAL, run);
    StepKeepsInv(w, Shuts);
    CanLeave(Step(w, Shuts));
    ShutIsQuiet(Step(w, Shuts), Leaving(|w.calls|));
  }
}
