/**
 The REST worker of the Emscripten client: subscriptions, the active fetches, and the handlers for
 commands and completed fetches. `emscripten_fetch` may complete a fetch before it returns, and
 closing a fetch calls its error callback: both re-enter the worker. A handler is therefore cut
 where it calls `emscripten_fetch`, always its last action; `calls` holds the calls that have not
 returned yet, and completions may arrive at any time.
 */
module RestClientEmscripten {
  import opened Wrappers
  import opened Text
  import opened LongPollingBatch
  import opened Delivery
  import opened SubscriptionTopic
  import BatchGrammar
  import UriQuery
  import Native = RestClientNative

  datatype Target = Target(endpoint: string, topic: MdpTopic)

  predicate SameSubscription(a: Target, b: Target) {
    a.endpoint == b.endpoint && Subscribed(a.topic) == Subscribed(b.topic)
  }

  /** `delivered` records the history of the subscription. */
  datatype Subscription = Subscription(
    target: Target,
    last: Option<u64>,
    activeFetch: Option<nat>,
    delivered: seq<Delivered>)

  /** `handle` is set once `emscripten_fetch` has returned; a GET or SET has no subscription. */
  datatype Fetch = Fetch(subscription: Option<nat>, position: Position, handle: bool, closing: bool)

  /** A call of the callback of a subscription, or of a command that was refused or answered. */
  datatype Call =
    | Sample(id: nat, message: Delivered)
    | Problem(id: nat)
    | End(id: nat)
    | Refusal
    | Answer(fetch: nat)

  /** `starts` records where each subscription ever started begins to count, `log` every call. */
  datatype Worker = Worker(
    accepting: bool,
    subscriptions: map<nat, Subscription>,
    starts: map<nat, Option<u64>>,
    fetches: map<nat, Fetch>,
    nextSubscription: nat,
    nextFetch: nat,
    calls: seq<nat>,
    log: seq<Call>)

  const INITIAL := Worker(true, map[], map[], map[], 1, 1, [], [])

  datatype Completion = Completion(status: nat, failed: bool, index: Option<u64>, body: string)

  /** Callbacks are not invoked any more once the worker has been told to stop. */
  function Invoke(w: Worker, news: seq<Call>): Worker {
    if w.accepting then w.(log := w.log + news) else w
  }

  // ----- handlers -------------------------------------------------------------------------------------

  /** The call of `emscripten_fetch` stays open until `Return`. */
  function StartFetch(w: Worker, fetch: Fetch): Worker {
    w.(fetches := w.fetches[w.nextFetch := fetch],
       nextFetch := w.nextFetch + 1,
       calls := w.calls + [w.nextFetch])
  }

  function StartLongPoll(w: Worker, id: nat, position: Position): Worker {
    if !w.accepting || id !in w.subscriptions then w
    else
      var owned := w.subscriptions[id := w.subscriptions[id].(activeFetch := Some(w.nextFetch))];
      StartFetch(w.(subscriptions := owned), Fetch(Some(id), position, false, false))
  }

  /** `startNextLongPoll`: without an index the next sample is asked for. */
  function Following(next: Option<u64>): Position {
    if next.Some? then At(next.value) else Next
  }

  predicate IsClosing(w: Worker, fetch: nat) {
    fetch in w.fetches && w.fetches[fetch].closing
  }

  /** Closing a fetch that is still open calls its error callback, hence `Complete`, once more. */
  function CloseFetch(w: Worker, fetch: nat, aborted: Completion): Worker
    decreases 1
  {
    if fetch !in w.fetches || w.fetches[fetch].closing then w
    else
      var marked := w.(fetches := w.fetches[fetch := w.fetches[fetch].(closing := true)]);
      var closed := Complete(marked, fetch, aborted);
      closed.(fetches := closed.fetches - {fetch})
  }

  function Complete(w: Worker, fetch: nat, done: Completion): Worker
    decreases if IsClosing(w, fetch) then 0 else 3
  {
    if fetch !in w.fetches || w.fetches[fetch].closing then w
    else if w.fetches[fetch].subscription.Some? then
      HandleSubscription(w, fetch, w.fetches[fetch].subscription.value, done)
    else
      Invoke(CloseFetch(w, fetch, done), [Answer(fetch)])
  }

  function EndSubscription(w: Worker, id: nat, aborted: Completion): Worker
    decreases 2, 0
  {
    if id !in w.subscriptions then w
    else
      var outstanding := w.subscriptions[id].activeFetch;
      var erased := w.(subscriptions := w.subscriptions - {id});
      var closed := if outstanding.Some? then CloseFetch(erased, outstanding.value, aborted) else erased;
      Invoke(closed, [End(id)])
  }

  function Report(id: nat, messages: seq<Delivered>): seq<Call> {
    seq(|messages|, i requires 0 <= i < |messages| => Sample(id, messages[i]))
  }

  /** Records the samples, closes the fetch, calls the callback, and polls for the next sample. */
  function Advance(w: Worker, fetch: nat, id: nat, messages: seq<Delivered>, last: u64, done: Completion): Worker
    requires id in w.subscriptions
    decreases 2, 0
  {
    var sub := w.subscriptions[id];
    var updated := w.(subscriptions := w.subscriptions[id := sub.(last := Some(last), delivered := sub.delivered + messages)]);
    StartLongPoll(Invoke(CloseFetch(updated, fetch, done), Report(id, messages)), id, At(Successor(last)))
  }

  function ResumeAfterBatchError(w: Worker, fetch: nat, id: nat, next: Option<u64>, done: Completion): Worker
    decreases 2, 0
  {
    StartLongPoll(Invoke(CloseFetch(w, fetch, done), [Problem(id)]), id, Following(next))
  }

  function HandleParts(w: Worker, fetch: nat, id: nat, parts: seq<BatchPart>, done: Completion): Worker
    requires id in w.subscriptions && parts != []
    decreases 2, 1
  {
    var last := w.subscriptions[id].last;
    if Readable(last, parts, Native.ReadableTopic) then
      BatchEqualsOneByOne(last, parts);
      var all := DeliverAll(last, parts);
      Advance(w, fetch, id, all.messages, all.last.value, done)
    else
      var index := parts[|parts| - 1].index;
      ResumeAfterBatchError(w, fetch, id, if index < U64_LIMIT - 1 then Some(index + 1) else None, done)
  }

  function HandleBatch(w: Worker, fetch: nat, id: nat, done: Completion): Worker
    requires id in w.subscriptions
    decreases 2, 2
  {
    var parts := Decode(done.body);
    if parts.Err? then ResumeAfterBatchError(w, fetch, id, None, done)
    else
      BatchGrammar.AcceptedIsConsecutive(done.body);
      HandleParts(w, fetch, id, parts.value, done)
  }

  function HandleSubscription(w: Worker, fetch: nat, id: nat, done: Completion): Worker
    decreases 2, 3
  {
    if !w.accepting || id !in w.subscriptions then CloseFetch(w, fetch, done)
    else
      var sub := w.subscriptions[id];
      if done.status == 504 then
        if done.index.None? then EndSubscription(w, id, done)
        else StartLongPoll(CloseFetch(w, fetch, done), id, At(done.index.value))
      else if done.failed then EndSubscription(w, id, done)
      else if UsesBatch(sub.target.topic) then HandleBatch(w, fetch, id, done)
      else if done.index.None? then EndSubscription(w, id, done)
      else if IsDuplicate(sub.last, done.index.value) then
        StartLongPoll(CloseFetch(w, fetch, done), id, At(Successor(sub.last.value)))
      else
        var sample := BatchPart(done.index.value, "", "", done.body);
        Advance(w, fetch, id, [Delivered(sample, Skipped(sub.last, done.index.value))], done.index.value, done)
  }

  /** `emscripten_fetch` returns from its innermost open call, with or without a handle. */
  function Return(w: Worker, handle: bool): Worker {
    if w.calls == [] then w
    else
      var fetch := w.calls[|w.calls| - 1];
      var popped := w.(calls := w.calls[..|w.calls| - 1]);
      if fetch !in popped.fetches then popped
      else if handle then
        if popped.fetches[fetch].closing then popped
        else popped.(fetches := popped.fetches[fetch := popped.fetches[fetch].(handle := true)])
      else
        var erased := popped.(fetches := popped.fetches - {fetch});
        var subscription := w.fetches[fetch].subscription;
        if subscription.Some? then EndSubscription(erased, subscription.value, Completion(500, true, None, ""))
        else Invoke(erased, [Answer(fetch)])
  }

  predicate Conflicts(w: Worker, target: Target) {
    exists id | id in w.subscriptions ::
      && SameSubscription(w.subscriptions[id].target, target)
      && (UsesBatch(target.topic) || UsesBatch(w.subscriptions[id].target.topic))
  }

  /** A subscription that starts at a given index counts the samples before the first one it gets. */
  function Added(w: Worker, target: Target, position: Position): Worker {
    var start := if position.At? && position.index > 0 then Some(position.index - 1) else None;
    w.(subscriptions := w.subscriptions[w.nextSubscription := Subscription(target, start, None, [])],
       starts := w.starts[w.nextSubscription := start],
       nextSubscription := w.nextSubscription + 1)
  }

  /** A subscription whose index parameter has been read and removed. */
  function Begin(w: Worker, target: Target, position: Position): Worker {
    if Conflicts(w, target) then Invoke(w, [Refusal])
    else StartLongPoll(Added(w, target, position), w.nextSubscription, position)
  }

  /** `order` is the order in which the topic without its index is enumerated. */
  function StartSubscription(w: Worker, target: Target, order: seq<UriQuery.Entry>): Worker
    requires CanTake(target.topic, order)
  {
    var initial := TakeInitialIndex(target.topic, NextMode, order);
    if !w.accepting then w
    else if initial.None? then Invoke(w, [Refusal])
    else Begin(w, target.(topic := initial.value.topic), Requested(initial.value.mode, initial.value.index))
  }

  /** `id` is the subscription that the search in the hash map comes across first, if any. */
  function StopSubscription(w: Worker, id: Option<nat>): Worker {
    if !w.accepting || id.None? || id.value !in w.subscriptions then w
    else
      var outstanding := w.subscriptions[id.value].activeFetch;
      var erased := w.(subscriptions := w.subscriptions - {id.value});
      if outstanding.Some? then CloseFetch(erased, outstanding.value, Completion(0, true, None, "")) else erased
  }

  predicate Finds(w: Worker, target: Target, id: Option<nat>) {
    match id
    case Some(found) => found in w.subscriptions && SameSubscription(w.subscriptions[found].target, target)
    case None => forall other | other in w.subscriptions :: !SameSubscription(w.subscriptions[other].target, target)
  }

  // ----- runs -------------------------------------------------------------------------------------------

  datatype Event =
    | Subscribes(target: Target, order: seq<UriQuery.Entry>)
    | Unsubscribes(target: Target, id: Option<nat>)
    | Requests
    | Completes(fetch: nat, done: Completion)
    | Returns(handle: bool)
    | Shuts
    | CleansUp

  /** Commands are dispatched between handlers only; everything else may re-enter the worker. */
  predicate Enabled(w: Worker, e: Event) {
    match e
    case Subscribes(target, order) => w.calls == [] && CanTake(target.topic, order) && HasTopic(target.topic)
    case Unsubscribes(target, id) => w.calls == [] && HasTopic(target.topic) && Finds(w, target, id)
    case Requests => w.calls == []
    case CleansUp => w.calls == [] && !w.accepting
    case _ => true
  }

  function Step(w: Worker, e: Event): Worker {
    match e
    case Subscribes(target, order) =>
      if CanTake(target.topic, order) then StartSubscription(w, target, order) else w
    case Unsubscribes(target, id) => StopSubscription(w, id)
    case Requests => if w.accepting then StartFetch(w, Fetch(None, Unasked, false, false)) else w
    case Completes(fetch, done) => Complete(w, fetch, done)
    case Returns(handle) => Return(w, handle)
    case Shuts => w.(accepting := false)
    case CleansUp => w.(subscriptions := map[], fetches := map[])
  }

  function Run(w: Worker, run: seq<Event>): Worker
    decreases |run|
  {
    if run == [] then w else Run(Step(w, run[0]), run[1..])
  }
}
