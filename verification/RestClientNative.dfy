/**
 The native REST client: subscriptions, the outstanding HTTP streams, and the handlers that react
 to commands and responses. The functions describe one handler execution each.
 */
module RestClientNative {
  import opened Wrappers
  import opened Text
  import opened LongPollingBatch
  import opened Delivery
  import opened SubscriptionTopic
  import BatchGrammar
  import Uri
  import UriQuery

  datatype Kind = Get | Set | Subscribe

  /** A command with what the client reads off its topic: its key and whether it uses batches. */
  datatype Command = Command(kind: Kind, topic: MdpTopic, key: Key, batch: bool)

  function NewCommand(kind: Kind, topic: MdpTopic): Command {
    Command(kind, topic, if kind == Subscribe then SubscriptionKey(topic) else RequestKey(topic), UsesBatch(topic))
  }

  // ----- the state -----------------------------------------------------------------------------------

  /**
   `start`, `delivered` and `since` record the history of the subscription: where it began to
   count, what it has delivered, and how many notices there had been before.
   */
  datatype Subscription = Subscription(
    request: Command,
    mode: Mode,
    last: Option<u64>,
    callbacks: nat,
    start: Option<u64>,
    delivered: seq<Delivered>,
    since: nat)

  datatype Request = Request(command: Command, key: Key, mode: Mode, index: Option<u64>)

  /** A message passed to callbacks; only samples and problems go to the subscriptions of a key. */
  datatype Notice =
    | Sample(key: Key, message: Delivered)
    | Problem(key: Key)
    | Reply(key: Key)
    | Refusal(key: Key)

  datatype Client = Client(
    subscriptions: map<Key, Subscription>,
    requests: map<nat, Request>,
    notices: seq<Notice>)

  /** `redirect` is the long-polling index in the location of a redirect, if it can be read. */
  datatype Response = Response(
    status: nat,
    redirect: Option<u64>,
    index: Option<u64>,
    payload: string,
    topic: string,
    serviceName: string)

  predicate HasError(status: nat) {
    !(200 <= status < 400)
  }

  predicate ReadableTopic(topic: string) {
    Uri.ParseUri(topic, true).Ok?
  }

  function Tell(c: Client, news: seq<Notice>): Client {
    c.(notices := c.notices + news)
  }

  function Failure(command: Command): Notice {
    if command.kind == Subscribe then Problem(command.key) else Reply(command.key)
  }

  /** `stream` is the id the HTTP library hands out, or nothing if it refuses the request. */
  function Submit(c: Client, command: Command, mode: Mode, index: Option<u64>, stream: Option<nat>): Client {
    if stream.None? then Tell(c, [Failure(command)])
    else c.(requests := c.requests[stream.value := Request(command, command.key, mode, index)])
  }

  // ----- the handlers --------------------------------------------------------------------------------

  function SendLongPoll(c: Client, key: Key, index: u64, stream: Option<nat>): Client {
    if key !in c.subscriptions then c
    else Submit(c, c.subscriptions[key].request, c.subscriptions[key].mode, Some(index), stream)
  }

  function Report(key: Key, messages: seq<Delivered>): seq<Notice> {
    seq(|messages|, i requires 0 <= i < |messages| => Sample(key, messages[i]))
  }

  /** Updates a subscription, asks for the sample after the last one and then tells the callbacks. */
  function Advance(c: Client, key: Key, messages: seq<Delivered>, last: u64, stream: Option<nat>): Client
    requires key in c.subscriptions
  {
    var sub := c.subscriptions[key];
    var updated := sub.(last := Some(last), delivered := sub.delivered + messages);
    var asked := Submit(c.(subscriptions := c.subscriptions[key := updated]),
                        sub.request, sub.mode, Some(Successor(last)), stream);
    Tell(asked, Report(key, messages))
  }

  function HandleSample(c: Client, key: Key, sample: BatchPart, hasError: bool, stream: Option<nat>): Client {
    if key !in c.subscriptions then c
    else
      var sub := c.subscriptions[key];
      if !hasError && IsDuplicate(sub.last, sample.index) then
        Submit(c, sub.request, sub.mode, Some(Successor(sub.last.value)), stream)
      else
        var skipped := if hasError then 0 else Skipped(sub.last, sample.index);
        Advance(c, key, [Delivered(sample, skipped)], sample.index, stream)
  }

  function Resume(c: Client, key: Key, next: Option<u64>, stream: Option<nat>): Client {
    if key !in c.subscriptions then c
    else Tell(Submit(c, c.subscriptions[key].request, NextMode, next, stream), [Problem(key)])
  }

  function HandleBatch(c: Client, key: Key, parts: seq<BatchPart>, stream: Option<nat>): Client
    requires parts != []
  {
    if key !in c.subscriptions then c
    else
      var sub := c.subscriptions[key];
      if Readable(sub.last, parts, ReadableTopic) then
        BatchEqualsOneByOne(sub.last, parts);
        var all := DeliverAll(sub.last, parts);
        Advance(c, key, all.messages, all.last.value, stream)
      else
        var index := parts[|parts| - 1].index;
        Resume(c, key, if index < U64_LIMIT - 1 then Some(index + 1) else None, stream)
  }

  function ReportError(c: Client, key: Key): Client {
    if key !in c.subscriptions then c
    else Tell(c.(subscriptions := c.subscriptions - {key}), [Problem(key)])
  }

  function HandleSubscribed(c: Client, q: Request, r: Response, stream: Option<nat>): Client {
    if !HasError(r.status) && q.command.batch then
      var parts := Decode(r.payload);
      if parts.Err? then Resume(c, q.key, None, stream)
      else
        BatchGrammar.AcceptedIsConsecutive(r.payload);
        HandleBatch(c, q.key, parts.value, stream)
    else if r.index.None? || (HasError(r.status) && q.command.batch) then
      ReportError(c, q.key)
    else
      HandleSample(c, q.key, BatchPart(r.index.value, r.topic, r.serviceName, r.payload),
                   HasError(r.status), stream)
  }

  predicate Redirects(r: Response) {
    r.status == 302 || (r.status == 504 && r.index.Some?)
  }

  function HandleResponse(c: Client, q: Request, r: Response, stream: Option<nat>): Client {
    if r.status == 302 then
      if r.redirect.None? then Tell(c, [Failure(q.command)])
      else SendLongPoll(c, q.key, r.redirect.value, stream)
    else if r.status == 504 && r.index.Some? then SendLongPoll(c, q.key, r.index.value, stream)
    else if q.command.kind == Subscribe then HandleSubscribed(c, q, r, stream)
    else Tell(c, [Reply(q.key)])
  }

  function Forget(c: Client, id: nat): Client {
    c.(requests := c.requests - {id})
  }

  function Process(c: Client, id: nat, r: Response, stream: Option<nat>): Client {
    if id !in c.requests then c else Forget(HandleResponse(c, c.requests[id], r, stream), id)
  }

  /** A subscription whose index parameter has been read and removed. */
  function Begin(c: Client, command: Command, mode: Mode, index: Option<u64>, stream: Option<nat>): Client {
    var key := command.key;
    if key !in c.subscriptions then
      var start := if index.Some? && index.value > 0 then Some(index.value - 1) else None;
      var sub := Subscription(command, mode, start, 1, start, [], |c.notices|);
      Submit(c.(subscriptions := c.subscriptions[key := sub]), command, mode, index, stream)
    else
      var sub := c.subscriptions[key];
      if command.batch || sub.request.batch then Tell(c, [Refusal(key)])
      else
        c.(subscriptions :=
           c.subscriptions[key := sub.(request := command, mode := mode, callbacks := sub.callbacks + 1)])
  }

  /** `order` is the order in which the topic without its index is enumerated. */
  function Start(c: Client, topic: MdpTopic, mode: Mode, order: seq<UriQuery.Entry>, stream: Option<nat>): Client
    requires CanTake(topic, order)
  {
    var initial := TakeInitialIndex(topic, mode, order);
    if initial.None? || !HasTopic(topic) then Tell(c, [Refusal(SubscriptionKey(topic))])
    else Begin(c, NewCommand(Subscribe, initial.value.topic), initial.value.mode, initial.value.index, stream)
  }

  function Cancelled(requests: map<nat, Request>, key: Key): map<nat, Request> {
    map id | id in requests && !(requests[id].command.kind == Subscribe && requests[id].key == key)
      :: requests[id]
  }

  function StopKey(c: Client, key: Key): Client {
    if key !in c.subscriptions then c
    else c.(subscriptions := c.subscriptions - {key}, requests := Cancelled(c.requests, key))
  }

  function Stop(c: Client, topic: MdpTopic): Client {
    if HasTopic(topic) then StopKey(c, SubscriptionKey(topic)) else c
  }

  // ----- runs ----------------------------------------------------------------------------------------

  datatype Event =
    | Starts(topic: MdpTopic, mode: Mode, order: seq<UriQuery.Entry>, stream: Option<nat>)
    | Stops(topic: MdpTopic)
    | Sends(kind: Kind, topic: MdpTopic, stream: Option<nat>)
    | Responds(id: nat, response: Response, stream: Option<nat>)
    | Closes(id: nat)

  /** Stream ids are fresh, and plain requests are not subscriptions. */
  predicate Enabled(c: Client, e: Event) {
    match e
    case Starts(topic, _, order, stream) =>
      CanTake(topic, order) && (stream.Some? ==> stream.value !in c.requests)
    case Sends(kind, _, stream) => kind != Subscribe && (stream.Some? ==> stream.value !in c.requests)
    case Responds(_, _, stream) => stream.Some? ==> stream.value !in c.requests
    case _ => true
  }

  function Step(c: Client, e: Event): Client {
    match e
    case Starts(topic, mode, order, stream) => if CanTake(topic, order) then Start(c, topic, mode, order, stream) else c
    case Stops(topic) => Stop(c, topic)
    case Sends(kind, topic, stream) => Submit(c, NewCommand(kind, topic), NoMode, None, stream)
    case Responds(id, response, stream) => Process(c, id, response, stream)
    case Closes(id) => Forget(c, id)
  }

  predicate Executable(c: Client, run: seq<Event>)
    decreases |run|
  {
    run == [] || (Enabled(c, run[0]) && Executable(Step(c, run[0]), run[1..]))
  }

  function Run(c: Client, run: seq<Event>): Client
    decreases |run|
  {
    if run == [] then c else Run(Step(c, run[0]), run[1..])
  }

  const INITIAL := Client(map[], map[], [])

  // ----- one stream per subscription -------------------------------------------------------------------

  predicate Polls(c: Client, id: nat, key: Key) {
    id in c.requests && c.requests[id].command.kind == Subscribe && c.requests[id].key == key
  }

  ghost predicate Keyed(c: Client) {
    && (forall key | key in c.subscriptions ::
          c.subscriptions[key].request.kind == Subscribe && c.subscriptions[key].request.key == key)
    && (forall id | id in c.requests :: c.requests[id].key == c.requests[id].command.key)
  }

  ghost predicate OneStream(c: Client) {
    forall id, id', key | Polls(c, id, key) && Polls(c, id', key) :: id == id'
  }

  ghost predicate Anchored(c: Client) {
    forall id, key | Polls(c, id, key) :: key in c.subscriptions
  }

  ghost predicate Inv(c: Client) {
    Keyed(c) && OneStream(c) && Anchored(c)
  }

  /**
   A redirect or a long-poll time-out that answers a plain request, while its topic has a
   subscription that is already polling: the handler then opens a second stream.
   */
  predicate Misrouted(c: Client, id: nat, r: Response, stream: Option<nat>) {
    && id in c.requests && c.requests[id].command.kind != Subscribe
    && Redirects(r) && (r.status == 302 ==> r.redirect.Some?)
    && stream.Some? && c.requests[id].key in c.subscriptions
    && exists other | other in c.requests :: Polls(c, other, c.requests[id].key)
  }
}
