/**
 What each answer means for the native client, read off the answer alone: what is asked for next,
 what the callbacks are told, and what becomes of the subscription. The handlers are proved to do
 just that, for every response, whatever the state of the client.
 */
module NativeAnswers {
  import opened Wrappers
  import opened Text
  import opened LongPollingBatch
  import opened Delivery
  import opened RestClientNative
  import opened NativeRuns
  import opened SubscriptionTopic
  import BatchGrammar

  // ----- reading an answer ----------------------------------------------------------------------------

  datatype Verdict =
    | Elsewhere(index: u64)                // a redirect, or a time-out: ask for this index
    | Nowhere                              // a redirect that cannot be read
    | Plain                                // the answer to a GET or SET
    | Samples(parts: seq<BatchPart>)       // samples, of which only new ones are passed on
    | Unchecked(sample: BatchPart)         // an error status with an index
    | Illegible(next: Option<u64>)         // a batch that cannot be used: go on behind it, if that is known
    | Over                                 // an error that ends the subscription

  function Sole(r: Response): BatchPart
    requires r.index.Some?
  {
    BatchPart(r.index.value, r.topic, r.serviceName, r.payload)
  }

  /** A batch can be used if what is new in it has readable topics; otherwise it is passed over. */
  ghost function JudgeParts(parts: seq<BatchPart>, last: Option<u64>): Verdict {
    if forall part | part in Fresh(last, parts) :: ReadableTopic(part.topic) then Samples(parts)
    else if parts == [] || parts[|parts| - 1].index == U64_LIMIT - 1 then Illegible(None)
    else Illegible(Some(parts[|parts| - 1].index + 1))
  }

  ghost function JudgeBatch(body: string, last: Option<u64>): Verdict {
    match Decode(body)
    case Err(_) => Illegible(None)
    case Ok(parts) => JudgeParts(parts, last)
  }

  /** `last` is the last index delivered to the subscription that the request belongs to. */
  ghost function Judge(command: Command, r: Response, last: Option<u64>): Verdict {
    if r.status == 302 then if r.redirect.Some? then Elsewhere(r.redirect.value) else Nowhere
    else if r.status == 504 && r.index.Some? then Elsewhere(r.index.value)
    else if command.kind != Subscribe then Plain
    else if 200 <= r.status < 400 then
      if command.batch then JudgeBatch(r.payload, last)
      else if r.index.Some? then Samples([Sole(r)])
      else Over
    else if command.batch || r.index.None? then Over
    else Unchecked(Sole(r))
  }

  /** The next index; the largest is followed by 0. */
  function After(index: u64): u64 {
    if index == U64_LIMIT - 1 then 0 else index + 1
  }

  /** The index and the mode of the next request, if there is to be one. */
  ghost function Asks(verdict: Verdict, mode: Mode, last: Option<u64>): Option<(Mode, Option<u64>)> {
    match verdict
    case Elsewhere(index) => Some((mode, Some(index)))
    case Samples(parts) =>
      if parts == [] then None else Some((mode, Some(After(Newest(last, parts[|parts| - 1].index)))))
    case Unchecked(sample) => Some((mode, Some(After(sample.index))))
    case Illegible(next) => Some((NextMode, next))
    case _ => None
  }

  /** What the callbacks of the subscription are told. */
  ghost function Tells(verdict: Verdict, key: Key, last: Option<u64>): seq<Notice> {
    match verdict
    case Samples(parts) => Report(key, News(last, parts))
    case Unchecked(sample) => [Sample(key, Delivered(sample, 0))]
    case Illegible(_) => [Problem(key)]
    case Over => [Problem(key)]
    case _ => []
  }

  ghost function Updated(verdict: Verdict, sub: Subscription): Subscription {
    match verdict
    case Samples(parts) =>
      if parts == [] then sub
      else
        sub.(last := Some(Newest(sub.last, parts[|parts| - 1].index)),
             delivered := sub.delivered + News(sub.last, parts))
    case Unchecked(sample) =>
      sub.(last := Some(sample.index), delivered := sub.delivered + [Delivered(sample, 0)])
    case _ => sub
  }

  /** A request that came to nothing: a problem of a subscription, or the reply to a plain request. */
  function Complaint(command: Command): Notice {
    match command.kind
    case Subscribe => Problem(command.key)
    case Get => Reply(command.key)
    case Set => Reply(command.key)
  }

  /** The client after an answer for a live subscription; a request that is refused is a problem as well. */
  ghost function Answered(c: Client, q: Request, verdict: Verdict, stream: Option<nat>): Client
    requires q.key in c.subscriptions
  {
    var sub := c.subscriptions[q.key];
    var asks := Asks(verdict, sub.mode, sub.last);
    var refused := if asks.Some? && stream.None? then [Complaint(sub.request)] else [];
    var added := if asks.Some? && stream.Some?
                  then map[stream.value := Request(sub.request, sub.request.key, asks.value.0, asks.value.1)]
                  else map[];
    Client(if verdict.Over? then c.subscriptions - {q.key} else c.subscriptions[q.key := Updated(verdict, sub)],
           c.requests + added,
           c.notices + (refused + Tells(verdict, q.key, sub.last)))
  }

  /** Plain answers, and redirects that lead nowhere, are passed to whoever made the request. */
  ghost function Passed(c: Client, q: Request, verdict: Verdict): Client {
    c.(notices := c.notices + if verdict.Nowhere? then [Complaint(q.command)]
                              else if verdict.Plain? then [Reply(q.key)]
                              else [])
  }

  ghost function AfterAnswer(c: Client, q: Request, r: Response, stream: Option<nat>): Client {
    var last := if q.key in c.subscriptions then c.subscriptions[q.key].last else None;
    var verdict := Judge(q.command, r, last);
    if verdict.Nowhere? || verdict.Plain? || q.key !in c.subscriptions then Passed(c, q, verdict)
    else Answered(c, q, verdict, stream)
  }

  // ----- the handlers do what the answer says ---------------------------------------------------------

  lemma Unaltered(c: Client, key: Key)
    requires key in c.subscriptions
    ensures c.subscriptions[key := c.subscriptions[key]] == c.subscriptions
  {
  }

  lemma SubmitIs(c: Client, command: Command, mode: Mode, index: Option<u64>, stream: Option<nat>)
    ensures Submit(c, command, mode, index, stream)
            == (if stream.None? then Client(c.subscriptions, c.requests, c.notices + [Failure(command)])
                else Client(c.subscriptions,
                            c.requests + map[stream.value := Request(command, command.key, mode, index)], c.notices))
  {
  }

  lemma RedirectAnswered(c: Client, q: Request, index: u64, stream: Option<nat>)
    requires q.key in c.subscriptions
    ensures SendLongPoll(c, q.key, index, stream) == Answered(c, q, Elsewhere(index), stream)
  {
    Unaltered(c, q.key);
    var sub := c.subscriptions[q.key];
    SubmitIs(c, sub.request, sub.mode, Some(index), stream);
  }

  lemma ResumeAnswered(c: Client, q: Request, next: Option<u64>, stream: Option<nat>)
    requires q.key in c.subscriptions
    ensures Resume(c, q.key, next, stream) == Answered(c, q, Illegible(next), stream)
  {
    Unaltered(c, q.key);
    var sub := c.subscriptions[q.key];
    SubmitIs(c, sub.request, NextMode, next, stream);
  }

  lemma OverAnswered(c: Client, q: Request, stream: Option<nat>)
    requires q.key in c.subscriptions
    ensures ReportError(c, q.key) == Answered(c, q, Over, stream)
  {
  }

  lemma AfterIs(index: u64)
    ensures Successor(index) == After(index)
  {
  }

  lemma AdvanceIs(c: Client, q: Request, messages: seq<Delivered>, last: u64, stream: Option<nat>, verdict: Verdict)
    requires q.key in c.subscriptions && !verdict.Over?
    requires var sub := c.subscriptions[q.key];
             && Asks(verdict, sub.mode, sub.last) == Some((sub.mode, Some(After(last))))
             && Tells(verdict, q.key, sub.last) == Report(q.key, messages)
             && Updated(verdict, sub) == sub.(last := Some(last), delivered := sub.delivered + messages)
    ensures Advance(c, q.key, messages, last, stream) == Answered(c, q, verdict, stream)
  {
    var sub := c.subscriptions[q.key];
    var updated := sub.(last := Some(last), delivered := sub.delivered + messages);
    AfterIs(last);
    SubmitIs(c.(subscriptions := c.subscriptions[q.key := updated]), sub.request, sub.mode, Some(Successor(last)), stream);
  }

  lemma SampleAnswered(c: Client, q: Request, sample: BatchPart, stream: Option<nat>)
    requires q.key in c.subscriptions
    ensures HandleSample(c, q.key, sample, false, stream) == Answered(c, q, Samples([sample]), stream)
  {
    var sub := c.subscriptions[q.key];
    SingleNews(sub.last, sample);
    if IsDuplicate(sub.last, sample.index) {
      Unaltered(c, q.key);
      AfterIs(sub.last.value);
      SubmitIs(c, sub.request, sub.mode, Some(After(sub.last.value)), stream);
      assert Report(q.key, []) == [];
      assert sub.delivered + [] == sub.delivered;
    } else {
      AdvanceIs(c, q, [Delivered(sample, Skipped(sub.last, sample.index))], sample.index, stream, Samples([sample]));
    }
  }

  lemma SingleNews(last: Option<u64>, sample: BatchPart)
    ensures News(last, [sample])
            == if IsDuplicate(last, sample.index) then [] else [Delivered(sample, Skipped(last, sample.index))]
  {
    assert [sample][1..] == [];
    assert Fresh(last, [sample]) == if IsDuplicate(last, sample.index) then [] else [sample];
  }

  lemma UncheckedAnswered(c: Client, q: Request, sample: BatchPart, stream: Option<nat>)
    requires q.key in c.subscriptions
    ensures HandleSample(c, q.key, sample, true, stream) == Answered(c, q, Unchecked(sample), stream)
  {
    assert Report(q.key, [Delivered(sample, 0)]) == [Sample(q.key, Delivered(sample, 0))];
    AdvanceIs(c, q, [Delivered(sample, 0)], sample.index, stream, Unchecked(sample));
  }

  lemma DecodedRises(body: string, parts: seq<BatchPart>)
    requires Decode(body) == Ok(parts)
    ensures parts != [] && Rising(parts)
  {
    BatchGrammar.AcceptedIsConsecutive(body);
    ConsecutiveRises(parts);
  }

  /** The index behind the last part, unless that is the largest there is. */
  function BehindLast(parts: seq<BatchPart>): Option<u64>
    requires parts != []
  {
    var index := parts[|parts| - 1].index;
    if index < U64_LIMIT - 1 then Some(index + 1) else None
  }

  lemma JudgedAsRead(parts: seq<BatchPart>, last: Option<u64>)
    requires parts != [] && Rising(parts)
    ensures JudgeParts(parts, last)
            == if Readable(last, parts, ReadableTopic) then Samples(parts) else Illegible(BehindLast(parts))
  {
    ReadableIff(last, parts, ReadableTopic);
  }

  lemma PartsAnswered(c: Client, q: Request, parts: seq<BatchPart>, stream: Option<nat>)
    requires q.key in c.subscriptions && parts != [] && Rising(parts)
    requires Readable(c.subscriptions[q.key].last, parts, ReadableTopic)
    ensures HandleBatch(c, q.key, parts, stream) == Answered(c, q, Samples(parts), stream)
  {
    var sub := c.subscriptions[q.key];
    DeliversNews(sub.last, parts);
    AdvanceIs(c, q, News(sub.last, parts), Newest(sub.last, parts[|parts| - 1].index), stream, Samples(parts));
  }

  lemma BatchAnswered(c: Client, q: Request, parts: seq<BatchPart>, stream: Option<nat>)
    requires q.key in c.subscriptions && parts != [] && Rising(parts)
    ensures HandleBatch(c, q.key, parts, stream)
            == Answered(c, q, if Readable(c.subscriptions[q.key].last, parts, ReadableTopic) then Samples(parts)
                              else Illegible(BehindLast(parts)), stream)
  {
    if Readable(c.subscriptions[q.key].last, parts, ReadableTopic) {
      PartsAnswered(c, q, parts, stream);
    } else {
      ResumeAnswered(c, q, BehindLast(parts), stream);
    }
  }

  lemma SubscribedAnswered(c: Client, q: Request, r: Response, stream: Option<nat>)
    requires q.key in c.subscriptions && q.command.kind == Subscribe && !Redirects(r)
    ensures HandleSubscribed(c, q, r, stream) == AfterAnswer(c, q, r, stream)
  {
    if !HasError(r.status) && q.command.batch {
      if Decode(r.payload).Ok? {
        var parts := Decode(r.payload).value;
        DecodedRises(r.payload, parts);
        JudgedAsRead(parts, c.subscriptions[q.key].last);
        BatchAnswered(c, q, parts, stream);
      } else {
        ResumeAnswered(c, q, None, stream);
      }
    } else if r.index.None? || (HasError(r.status) && q.command.batch) {
      OverAnswered(c, q, stream);
    } else if HasError(r.status) {
      UncheckedAnswered(c, q, Sole(r), stream);
    } else {
      SampleAnswered(c, q, Sole(r), stream);
    }
  }

  lemma HandledAsAnswered(c: Client, q: Request, r: Response, stream: Option<nat>)
    ensures HandleResponse(c, q, r, stream) == AfterAnswer(c, q, r, stream)
  {
    if q.key in c.subscriptions {
      if r.status == 302 {
        if r.redirect.Some? {
          RedirectAnswered(c, q, r.redirect.value, stream);
        }
      } else if r.status == 504 && r.index.Some? {
        RedirectAnswered(c, q, r.index.value, stream);
      } else if q.command.kind == Subscribe {
        SubscribedAnswered(c, q, r, stream);
      }
    }
  }

  /** Every response has the effect that can be read off it, and its stream is forgotten. */
  lemma ProcessAnswers(c: Client, id: nat, r: Response, stream: Option<nat>)
    ensures Process(c, id, r, stream)
            == if id in c.requests then Forget(AfterAnswer(c, c.requests[id], r, stream), id) else c
  {
    if id in c.requests {
      HandledAsAnswered(c, c.requests[id], r, stream);
    }
  }

  // ----- what every step asks for ---------------------------------------------------------------------

  /** The last index delivered under a key. */
  function LastOf(c: Client, key: Key): Option<u64> {
    if key in c.subscriptions then c.subscriptions[key].last else None
  }

  /** What an event makes the client ask for, and for which subscription. */
  ghost predicate Wants(c: Client, e: Event, key: Key, position: Position) {
    match e
    case Starts(topic, mode, order, _) =>
      Begins(e, key) && key !in c.subscriptions && BeginsAt(topic, mode, position)
    case Responds(id, r, _) =>
      && id in c.requests && key == c.requests[id].key && key in c.subscriptions
      && var sub := c.subscriptions[key];
         var asks := Asks(Judge(c.requests[id].command, r, sub.last), sub.mode, sub.last);
         asks.Some? && position == Requested(asks.value.0, asks.value.1)
    case _ => false
  }

  /** A long-poll stream and what it asks for. */
  ghost predicate PollsAt(c: Client, id: nat, key: Key, position: Position) {
    Polls(c, id, key) && Requested(c.requests[id].mode, c.requests[id].index) == position
  }

  lemma AnsweredOpensIff(c: Client, q: Request, verdict: Verdict, stream: nat, position: Position)
    requires Keyed(c) && q.key in c.subscriptions && stream !in c.requests
    ensures var sub := c.subscriptions[q.key];
            var asks := Asks(verdict, sub.mode, sub.last);
            PollsAt(Answered(c, q, verdict, Some(stream)), stream, q.key, position)
            <==> asks.Some? && position == Requested(asks.value.0, asks.value.1)
  {
  }

  lemma ResponseOpensIff(c: Client, id: nat, r: Response, stream: nat, key: Key, position: Position)
    requires Keyed(c) && id in c.requests && stream !in c.requests && key == c.requests[id].key
    ensures PollsAt(Process(c, id, r, Some(stream)), stream, key, position)
            <==> Wants(c, Responds(id, r, Some(stream)), key, position)
  {
    ProcessAnswers(c, id, r, Some(stream));
    var q := c.requests[id];
    if key in c.subscriptions {
      AnsweredOpensIff(c, q, Judge(q.command, r, c.subscriptions[key].last), stream, position);
    }
  }

  lemma OpensForOwnKey(c: Client, id: nat, r: Response, stream: nat, key: Key)
    requires Keyed(c) && stream !in c.requests && Polls(Process(c, id, r, Some(stream)), stream, key)
    ensures id in c.requests && key == c.requests[id].key
  {
    if id in c.requests {
      ResponseEffect(c, c.requests[id], r, Some(stream));
    }
  }

  lemma StartOpensIff(c: Client, e: Event, stream: nat, key: Key, position: Position)
    requires Keyed(c) && Enabled(c, e) && e.Starts? && e.stream == Some(stream)
    ensures PollsAt(Step(c, e), stream, key, position) <==> Wants(c, e, key, position)
  {
    var command, mode, index, refused := StartCases(c, e);
    TakesWhatIsMeant(e.topic, e.mode, e.order, position);
    StartIs(c, e);
  }

  /**
   In every reachable state, and for every event: the stream that the library hands out polls for a
   subscription, and asks for a position, exactly if the event wants that.
   */
  lemma StepOpensIff(run: seq<Event>, e: Event, stream: nat, key: Key, position: Position)
    requires var c := Run(INITIAL, run); Enabled(c, e) && stream !in c.requests
    requires e.Starts? || e.Responds? || e.Sends? ==> e.stream == Some(stream)
    ensures var c := Run(INITIAL, run); PollsAt(Step(c, e), stream, key, position) <==> Wants(c, e, key, position)
  {
    var c := Run(INITIAL, run);
    RunKeepsKeyed(INITIAL, run);
    match e
    case Starts(_, _, _, _) => StartOpensIff(c, e, stream, key, position);
    case Responds(id, r, _) =>
      if id in c.requests && key == c.requests[id].key {
        ResponseOpensIff(c, id, r, stream, key, position);
      } else if Polls(Step(c, e), stream, key) {
        OpensForOwnKey(c, id, r, stream, key);
      }
    case _ =>
  }

  /** A plain request does not ask for a position. */
  lemma PlainAsksNothing(c: Client, kind: Kind, topic: MdpTopic, stream: nat)
    requires kind != Subscribe
    ensures var c' := Step(c, Sends(kind, topic, Some(stream)));
            && c'.requests.Keys == c.requests.Keys + {stream}
            && c'.requests[stream].command.kind == kind && c'.requests[stream].command.topic == topic
            && Requested(c'.requests[stream].mode, c'.requests[stream].index) == Unasked
  {
  }

  lemma {:induction false} RunKeepsKeyed(c: Client, run: seq<Event>)
    requires Keyed(c)
    ensures Keyed(Run(c, run))
    decreases |run|
  {
    if run != [] {
      StepKeepsKeyed(c, run[0]);
      RunKeepsKeyed(Step(c, run[0]), run[1..]);
    }
  }

  /** What a start does: it is refused, it begins a subscription, or it joins one. */
  ghost function Started(c: Client, command: Command, mode: Mode, index: Option<u64>, stream: Option<nat>): Client {
    var key := command.key;
    var start := if index.Some? && index.value > 0 then Some(index.value - 1) else None;
    if key !in c.subscriptions then
      Client(c.subscriptions[key := Subscription(command, mode, start, 1, start, [], |c.notices|)],
             if stream.Some? then c.requests[stream.value := Request(command, key, mode, index)] else c.requests,
             if stream.Some? then c.notices else c.notices + [Problem(key)])
    else
      var sub := c.subscriptions[key];
      if command.batch || sub.request.batch then c.(notices := c.notices + [Refusal(key)])
      else
        var joined := Subscription(command, mode, sub.last, sub.callbacks + 1, sub.start, sub.delivered, sub.since);
        c.(subscriptions := c.subscriptions[key := joined])
  }

  lemma StartIs(c: Client, e: Event)
    requires Enabled(c, e) && e.Starts?
    ensures var initial := TakeInitialIndex(e.topic, e.mode, e.order);
            Step(c, e) == if initial.None? || !HasTopic(e.topic)
                          then c.(notices := c.notices + [Refusal(SubscriptionKey(e.topic))])
                          else Started(c, NewCommand(Subscribe, initial.value.topic), initial.value.mode,
                                       initial.value.index, e.stream)
  {
  }
}
