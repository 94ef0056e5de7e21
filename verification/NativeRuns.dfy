/**
 What the native client keeps over whole runs: at most one long-poll stream per subscription,
 silence after a stop, and when a subscription is left without a stream.
 */
module NativeRuns {
  import opened Wrappers
  import opened Text
  import opened LongPollingBatch
  import opened Delivery
  import opened RestClientNative
  import opened SubscriptionTopic
  import BatchGrammar
  import SubscriptionStop
  import Topic
  import Uri
  import UriQuery

  // ----- what one response can change ------------------------------------------------------------

  /** The one stream a handler may open polls for the subscription of its key. */
  ghost predicate Opened(c: Client, c': Client, key: Key, stream: Option<nat>) {
    && stream.Some? && key in c.subscriptions
    && Polls(c', stream.value, key)
    && c'.requests[stream.value].command.key == key
    && c'.requests == c.requests[stream.value := c'.requests[stream.value]]
  }

  ghost predicate Ended(c: Client, c': Client, key: Key) {
    key in c.subscriptions && c'.subscriptions == c.subscriptions - {key} && c'.requests == c.requests
  }

  /** Nothing but the subscription of the key is touched, and only its callbacks are told. */
  ghost predicate Effect(c: Client, c': Client, key: Key, stream: Option<nat>) {
    && (c'.requests == c.requests || Opened(c, c', key, stream))
    && (c'.subscriptions.Keys == c.subscriptions.Keys || Ended(c, c', key))
    && (forall k | k in c'.subscriptions ::
          && k in c.subscriptions
          && c'.subscriptions[k].request == c.subscriptions[k].request
          && (k != key ==> c'.subscriptions[k] == c.subscriptions[k]))
    && c.notices <= c'.notices
    && (forall i | |c.notices| <= i < |c'.notices| :: c'.notices[i].key == key)
  }

  ghost predicate KeyedSubscriptions(c: Client) {
    forall key | key in c.subscriptions ::
      c.subscriptions[key].request.kind == Subscribe && c.subscriptions[key].request.key == key
  }

  lemma AskEffect(c: Client, key: Key, mode: Mode, index: Option<u64>, stream: Option<nat>)
    requires KeyedSubscriptions(c) && key in c.subscriptions
    ensures Effect(c, Submit(c, c.subscriptions[key].request, mode, index, stream), key, stream)
    ensures Submit(c, c.subscriptions[key].request, mode, index, stream).subscriptions == c.subscriptions
  {
  }

  lemma TellEffect(c: Client, c': Client, key: Key, stream: Option<nat>, news: seq<Notice>)
    requires Effect(c, c', key, stream)
    requires forall i | 0 <= i < |news| :: news[i].key == key
    ensures Effect(c, Tell(c', news), key, stream)
  {
    var told := Tell(c', news);
    assert Ended(c, c', key) ==> Ended(c, told, key);
    assert Opened(c, c', key, stream) ==> Opened(c, told, key, stream);
  }

  lemma AdvanceEffect(c: Client, key: Key, messages: seq<Delivered>, last: u64, stream: Option<nat>)
    requires KeyedSubscriptions(c) && key in c.subscriptions
    ensures Effect(c, Advance(c, key, messages, last, stream), key, stream)
    ensures Advance(c, key, messages, last, stream).subscriptions.Keys == c.subscriptions.Keys
  {
    var sub := c.subscriptions[key];
    var updated := sub.(last := Some(last), delivered := sub.delivered + messages);
    var c1 := c.(subscriptions := c.subscriptions[key := updated]);
    AskEffect(c1, key, sub.mode, Some(Successor(last)), stream);
    var c2 := Submit(c1, sub.request, sub.mode, Some(Successor(last)), stream);
    assert Opened(c1, c2, key, stream) ==> Opened(c, c2, key, stream);
    TellEffect(c, c2, key, stream, Report(key, messages));
  }

  lemma ResumeEffect(c: Client, key: Key, next: Option<u64>, stream: Option<nat>)
    requires KeyedSubscriptions(c)
    ensures Effect(c, Resume(c, key, next, stream), key, stream)
    ensures Resume(c, key, next, stream).subscriptions == c.subscriptions
  {
    if key in c.subscriptions {
      AskEffect(c, key, NextMode, next, stream);
      TellEffect(c, Submit(c, c.subscriptions[key].request, NextMode, next, stream), key, stream, [Problem(key)]);
    }
  }

  lemma BatchEffect(c: Client, key: Key, parts: seq<BatchPart>, stream: Option<nat>)
    requires KeyedSubscriptions(c) && parts != []
    ensures Effect(c, HandleBatch(c, key, parts, stream), key, stream)
    ensures HandleBatch(c, key, parts, stream).subscriptions.Keys == c.subscriptions.Keys
  {
    if key in c.subscriptions {
      var sub := c.subscriptions[key];
      if Readable(sub.last, parts, ReadableTopic) {
        BatchEqualsOneByOne(sub.last, parts);
        var all := DeliverAll(sub.last, parts);
        AdvanceEffect(c, key, all.messages, all.last.value, stream);
      } else {
        var index := parts[|parts| - 1].index;
        ResumeEffect(c, key, if index < U64_LIMIT - 1 then Some(index + 1) else None, stream);
      }
    }
  }

  lemma SampleEffect(c: Client, key: Key, sample: BatchPart, hasError: bool, stream: Option<nat>)
    requires KeyedSubscriptions(c)
    ensures Effect(c, HandleSample(c, key, sample, hasError, stream), key, stream)
    ensures HandleSample(c, key, sample, hasError, stream).subscriptions.Keys == c.subscriptions.Keys
  {
    if key in c.subscriptions {
      var sub := c.subscriptions[key];
      if !hasError && IsDuplicate(sub.last, sample.index) {
        AskEffect(c, key, sub.mode, Some(Successor(sub.last.value)), stream);
      } else {
        var skipped := if hasError then 0 else Skipped(sub.last, sample.index);
        AdvanceEffect(c, key, [Delivered(sample, skipped)], sample.index, stream);
      }
    }
  }

  lemma SubscribedEffect(c: Client, q: Request, r: Response, stream: Option<nat>)
    requires KeyedSubscriptions(c)
    ensures Effect(c, HandleSubscribed(c, q, r, stream), q.key, stream)
  {
    if !HasError(r.status) && q.command.batch {
      if Decode(r.payload).Ok? {
        BatchGrammar.AcceptedIsConsecutive(r.payload);
        BatchEffect(c, q.key, Decode(r.payload).value, stream);
      } else {
        ResumeEffect(c, q.key, None, stream);
      }
    } else if r.index.Some? && !(HasError(r.status) && q.command.batch) {
      SampleEffect(c, q.key, BatchPart(r.index.value, r.topic, r.serviceName, r.payload),
                   HasError(r.status), stream);
    }
  }

  lemma ResponseEffect(c: Client, q: Request, r: Response, stream: Option<nat>)
    requires KeyedSubscriptions(c) && q.key == q.command.key
    ensures Effect(c, HandleResponse(c, q, r, stream), q.key, stream)
    ensures q.command.kind != Subscribe ==>
              HandleResponse(c, q, r, stream).subscriptions == c.subscriptions
  {
    if Redirects(r) {
      var index := if r.status == 302 then r.redirect else r.index;
      if index.Some? && q.key in c.subscriptions {
        AskEffect(c, q.key, c.subscriptions[q.key].mode, index, stream);
      }
    } else if q.command.kind == Subscribe {
      SubscribedEffect(c, q, r, stream);
    }
  }

  // ----- one stream per subscription ---------------------------------------------------------------

  lemma DropKeyed(c: Client, c': Client, id: nat, key: Key, stream: Option<nat>)
    requires Keyed(c) && Effect(c, c', key, stream)
    ensures Keyed(Forget(c', id))
  {
  }

  lemma DropPolls(c: Client, c': Client, id: nat, key: Key, stream: Option<nat>, a: nat, k: Key)
    requires Effect(c, c', key, stream) && Polls(Forget(c', id), a, k)
    ensures a != id
    ensures Polls(c, a, k) || (Opened(c, c', key, stream) && a == stream.value && k == key)
  {
  }

  lemma DropOneStream(c: Client, c': Client, id: nat, key: Key, stream: Option<nat>, a: nat, b: nat, k: Key)
    requires OneStream(c) && Effect(c, c', key, stream)
    requires stream.Some? ==> stream.value !in c.requests
    requires Opened(c, c', key, stream) ==>
               Polls(c, id, key) || forall other | other in c.requests :: !Polls(c, other, key)
    requires Polls(Forget(c', id), a, k) && Polls(Forget(c', id), b, k)
    ensures a == b
  {
    DropPolls(c, c', id, key, stream, a, k);
    DropPolls(c, c', id, key, stream, b, k);
  }

  lemma DropAnchored(c: Client, c': Client, id: nat, key: Key, stream: Option<nat>, a: nat, k: Key)
    requires OneStream(c) && Anchored(c) && Effect(c, c', key, stream)
    requires stream.Some? ==> stream.value !in c.requests
    requires Ended(c, c', key) ==> Polls(c, id, key)
    requires Polls(Forget(c', id), a, k)
    ensures k in c'.subscriptions
  {
    DropPolls(c, c', id, key, stream, a, k);
  }

  lemma DropKeepsInv(c: Client, c': Client, id: nat, key: Key, stream: Option<nat>)
    requires Inv(c) && id in c.requests && c.requests[id].key == key
    requires stream.Some? ==> stream.value !in c.requests
    requires Effect(c, c', key, stream)
    requires Ended(c, c', key) ==> Polls(c, id, key)
    requires Opened(c, c', key, stream) ==>
               Polls(c, id, key) || forall other | other in c.requests :: !Polls(c, other, key)
    ensures Inv(Forget(c', id))
  {
    DropKeyed(c, c', id, key, stream);
    forall a: nat, b: nat, k | Polls(Forget(c', id), a, k) && Polls(Forget(c', id), b, k) ensures a == b {
      DropOneStream(c, c', id, key, stream, a, b, k);
    }
    forall a: nat, k | Polls(Forget(c', id), a, k) ensures k in c'.subscriptions {
      DropAnchored(c, c', id, key, stream, a, k);
    }
  }

  lemma AskOpens(c: Client, key: Key, index: u64, stream: Option<nat>)
    requires KeyedSubscriptions(c) && key in c.subscriptions && stream.Some?
    ensures Opened(c, SendLongPoll(c, key, index, stream), key, stream)
  {
  }

  lemma SecondStream(c: Client, c': Client, id: nat, other: nat, key: Key, stream: Option<nat>)
    requires Opened(c, c', key, stream) && stream.value !in c.requests
    requires id in c.requests && id != other && Polls(c, other, key)
    ensures !OneStream(Forget(c', id))
  {
    assert Polls(Forget(c', id), other, key) && Polls(Forget(c', id), stream.value, key);
  }

  lemma MisroutedOpensSecond(c: Client, id: nat, r: Response, stream: Option<nat>)
    requires Inv(c) && Misrouted(c, id, r, stream) && stream.value !in c.requests
    ensures !OneStream(Process(c, id, r, stream))
  {
    var q := c.requests[id];
    var other :| other in c.requests && Polls(c, other, q.key);
    var index := if r.status == 302 then r.redirect.value else r.index.value;
    AskOpens(c, q.key, index, stream);
    SecondStream(c, SendLongPoll(c, q.key, index, stream), id, other, q.key, stream);
  }

  /** A response keeps the streams in order exactly when it is not misrouted. */
  lemma ProcessKeepsInvIff(c: Client, id: nat, r: Response, stream: Option<nat>)
    requires Inv(c) && (stream.Some? ==> stream.value !in c.requests)
    ensures Inv(Process(c, id, r, stream)) <==> !Misrouted(c, id, r, stream)
  {
    if Misrouted(c, id, r, stream) {
      MisroutedOpensSecond(c, id, r, stream);
    } else if id in c.requests {
      var q := c.requests[id];
      var c' := HandleResponse(c, q, r, stream);
      ResponseEffect(c, q, r, stream);
      PlainRequestOpensNothing(c, id, r, stream);
      DropKeepsInv(c, c', id, q.key, stream);
    }
  }

  lemma PlainRequestOpensNothing(c: Client, id: nat, r: Response, stream: Option<nat>)
    requires Inv(c) && id in c.requests && !Misrouted(c, id, r, stream)
    requires stream.Some? ==> stream.value !in c.requests
    ensures var q := c.requests[id];
            var c' := HandleResponse(c, q, r, stream);
            && (Ended(c, c', q.key) ==> Polls(c, id, q.key))
            && (Opened(c, c', q.key, stream) ==>
                  Polls(c, id, q.key) || forall other | other in c.requests :: !Polls(c, other, q.key))
  {
    var q := c.requests[id];
    if q.command.kind != Subscribe {
      ResponseEffect(c, q, r, stream);
    }
  }

  /** The key that a start uses: that of the topic itself, or of the one without its index. */
  predicate StartsUnder(topic: MdpTopic, order: seq<UriQuery.Entry>, key: Key)
    requires CanTake(topic, order)
  {
    key == if INDEX_PARAMETER in UriQuery.MapOf(topic.params) then SubscriptionKey(MdpTopic(topic.path, order))
           else SubscriptionKey(topic)
  }

  /** A start that is neither malformed nor for an invalid service. */
  predicate Begins(e: Event, key: Key) {
    && e.Starts? && CanTake(e.topic, e.order) && HasTopic(e.topic)
    && TakeInitialIndex(e.topic, e.mode, e.order).Some? && StartsUnder(e.topic, e.order, key)
  }

  lemma BeginPolls(c: Client, command: Command, mode: Mode, index: Option<u64>, stream: Option<nat>, id: nat, k: Key)
    requires Polls(Begin(c, command, mode, index, stream), id, k)
    ensures Polls(c, id, k)
            || (Some(id) == stream && k == command.key && k !in c.subscriptions
                && k in Begin(c, command, mode, index, stream).subscriptions)
  {
  }

  lemma NewKeyed(c: Client, command: Command, mode: Mode, index: Option<u64>, stream: Option<nat>)
    requires Keyed(c) && command.kind == Subscribe && command.key !in c.subscriptions
    ensures Keyed(Begin(c, command, mode, index, stream))
    ensures c.subscriptions.Keys <= Begin(c, command, mode, index, stream).subscriptions.Keys
  {
    var d := Begin(c, command, mode, index, stream);
    forall k | k in d.subscriptions ensures d.subscriptions[k].request.kind == Subscribe && d.subscriptions[k].request.key == k {
      assert k == command.key || k in c.subscriptions;
    }
    forall id | id in d.requests ensures d.requests[id].key == d.requests[id].command.key {
      assert id in c.requests || Some(id) == stream;
    }
  }

  lemma BeginKeyed(c: Client, command: Command, mode: Mode, index: Option<u64>, stream: Option<nat>)
    requires Keyed(c) && command.kind == Subscribe
    ensures Keyed(Begin(c, command, mode, index, stream))
    ensures c.subscriptions.Keys <= Begin(c, command, mode, index, stream).subscriptions.Keys
  {
    if command.key !in c.subscriptions {
      NewKeyed(c, command, mode, index, stream);
    }
  }

  lemma BeginKeepsInv(c: Client, command: Command, mode: Mode, index: Option<u64>, stream: Option<nat>)
    requires Inv(c) && command.kind == Subscribe && (stream.Some? ==> stream.value !in c.requests)
    ensures Inv(Begin(c, command, mode, index, stream))
  {
    var d := Begin(c, command, mode, index, stream);
    BeginKeyed(c, command, mode, index, stream);
    forall id: nat, k | Polls(d, id, k)
      ensures Polls(c, id, k) || (Some(id) == stream && k == command.key && k !in c.subscriptions && k in d.subscriptions)
    {
      BeginPolls(c, command, mode, index, stream, id, k);
    }
  }

  lemma TellKeepsInv(c: Client, news: seq<Notice>)
    requires Inv(c)
    ensures Inv(Tell(c, news))
  {
    assert forall id, key :: Polls(Tell(c, news), id, key) <==> Polls(c, id, key);
  }

  /** A start is ignored, refused, or begins a subscription under the key of the topic without its index. */
  lemma StartCases(c: Client, e: Event) returns (command: Command, mode: Mode, index: Option<u64>, refused: Key)
    requires e.Starts?
    ensures command.kind == Subscribe
    ensures forall key | Begins(e, key) :: key == command.key
    ensures if Begins(e, command.key) then Step(c, e) == Begin(c, command, mode, index, e.stream)
            else Step(c, e) == c || Step(c, e) == Tell(c, [Refusal(refused)])
  {
    command, mode, index := NewCommand(Subscribe, e.topic), e.mode, None;
    refused := SubscriptionKey(e.topic);
    if CanTake(e.topic, e.order) {
      var taken := TakeInitialIndex(e.topic, e.mode, e.order);
      if taken.Some? {
        command, mode, index := NewCommand(Subscribe, taken.value.topic), taken.value.mode, taken.value.index;
      }
    }
  }

  lemma StartKeepsInv(c: Client, e: Event)
    requires Inv(c) && e.Starts? && (e.stream.Some? ==> e.stream.value !in c.requests)
    ensures Inv(Step(c, e))
  {
    var command, mode, index, refused := StartCases(c, e);
    BeginKeepsInv(c, command, mode, index, e.stream);
    TellKeepsInv(c, [Refusal(refused)]);
  }

  lemma StopKeepsInv(c: Client, key: Key)
    requires Inv(c)
    ensures Inv(StopKey(c, key))
  {
    var d := StopKey(c, key);
    forall id: nat, k | Polls(d, id, k) ensures Polls(c, id, k) && (key in c.subscriptions ==> k != key) {
    }
  }

  predicate Unmisrouted(c: Client, e: Event) {
    e.Responds? ==> !Misrouted(c, e.id, e.response, e.stream)
  }

  lemma StepKeepsInv(c: Client, e: Event)
    requires Inv(c) && Enabled(c, e) && Unmisrouted(c, e)
    ensures Inv(Step(c, e))
  {
    match e
    case Starts(_, _, _, _) => StartKeepsInv(c, e);
    case Stops(topic) => StopKeepsInv(c, SubscriptionKey(topic));
    case Sends(_, _, _) =>
      assert forall id, key :: Polls(Step(c, e), id, key) <==> Polls(c, id, key);
    case Responds(id, response, stream) => ProcessKeepsInvIff(c, id, response, stream);
    case Closes(id) =>
      assert forall other, key :: Polls(Step(c, e), other, key) ==> Polls(c, other, key);
  }

  predicate Routed(c: Client, run: seq<Event>)
    decreases |run|
  {
    run == [] || (Unmisrouted(c, run[0]) && Routed(Step(c, run[0]), run[1..]))
  }

  /**
   Over every run without misrouted responses each key has at most one long-poll stream between
   handler executions, and every long-poll stream belongs to a live subscription.
   */
  lemma {:induction false} RunKeepsOneStream(c: Client, run: seq<Event>)
    requires Inv(c) && Executable(c, run) && Routed(c, run)
    ensures Inv(Run(c, run))
    decreases |run|
  {
    if run != [] {
      StepKeepsInv(c, run[0]);
      RunKeepsOneStream(Step(c, run[0]), run[1..]);
    }
  }

  lemma RunsFromStart(run: seq<Event>)
    requires Executable(INITIAL, run) && Routed(INITIAL, run)
    ensures OneStream(Run(INITIAL, run)) && Anchored(Run(INITIAL, run))
  {
    RunKeepsOneStream(INITIAL, run);
  }

  lemma RunThree(c: Client, a: Event, b: Event, d: Event)
    ensures Enabled(c, a) && Enabled(Step(c, a), b) && Enabled(Step(Step(c, a), b), d) ==> Executable(c, [a, b, d])
    ensures Run(c, [a, b, d]) == Step(Step(Step(c, a), b), d)
  {
    var c1, c2 := Step(c, a), Step(Step(c, a), b);
    assert [a, b, d][1..] == [b, d] && [b, d][1..] == [d] && [d][1..] == [];
    assert Enabled(c2, d) ==> Executable(c2, [d]);
    assert Run(c2, [d]) == Step(c2, d);
    assert Enabled(c1, b) && Executable(c2, [d]) ==> Executable(c1, [b, d]);
    assert Run(c1, [b, d]) == Run(c2, [d]);
  }

  lemma BareKeys(path: string)
    ensures SubscriptionKey(MdpTopic(path, [])) == RequestKey(MdpTopic(path, []))
  {
    var none: seq<UriQuery.Entry> := [];
    assert Remaining(none) == none && UriQuery.Rebuilt(none) == none;
  }

  lemma GetThenStart(topic: MdpTopic, redirect: Response)
    requires topic.params == [] && HasTopic(topic) && redirect.status == 302 && redirect.redirect.Some?
    ensures var c := Step(INITIAL, Sends(Get, topic, Some(1)));
            var d := Step(c, Starts(topic, NextMode, [], Some(2)));
            && 2 !in c.requests && 3 !in d.requests && Inv(d) && Misrouted(d, 1, redirect, Some(3))
  {
    var a, b := Sends(Get, topic, Some(1)), Starts(topic, NextMode, [], Some(2));
    var c := Step(INITIAL, a);
    StepKeepsInv(INITIAL, a);
    StepKeepsInv(c, b);
    BareKeys(topic.path);
    assert Polls(Step(c, b), 2, SubscriptionKey(topic));
  }

  /** A misrouted response is possible: a redirect that answers a GET for a subscribed topic. */
  lemma RedirectedGetOpensSecond(path: string)
    requires HasTopic(MdpTopic(path, []))
    ensures var topic := MdpTopic(path, []);
            var run := [Sends(Get, topic, Some(1)), Starts(topic, NextMode, [], Some(2)),
                        Responds(1, Response(302, Some(7), None, "", "", ""), Some(3))];
            Executable(INITIAL, run) && !OneStream(Run(INITIAL, run))
  {
    var topic := MdpTopic(path, []);
    var redirect := Response(302, Some(7), None, "", "", "");
    var a, b := Sends(Get, topic, Some(1)), Starts(topic, NextMode, [], Some(2));
    GetThenStart(topic, redirect);
    MisroutedOpensSecond(Step(Step(INITIAL, a), b), 1, redirect, Some(3));
    RunThree(INITIAL, a, b, Responds(1, redirect, Some(3)));
  }

  /** A start that takes out its index goes under the key of the topic as it is rebuilt. */
  lemma FirstStart(topic: MdpTopic, mode: Mode, order: seq<UriQuery.Entry>, key: Key)
    requires Begins(Starts(topic, mode, order, Some(1)), key)
    ensures var c := Step(INITIAL, Starts(topic, mode, order, Some(1)));
            c.subscriptions.Keys == {key} && Polls(c, 1, key)
  {
    var command, taken, index, refused := StartCases(INITIAL, Starts(topic, mode, order, Some(1)));
  }

  /**
   A topic with a single bare key that needs encoding, and an index: the stop finds no subscription,
   and the one that was started stays alive and polls on.
   */
  lemma BareKeyIsNotStopped(topic: MdpTopic, key: string, mode: Mode, order: seq<UriQuery.Entry>, live: Key)
    requires UriQuery.Entries(topic.params) && Uri.IsBytes(key) && key != "" && !PlainKey(key)
    requires INDEX_PARAMETER in UriQuery.MapOf(topic.params)
    requires UriQuery.MapOf(topic.params) - {INDEX_PARAMETER} == map[key := None]
    requires Begins(Starts(topic, mode, order, Some(1)), live)
    ensures var c := Step(Step(INITIAL, Starts(topic, mode, order, Some(1))), Stops(topic));
            live in c.subscriptions && Polls(c, 1, live)
  {
    FirstStart(topic, mode, order, live);
    SubscriptionStop.BareKeyLosesStop(topic.path, key, topic.params, topic.params, order, topic.params);
  }

  // ----- keys over every run --------------------------------------------------------------------------

  lemma ProcessKeepsKeyed(c: Client, id: nat, r: Response, stream: Option<nat>)
    requires Keyed(c)
    ensures Keyed(Process(c, id, r, stream))
  {
    if id in c.requests {
      var q := c.requests[id];
      ResponseEffect(c, q, r, stream);
      DropKeyed(c, HandleResponse(c, q, r, stream), id, q.key, stream);
    }
  }

  /** Whatever happens, requests and subscriptions are filed under the keys of their topics. */
  lemma StepKeepsKeyed(c: Client, e: Event)
    requires Keyed(c)
    ensures Keyed(Step(c, e))
  {
    match e
    case Starts(_, _, _, _) =>
      var command, mode, index, refused := StartCases(c, e);
      BeginKeyed(c, command, mode, index, e.stream);
    case Responds(id, response, stream) => ProcessKeepsKeyed(c, id, response, stream);
    case _ =>
  }

  // ----- silence after a stop -------------------------------------------------------------------------

  predicate Concerns(n: Notice, key: Key) {
    n.key == key && (n.Sample? || n.Problem?)
  }

  ghost predicate Silent(c: Client, c': Client, key: Key) {
    && c.notices <= c'.notices
    && forall i | |c.notices| <= i < |c'.notices| :: !Concerns(c'.notices[i], key)
  }

  /** Nobody subscribes to the key and no stream polls for it. */
  ghost predicate Quiet(c: Client, key: Key) {
    key !in c.subscriptions && forall id: nat :: !Polls(c, id, key)
  }

  lemma ProcessIsQuiet(c: Client, id: nat, r: Response, stream: Option<nat>, key: Key)
    requires Keyed(c) && Quiet(c, key)
    ensures Quiet(Process(c, id, r, stream), key) && Silent(c, Process(c, id, r, stream), key)
  {
    if id in c.requests {
      var q := c.requests[id];
      ResponseEffect(c, q, r, stream);
      if q.key == key {
        assert Polls(c, id, key) <==> q.command.kind == Subscribe;
      }
      forall other: nat | Polls(Process(c, id, r, stream), other, key) ensures Polls(c, other, key) {
        DropPolls(c, HandleResponse(c, q, r, stream), id, q.key, stream, other, key);
      }
    }
  }

  lemma BeginIsQuiet(c: Client, command: Command, mode: Mode, index: Option<u64>, stream: Option<nat>, key: Key)
    requires Quiet(c, key) && command.key != key
    ensures Quiet(Begin(c, command, mode, index, stream), key) && Silent(c, Begin(c, command, mode, index, stream), key)
  {
    forall id: nat | Polls(Begin(c, command, mode, index, stream), id, key) ensures Polls(c, id, key) {
      BeginPolls(c, command, mode, index, stream, id, key);
    }
  }

  lemma StartIsQuiet(c: Client, e: Event, key: Key)
    requires Quiet(c, key) && e.Starts? && !Begins(e, key)
    ensures Quiet(Step(c, e), key) && Silent(c, Step(c, e), key)
  {
    var command, mode, index, refused := StartCases(c, e);
    if command.key != key {
      BeginIsQuiet(c, command, mode, index, e.stream, key);
    }
    assert forall id: nat :: Polls(Tell(c, [Refusal(refused)]), id, key) == Polls(c, id, key);
  }

  lemma StepIsQuiet(c: Client, e: Event, key: Key)
    requires Keyed(c) && Quiet(c, key) && Enabled(c, e) && !Begins(e, key)
    ensures Quiet(Step(c, e), key) && Silent(c, Step(c, e), key)
  {
    match e
    case Starts(_, _, _, _) => StartIsQuiet(c, e, key);
    case Responds(id, response, stream) => ProcessIsQuiet(c, id, response, stream, key);
    case _ => assert forall id: nat :: Polls(Step(c, e), id, key) ==> Polls(c, id, key);
  }

  /** Nothing is delivered for a key that is quiet until it is started again, in any run. */
  lemma {:induction false} SilentUntilRestart(c: Client, run: seq<Event>, key: Key)
    requires Keyed(c) && Quiet(c, key) && Executable(c, run)
    requires forall i | 0 <= i < |run| :: !Begins(run[i], key)
    ensures Quiet(Run(c, run), key) && Silent(c, Run(c, run), key)
    decreases |run|
  {
    if run != [] {
      StepIsQuiet(c, run[0], key);
      StepKeepsKeyed(c, run[0]);
      SilentUntilRestart(Step(c, run[0]), run[1..], key);
    }
  }

  lemma StopQuiets(c: Client, key: Key)
    requires key in c.subscriptions
    ensures Quiet(StopKey(c, key), key) && StopKey(c, key).notices == c.notices
    ensures Keyed(c) ==> Keyed(StopKey(c, key))
  {
  }

  /** Stopping a subscription takes effect at once, whatever is still on its way, in any run. */
  lemma NothingAfterStop(c: Client, topic: MdpTopic, stopped: Client, run: seq<Event>)
    requires Keyed(c) && HasTopic(topic) && SubscriptionKey(topic) in c.subscriptions
    requires stopped == Step(c, Stops(topic)) && Executable(stopped, run)
    requires forall i | 0 <= i < |run| :: !Begins(run[i], SubscriptionKey(topic))
    ensures stopped.notices == c.notices && Silent(stopped, Run(stopped, run), SubscriptionKey(topic))
  {
    var key := SubscriptionKey(topic);
    assert stopped == StopKey(c, key);
    StopQuiets(c, key);
    SilentUntilRestart(stopped, run, key);
  }

  // ----- subscriptions without a stream --------------------------------------------------------------------

  ghost predicate Served(c: Client, key: Key) {
    exists id: nat :: Polls(c, id, key)
  }

  /** The response ends the subscription: an error, or a sample without an index. */
  predicate EndsIt(q: Request, r: Response) {
    && !Redirects(r) && (HasError(r.status) || !q.command.batch)
    && (r.index.None? || (HasError(r.status) && q.command.batch))
  }

  /**
   What leaves a live subscription without a stream: its stream is closed or redirected to where
   no index can be read, or the library refuses the next request.
   */
  predicate Stalls(c: Client, e: Event, key: Key) {
    match e
    case Starts(_, _, _, stream) => Begins(e, key) && key !in c.subscriptions && stream.None?
    case Closes(id) => Polls(c, id, key)
    case Responds(id, r, stream) =>
      && Polls(c, id, key)
      && ((r.status == 302 && r.redirect.None?) || (stream.None? && !EndsIt(c.requests[id], r)))
    case _ => false
  }

  lemma SubmitServes(c: Client, key: Key, mode: Mode, index: Option<u64>, stream: Option<nat>, c': Client)
    requires KeyedSubscriptions(c) && key in c.subscriptions
    requires c'.requests == Submit(c, c.subscriptions[key].request, mode, index, stream).requests
    ensures stream.Some? ==> Polls(c', stream.value, key)
    ensures stream.None? ==> c'.requests == c.requests
  {
  }

  /** The handler of a subscription ends it, or keeps it and asks for the next sample. */
  lemma SubscribedServes(c: Client, q: Request, r: Response, stream: Option<nat>)
    requires KeyedSubscriptions(c) && q.key in c.subscriptions && !Redirects(r)
    ensures var c' := HandleSubscribed(c, q, r, stream);
            && (q.key in c'.subscriptions <==> !EndsIt(q, r))
            && (EndsIt(q, r) || stream.None? ==> c'.requests == c.requests)
            && (!EndsIt(q, r) && stream.Some? ==> Polls(c', stream.value, q.key))
  {
    var c', sub := HandleSubscribed(c, q, r, stream), c.subscriptions[q.key];
    SubscribedEffect(c, q, r, stream);
    if !EndsIt(q, r) {
      if !HasError(r.status) && q.command.batch {
        BatchServes(c, q, r, stream);
      } else if !HasError(r.status) && IsDuplicate(sub.last, r.index.value) {
        SubmitServes(c, q.key, sub.mode, Some(Successor(sub.last.value)), stream, c');
      } else {
        SubmitServes(c, q.key, sub.mode, Some(Successor(r.index.value)), stream, c');
      }
    }
  }

  lemma BatchServes(c: Client, q: Request, r: Response, stream: Option<nat>)
    requires KeyedSubscriptions(c) && q.key in c.subscriptions && !HasError(r.status) && q.command.batch
    ensures var c' := HandleSubscribed(c, q, r, stream);
            && q.key in c'.subscriptions
            && (stream.None? ==> c'.requests == c.requests)
            && (stream.Some? ==> Polls(c', stream.value, q.key))
  {
    var c', sub := HandleSubscribed(c, q, r, stream), c.subscriptions[q.key];
    var parts := Decode(r.payload);
    if parts.Err? {
      SubmitServes(c, q.key, NextMode, None, stream, c');
    } else {
      BatchGrammar.AcceptedIsConsecutive(r.payload);
      PartsServe(c, q.key, parts.value, stream);
    }
  }

  lemma PartsServe(c: Client, key: Key, parts: seq<BatchPart>, stream: Option<nat>)
    requires KeyedSubscriptions(c) && key in c.subscriptions && parts != []
    ensures var c' := HandleBatch(c, key, parts, stream);
            && key in c'.subscriptions
            && (stream.None? ==> c'.requests == c.requests)
            && (stream.Some? ==> Polls(c', stream.value, key))
  {
    var c', sub := HandleBatch(c, key, parts, stream), c.subscriptions[key];
    if Readable(sub.last, parts, ReadableTopic) {
      BatchEqualsOneByOne(sub.last, parts);
      SubmitServes(c, key, sub.mode, Some(Successor(DeliverAll(sub.last, parts).last.value)), stream, c');
    } else {
      var index := parts[|parts| - 1].index;
      SubmitServes(c, key, NextMode, if index < U64_LIMIT - 1 then Some(index + 1) else None, stream, c');
    }
  }

  /** A response on the stream of a subscription: does the key stay, and has it a new stream? */
  lemma ResponseServes(c: Client, q: Request, r: Response, stream: Option<nat>)
    requires KeyedSubscriptions(c) && q.key in c.subscriptions && q.command.kind == Subscribe
    ensures var c' := HandleResponse(c, q, r, stream);
            var asks := !EndsIt(q, r) && !(r.status == 302 && r.redirect.None?);
            && (q.key in c'.subscriptions <==> !EndsIt(q, r))
            && (!asks || stream.None? ==> c'.requests == c.requests)
            && (asks && stream.Some? ==> Polls(c', stream.value, q.key))
  {
    var c', sub := HandleResponse(c, q, r, stream), c.subscriptions[q.key];
    if Redirects(r) {
      var index := if r.status == 302 then r.redirect else r.index;
      if index.Some? {
        SubmitServes(c, q.key, sub.mode, index, stream, c');
      }
    } else {
      SubscribedServes(c, q, r, stream);
    }
  }

  lemma RespondsStallsIff(c: Client, id: nat, r: Response, stream: Option<nat>, key: Key)
    requires Inv(c) && (stream.Some? ==> stream.value !in c.requests) && Polls(c, id, key)
    ensures var c' := Process(c, id, r, stream);
            key in c'.subscriptions && !Served(c', key) <==> Stalls(c, Responds(id, r, stream), key)
  {
    var q := c.requests[id];
    var c', d := HandleResponse(c, q, r, stream), Process(c, id, r, stream);
    ResponseEffect(c, q, r, stream);
    ResponseServes(c, q, r, stream);
    forall other: nat | Polls(d, other, key) ensures Some(other) == stream && Polls(c', other, key) {
      DropPolls(c, c', id, key, stream, other, key);
    }
    if stream.Some? && Polls(c', stream.value, key) {
      assert Polls(d, stream.value, key);
    }
  }

  lemma OthersStayServed(c: Client, id: nat, r: Response, stream: Option<nat>, key: Key)
    requires Inv(c) && (stream.Some? ==> stream.value !in c.requests) && !Polls(c, id, key)
    requires key in c.subscriptions && Served(c, key)
    ensures Served(Process(c, id, r, stream), key)
  {
    var other: nat :| Polls(c, other, key);
    if id in c.requests {
      ResponseEffect(c, c.requests[id], r, stream);
    }
    assert Polls(Process(c, id, r, stream), other, key);
  }

  lemma ProcessAddsNoKey(c: Client, id: nat, r: Response, stream: Option<nat>, key: Key)
    requires Inv(c) && key !in c.subscriptions
    ensures key !in Process(c, id, r, stream).subscriptions
  {
    if id in c.requests {
      ResponseEffect(c, c.requests[id], r, stream);
    }
  }

  lemma StartStallsIff(c: Client, e: Event, key: Key)
    requires Inv(c) && Enabled(c, e) && e.Starts? && (key in c.subscriptions ==> Served(c, key))
    ensures key in Step(c, e).subscriptions && !Served(Step(c, e), key) <==> Stalls(c, e, key)
  {
    var c' := Step(c, e);
    if key in c.subscriptions {
      var other: nat :| Polls(c, other, key);
      assert Polls(c', other, key) by { StartKeepsStreams(c, e, other, key); }
    } else {
      StartOpens(c, e, key);
    }
  }

  lemma StartKeepsStreams(c: Client, e: Event, id: nat, key: Key)
    requires Enabled(c, e) && e.Starts? && Polls(c, id, key)
    ensures Polls(Step(c, e), id, key)
  {
    var command, mode, index, refused := StartCases(c, e);
  }

  lemma StartOpens(c: Client, e: Event, key: Key)
    requires Inv(c) && Enabled(c, e) && e.Starts? && key !in c.subscriptions
    ensures key in Step(c, e).subscriptions <==> Begins(e, key)
    ensures Begins(e, key) ==> (Served(Step(c, e), key) <==> e.stream.Some?)
  {
    var command, mode, index, refused := StartCases(c, e);
    if Begins(e, command.key) && command.key == key {
      BeginServes(c, command, mode, index, e.stream);
    }
  }

  lemma BeginServes(c: Client, command: Command, mode: Mode, index: Option<u64>, stream: Option<nat>)
    requires Anchored(c) && command.kind == Subscribe && command.key !in c.subscriptions
    ensures Served(Begin(c, command, mode, index, stream), command.key) <==> stream.Some?
    ensures command.key in Begin(c, command, mode, index, stream).subscriptions
  {
    var d := Begin(c, command, mode, index, stream);
    if stream.Some? {
      assert Polls(d, stream.value, command.key);
    } else {
      forall id: nat ensures !Polls(d, id, command.key) {
        assert Polls(d, id, command.key) ==> Polls(c, id, command.key);
      }
    }
  }

  /** A step leaves a live subscription without a stream exactly in these cases. */
  lemma StallsIff(c: Client, e: Event, key: Key)
    requires Inv(c) && Enabled(c, e) && (key in c.subscriptions ==> Served(c, key))
    ensures key in Step(c, e).subscriptions && !Served(Step(c, e), key) <==> Stalls(c, e, key)
  {
    var c' := Step(c, e);
    match e
    case Starts(_, _, _, _) => StartStallsIff(c, e, key);
    case Responds(id, r, stream) =>
      if Polls(c, id, key) {
        RespondsStallsIff(c, id, r, stream, key);
      } else if key in c.subscriptions {
        OthersStayServed(c, id, r, stream, key);
      } else {
        ProcessAddsNoKey(c, id, r, stream, key);
      }
    case Closes(id) =>
      if Polls(c, id, key) {
        assert forall other: nat :: Polls(c', other, key) ==> Polls(c, other, key) && other != id;
      } else if key in c.subscriptions {
        var other: nat :| Polls(c, other, key);
        assert Polls(c', other, key);
      }
    case _ =>
      if key in c'.subscriptions {
        var other: nat :| Polls(c, other, key);
        assert Polls(c', other, key);
      }
  }

  /** A redirect or time-out of a plain request for the same topic, answered with a new stream. */
  predicate Reopens(c: Client, e: Event, key: Key) {
    && e.Responds? && e.id in c.requests && c.requests[e.id].command.kind != Subscribe && c.requests[e.id].key == key
    && Redirects(e.response) && (e.response.status == 302 ==> e.response.redirect.Some?) && e.stream.Some?
  }

  /** A subscription without a stream gets one again only by accident: starting it anew polls nothing. */
  lemma StalledUntilReopened(c: Client, e: Event, key: Key)
    requires Inv(c) && Enabled(c, e) && key in c.subscriptions && !Served(c, key)
    ensures Served(Step(c, e), key) <==> Reopens(c, e, key)
  {
    var c' := Step(c, e);
    match e
    case Responds(id, r, stream) => ProcessReopensIff(c, id, r, stream, key);
    case Starts(_, _, _, _) =>
      var command, mode, index, refused := StartCases(c, e);
      forall id: nat ensures !Polls(c', id, key) {
        if c' == Begin(c, command, mode, index, e.stream) && Polls(c', id, key) {
          BeginPolls(c, command, mode, index, e.stream, id, key);
        }
        assert Polls(Tell(c, [Refusal(refused)]), id, key) == Polls(c, id, key);
      }
    case _ => assert forall id: nat :: Polls(c', id, key) ==> Polls(c, id, key);
  }

  lemma ProcessReopensIff(c: Client, id: nat, r: Response, stream: Option<nat>, key: Key)
    requires Inv(c) && (stream.Some? ==> stream.value !in c.requests)
    requires key in c.subscriptions && !Served(c, key)
    ensures Served(Process(c, id, r, stream), key) <==> Reopens(c, Responds(id, r, stream), key)
  {
    var d := Process(c, id, r, stream);
    if id in c.requests {
      var q := c.requests[id];
      var c' := HandleResponse(c, q, r, stream);
      ResponseEffect(c, q, r, stream);
      assert !Polls(c, id, key);
      if Reopens(c, Responds(id, r, stream), key) {
        AskOpens(c, key, if r.status == 302 then r.redirect.value else r.index.value, stream);
        assert Polls(d, stream.value, key);
      } else {
        forall other: nat | Polls(d, other, key) ensures Polls(c, other, key) {
          DropPolls(c, c', id, q.key, stream, other, key);
          if q.key == key {
            assert q.command.kind != Subscribe;
            assert c'.requests == c.requests;
          }
        }
      }
    }
  }

  lemma RunTwo(c: Client, a: Event, b: Event)
    ensures Enabled(c, a) && Enabled(Step(c, a), b) ==> Executable(c, [a, b])
    ensures Run(c, [a, b]) == Step(Step(c, a), b)
  {
    assert [a, b][1..] == [b] && [b][1..] == [];
    assert Run(Step(c, a), [b]) == Step(Step(c, a), b);
  }

  lemma BareStart(topic: MdpTopic, stream: Option<nat>)
    requires topic.params == [] && HasTopic(topic)
    ensures Begins(Starts(topic, NextMode, [], stream), SubscriptionKey(topic))
  {
  }

  /** A subscription whose first request is refused stays without a stream when it is started again. */
  lemma RefusedStartStalls(topic: MdpTopic)
    requires topic.params == [] && HasTopic(topic)
    ensures var run := [Starts(topic, NextMode, [], None), Starts(topic, NextMode, [], Some(1))];
            var key := SubscriptionKey(topic);
            Executable(INITIAL, run) && key in Run(INITIAL, run).subscriptions && !Served(Run(INITIAL, run), key)
  {
    var a, b := Starts(topic, NextMode, [], None), Starts(topic, NextMode, [], Some(1));
    var key := SubscriptionKey(topic);
    var c := Step(INITIAL, a);
    BareStart(topic, None);
    BareStart(topic, Some(1));
    StallsIff(INITIAL, a, key);
    StepKeepsInv(INITIAL, a);
    StalledUntilReopened(c, b, key);
    var command, mode, index, refused := StartCases(c, b);
    BeginKeyed(c, command, mode, index, Some(1));
    RunTwo(INITIAL, a, b);
  }
}
