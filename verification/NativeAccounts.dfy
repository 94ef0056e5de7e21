/**
 What the callbacks of the native client hear over whole runs: an account of every sample, the same
 for batches and for single samples, and the error path that breaks it.
 */
module NativeAccounts {
  import opened Wrappers
  import opened Text
  import opened LongPollingBatch
  import opened Delivery
  import opened RestClientNative
  import opened NativeRuns
  import opened SubscriptionTopic
  import BatchGrammar

  // ----- the account of every sample ------------------------------------------------------------------

  ghost predicate InOrder(c: Client, key: Key)
    requires key in c.subscriptions
  {
    Accounted(c.subscriptions[key].start, c.subscriptions[key].delivered, c.subscriptions[key].last)
  }

  ghost predicate AllInOrder(c: Client) {
    forall key | key in c.subscriptions :: InOrder(c, key)
  }

  /**
   An error status with a sample index on a stream without batches: the handler passes the body
   on and moves to that index, without looking at the last one.
   */
  predicate Overwrites(c: Client, id: nat, r: Response) {
    && id in c.requests && c.requests[id].command.kind == Subscribe
    && HasError(r.status) && r.status != 504 && r.index.Some?
    && !c.requests[id].command.batch
    && c.requests[id].key in c.subscriptions
    && var last := c.subscriptions[c.requests[id].key].last;
       last.Some? && r.index.value != last.value + 1
  }

  lemma AdvanceAccounts(c: Client, key: Key, messages: seq<Delivered>, last: u64, stream: Option<nat>)
    requires key in c.subscriptions
    ensures var d := Advance(c, key, messages, last, stream);
            && d.subscriptions.Keys == c.subscriptions.Keys
            && d.subscriptions[key].start == c.subscriptions[key].start
            && d.subscriptions[key].delivered == c.subscriptions[key].delivered + messages
            && d.subscriptions[key].last == Some(last)
  {
  }

  lemma BatchInOrder(c: Client, key: Key, parts: seq<BatchPart>, stream: Option<nat>)
    requires parts != [] && key in c.subscriptions && InOrder(c, key)
    ensures var d := HandleBatch(c, key, parts, stream);
            key in d.subscriptions && InOrder(d, key)
  {
    var sub := c.subscriptions[key];
    if Readable(sub.last, parts, ReadableTopic) {
      BatchEqualsOneByOne(sub.last, parts);
      var all := DeliverAll(sub.last, parts);
      DeliverAllAccounts(sub.start, sub.delivered, sub.last, parts);
      AdvanceAccounts(c, key, all.messages, all.last.value, stream);
    }
  }

  lemma SampleInOrderIff(c: Client, key: Key, sample: BatchPart, hasError: bool, stream: Option<nat>)
    requires key in c.subscriptions && InOrder(c, key)
    ensures var d := HandleSample(c, key, sample, hasError, stream);
            && key in d.subscriptions
            && (InOrder(d, key) <==>
                  !hasError || c.subscriptions[key].last.None?
                  || sample.index == c.subscriptions[key].last.value + 1)
  {
    var sub := c.subscriptions[key];
    if hasError {
      UncheckedAccountsIff(sub.start, sub.delivered, sub.last, sample);
      AdvanceAccounts(c, key, [Delivered(sample, 0)], sample.index, stream);
    } else if !IsDuplicate(sub.last, sample.index) {
      DeliverOneAccounts(sub.start, sub.delivered, sub.last, sample);
      AdvanceAccounts(c, key, [Delivered(sample, Skipped(sub.last, sample.index))], sample.index, stream);
    }
  }

  lemma ResponseInOrderIff(c: Client, id: nat, r: Response, stream: Option<nat>)
    requires id in c.requests && c.requests[id].key in c.subscriptions
    requires InOrder(c, c.requests[id].key)
    ensures var key, d := c.requests[id].key, HandleResponse(c, c.requests[id], r, stream);
            key !in d.subscriptions || InOrder(d, key) <==> !Overwrites(c, id, r)
  {
    var q := c.requests[id];
    if !Redirects(r) && q.command.kind == Subscribe {
      if !HasError(r.status) && q.command.batch {
        if Decode(r.payload).Ok? {
          BatchGrammar.AcceptedIsConsecutive(r.payload);
          BatchInOrder(c, q.key, Decode(r.payload).value, stream);
        }
      } else if r.index.Some? && !(HasError(r.status) && q.command.batch) {
        SampleInOrderIff(c, q.key, BatchPart(r.index.value, r.topic, r.serviceName, r.payload),
                         HasError(r.status), stream);
      }
    }
  }

  /** A response keeps every account exactly when it does not overwrite an index unchecked. */
  lemma ProcessInOrderIff(c: Client, id: nat, r: Response, stream: Option<nat>)
    requires Keyed(c) && AllInOrder(c)
    ensures AllInOrder(Process(c, id, r, stream)) <==> !Overwrites(c, id, r)
  {
    if id in c.requests {
      var q := c.requests[id];
      var d := HandleResponse(c, q, r, stream);
      ResponseEffect(c, q, r, stream);
      if q.key in c.subscriptions {
        ResponseInOrderIff(c, id, r, stream);
      }
      forall key | key in d.subscriptions && key != q.key ensures InOrder(d, key) {
        assert InOrder(c, key);
      }
      assert forall key | key in d.subscriptions :: InOrder(Process(c, id, r, stream), key) == InOrder(d, key);
    }
  }

  predicate Orderly(c: Client, e: Event) {
    e.Responds? ==> !Overwrites(c, e.id, e.response)
  }

  predicate OrderlyRun(c: Client, run: seq<Event>)
    decreases |run|
  {
    run == [] || (Orderly(c, run[0]) && OrderlyRun(Step(c, run[0]), run[1..]))
  }

  lemma BeginInOrder(c: Client, command: Command, mode: Mode, index: Option<u64>, stream: Option<nat>)
    requires AllInOrder(c)
    ensures AllInOrder(Begin(c, command, mode, index, stream))
  {
    var d := Begin(c, command, mode, index, stream);
    forall k | k in d.subscriptions ensures InOrder(d, k) {
      assert k in c.subscriptions ==> InOrder(c, k);
    }
  }

  lemma StartInOrder(c: Client, e: Event)
    requires AllInOrder(c) && e.Starts?
    ensures AllInOrder(Step(c, e))
  {
    var command, mode, index, refused := StartCases(c, e);
    BeginInOrder(c, command, mode, index, e.stream);
    forall key | key in c.subscriptions ensures InOrder(Tell(c, [Refusal(refused)]), key) {
      assert InOrder(c, key);
    }
  }

  lemma StepInOrder(c: Client, e: Event)
    requires Keyed(c) && AllInOrder(c) && Orderly(c, e)
    ensures AllInOrder(Step(c, e))
  {
    match e
    case Responds(id, response, stream) => ProcessInOrderIff(c, id, response, stream);
    case Starts(_, _, _, _) => StartInOrder(c, e);
    case _ => assert forall key | key in Step(c, e).subscriptions :: InOrder(c, key);
  }

  /**
   Over every orderly run, whatever is repeated, redirected, timed out or undecodable, each
   subscription's samples come in strictly increasing order, and the samples delivered plus the
   samples reported as skipped make up everything since its base.
   */
  lemma {:induction false} RunInOrder(c: Client, run: seq<Event>)
    requires Keyed(c) && AllInOrder(c) && OrderlyRun(c, run)
    ensures AllInOrder(Run(c, run))
    decreases |run|
  {
    if run != [] {
      StepKeepsKeyed(c, run[0]);
      StepInOrder(c, run[0]);
      RunInOrder(Step(c, run[0]), run[1..]);
    }
  }

  // ----- what the callbacks are told --------------------------------------------------------------------

  /** The samples for a key among some notices, in order. */
  function Heard(notices: seq<Notice>, key: Key): seq<Delivered> {
    if notices == [] then []
    else
      var notice := notices[|notices| - 1];
      Heard(notices[..|notices| - 1], key) + if notice.Sample? && notice.key == key then [notice.message] else []
  }

  lemma HeardLast(notices: seq<Notice>, notice: Notice, key: Key)
    ensures Heard(notices + [notice], key)
            == Heard(notices, key) + if notice.Sample? && notice.key == key then [notice.message] else []
  {
    assert (notices + [notice])[..|notices|] == notices;
  }

  lemma {:induction false} HeardBoth(a: seq<Notice>, b: seq<Notice>, key: Key)
    ensures Heard(a + b, key) == Heard(a, key) + Heard(b, key)
    decreases |b|
  {
    if b == [] {
      assert a + b == a;
    } else {
      var front, last := b[..|b| - 1], b[|b| - 1];
      HeardBoth(a, front, key);
      HeardLast(a + front, last, key);
      Regrouped(a, front, [last]);
      assert b == front + [last];
      Regrouped(Heard(a, key), Heard(front, key), if last.Sample? && last.key == key then [last.message] else []);
    }
  }

  lemma {:induction false} HeardNone(notices: seq<Notice>, key: Key)
    requires forall i | 0 <= i < |notices| :: !(notices[i].Sample? && notices[i].key == key)
    ensures Heard(notices, key) == []
  {
    if notices != [] {
      HeardNone(notices[..|notices| - 1], key);
    }
  }

  lemma {:induction false} HeardReport(key: Key, messages: seq<Delivered>)
    ensures Heard(Report(key, messages), key) == messages
    decreases |messages|
  {
    if messages != [] {
      var n := |messages| - 1;
      HeardReport(key, messages[..n]);
      assert Report(key, messages)[..n] == Report(key, messages[..n]);
      assert messages == messages[..n] + [messages[n]];
    }
  }

  /** What a subscription has recorded is what was told about its key since it was started. */
  ghost predicate Told(c: Client, key: Key)
    requires key in c.subscriptions
  {
    var sub := c.subscriptions[key];
    sub.since <= |c.notices| && Heard(c.notices[sub.since..], key) == sub.delivered
  }

  ghost predicate AllTold(c: Client) {
    forall key | key in c.subscriptions :: Told(c, key)
  }

  /** From one state to the next a key records exactly the samples that are told about it. */
  ghost predicate Records(c: Client, c': Client, key: Key) {
    && c.notices <= c'.notices
    && (key in c'.subscriptions ==>
          && key in c.subscriptions
          && c'.subscriptions[key].since == c.subscriptions[key].since
          && c'.subscriptions[key].delivered
             == c.subscriptions[key].delivered + Heard(c'.notices[|c.notices|..], key))
  }

  lemma RecordsKeepsTold(c: Client, c': Client, key: Key)
    requires Records(c, c', key) && key in c'.subscriptions && Told(c, key)
    ensures Told(c', key)
  {
    var since, n := c.subscriptions[key].since, |c.notices|;
    assert c'.notices[since..] == c.notices[since..] + c'.notices[n..];
    HeardBoth(c.notices[since..], c'.notices[n..], key);
  }

  /** The key is untouched and the news hold no sample for it. */
  lemma MuteRecords(c: Client, c': Client, key: Key, news: seq<Notice>)
    requires c'.notices == c.notices + news
    requires forall i | 0 <= i < |news| :: !(news[i].Sample? && news[i].key == key)
    requires key in c'.subscriptions ==>
               && key in c.subscriptions
               && c'.subscriptions[key].since == c.subscriptions[key].since
               && c'.subscriptions[key].delivered == c.subscriptions[key].delivered
    ensures Records(c, c', key)
  {
    assert c'.notices[|c.notices|..] == news;
    HeardNone(news, key);
    if key in c'.subscriptions {
      assert c.subscriptions[key].delivered + [] == c.subscriptions[key].delivered;
    }
  }

  function Submitted(command: Command, stream: Option<nat>): seq<Notice> {
    if stream.None? then [Failure(command)] else []
  }

  lemma SubmitRecords(c: Client, command: Command, mode: Mode, index: Option<u64>, stream: Option<nat>, key: Key)
    ensures Records(c, Submit(c, command, mode, index, stream), key)
  {
    assert c.notices + [] == c.notices;
    MuteRecords(c, Submit(c, command, mode, index, stream), key, Submitted(command, stream));
  }

  lemma TellRecords(c: Client, c': Client, key: Key, notice: Notice)
    requires Records(c, c', key) && !notice.Sample?
    ensures Records(c, Tell(c', [notice]), key)
  {
    var n := |c.notices|;
    assert Tell(c', [notice]).notices[n..] == c'.notices[n..] + [notice];
    HeardBoth(c'.notices[n..], [notice], key);
    HeardNone([notice], key);
    assert Heard(c'.notices[n..], key) + [] == Heard(c'.notices[n..], key);
  }

  lemma AdvanceRecords(c: Client, key: Key, messages: seq<Delivered>, last: u64, stream: Option<nat>)
    requires key in c.subscriptions
    ensures Records(c, Advance(c, key, messages, last, stream), key)
  {
    var c' := Advance(c, key, messages, last, stream);
    var asked := Submitted(c.subscriptions[key].request, stream);
    assert c'.notices == c.notices + (asked + Report(key, messages));
    assert c'.notices[|c.notices|..] == asked + Report(key, messages);
    HeardBoth(asked, Report(key, messages), key);
    HeardNone(asked, key);
    HeardReport(key, messages);
    assert [] + messages == messages;
  }

  lemma ResumeRecords(c: Client, key: Key, next: Option<u64>, stream: Option<nat>)
    ensures Records(c, Resume(c, key, next, stream), key)
  {
    MuteRecords(c, c, key, []);
    if key in c.subscriptions {
      SubmitRecords(c, c.subscriptions[key].request, NextMode, next, stream, key);
      TellRecords(c, Submit(c, c.subscriptions[key].request, NextMode, next, stream), key, Problem(key));
    }
  }

  lemma BatchRecords(c: Client, key: Key, parts: seq<BatchPart>, stream: Option<nat>)
    requires parts != []
    ensures Records(c, HandleBatch(c, key, parts, stream), key)
  {
    MuteRecords(c, c, key, []);
    if key in c.subscriptions {
      var last := c.subscriptions[key].last;
      var index := parts[|parts| - 1].index;
      ResumeRecords(c, key, if index < U64_LIMIT - 1 then Some(index + 1) else None, stream);
      BatchEqualsOneByOne(last, parts);
      var all := DeliverAll(last, parts);
      AdvanceRecords(c, key, all.messages, all.last.value, stream);
    }
  }

  lemma SampleRecords(c: Client, key: Key, sample: BatchPart, hasError: bool, stream: Option<nat>)
    ensures Records(c, HandleSample(c, key, sample, hasError, stream), key)
  {
    MuteRecords(c, c, key, []);
    if key in c.subscriptions {
      var sub := c.subscriptions[key];
      if !hasError && IsDuplicate(sub.last, sample.index) {
        SubmitRecords(c, sub.request, sub.mode, Some(Successor(sub.last.value)), stream, key);
      } else {
        var skipped := if hasError then 0 else Skipped(sub.last, sample.index);
        AdvanceRecords(c, key, [Delivered(sample, skipped)], sample.index, stream);
      }
    }
  }

  lemma SubscribedRecords(c: Client, q: Request, r: Response, stream: Option<nat>)
    ensures Records(c, HandleSubscribed(c, q, r, stream), q.key)
  {
    MuteRecords(c, c, q.key, []);
    MuteRecords(c, ReportError(c, q.key), q.key, if q.key in c.subscriptions then [Problem(q.key)] else []);
    ResumeRecords(c, q.key, None, stream);
    if Decode(r.payload).Ok? {
      BatchGrammar.AcceptedIsConsecutive(r.payload);
      BatchRecords(c, q.key, Decode(r.payload).value, stream);
    }
    if r.index.Some? {
      SampleRecords(c, q.key, BatchPart(r.index.value, r.topic, r.serviceName, r.payload), HasError(r.status), stream);
    }
  }

  lemma ResponseRecords(c: Client, q: Request, r: Response, stream: Option<nat>)
    ensures Records(c, HandleResponse(c, q, r, stream), q.key)
  {
    MuteRecords(c, c, q.key, []);
    TellRecords(c, c, q.key, Failure(q.command));
    TellRecords(c, c, q.key, Reply(q.key));
    SubscribedRecords(c, q, r, stream);
    if q.key in c.subscriptions {
      var sub := c.subscriptions[q.key];
      forall index {
        SubmitRecords(c, sub.request, sub.mode, index, stream, q.key);
      }
    }
  }

  /** The subscriptions of other keys are untouched and nothing is told about them. */
  lemma OtherRecords(c: Client, c': Client, key: Key, stream: Option<nat>, other: Key)
    requires Effect(c, c', key, stream) && other != key
    ensures Records(c, c', other)
  {
    MuteRecords(c, c', other, c'.notices[|c.notices|..]);
  }

  lemma ProcessKeepsTold(c: Client, id: nat, r: Response, stream: Option<nat>)
    requires Keyed(c) && AllTold(c)
    ensures AllTold(Process(c, id, r, stream))
  {
    if id in c.requests {
      var q := c.requests[id];
      var d := HandleResponse(c, q, r, stream);
      ResponseEffect(c, q, r, stream);
      ResponseRecords(c, q, r, stream);
      forall key | key in d.subscriptions ensures Told(d, key) {
        if key != q.key {
          OtherRecords(c, d, q.key, stream, key);
        }
        RecordsKeepsTold(c, d, key);
      }
      assert forall key | key in d.subscriptions :: Told(Process(c, id, r, stream), key) == Told(d, key);
    }
  }

  lemma BeginKeepsTold(c: Client, command: Command, mode: Mode, index: Option<u64>, stream: Option<nat>)
    requires AllTold(c)
    ensures AllTold(Begin(c, command, mode, index, stream))
  {
    var d := Begin(c, command, mode, index, stream);
    var news := if command.key !in c.subscriptions then Submitted(command, stream)
                else if command.batch || c.subscriptions[command.key].request.batch then [Refusal(command.key)]
                else [];
    assert d.notices == c.notices + news;
    forall k | k in d.subscriptions ensures Told(d, k) {
      if k in c.subscriptions {
        MuteRecords(c, d, k, news);
        RecordsKeepsTold(c, d, k);
      } else {
        assert d.notices[|c.notices|..] == news;
        HeardNone(news, k);
      }
    }
  }

  lemma StepKeepsTold(c: Client, e: Event)
    requires Keyed(c) && AllTold(c)
    ensures AllTold(Step(c, e))
  {
    var d := Step(c, e);
    match e
    case Responds(id, response, stream) => ProcessKeepsTold(c, id, response, stream);
    case Starts(_, _, _, _) =>
      var command, mode, index, refused := StartCases(c, e);
      BeginKeepsTold(c, command, mode, index, e.stream);
      forall key | key in c.subscriptions ensures Told(Tell(c, [Refusal(refused)]), key) {
        MuteRecords(c, Tell(c, [Refusal(refused)]), key, [Refusal(refused)]);
        RecordsKeepsTold(c, Tell(c, [Refusal(refused)]), key);
      }
    case Sends(kind, topic, stream) =>
      forall key | key in c.subscriptions ensures Told(d, key) {
        SubmitRecords(c, NewCommand(kind, topic), NoMode, None, stream, key);
        RecordsKeepsTold(c, d, key);
      }
    case _ => assert forall key | key in d.subscriptions :: Told(c, key);
  }

  /** In every run, misrouted responses and all, a subscription records what its callbacks were told. */
  lemma {:induction false} RunKeepsTold(c: Client, run: seq<Event>)
    requires Keyed(c) && AllTold(c)
    ensures Keyed(Run(c, run)) && AllTold(Run(c, run))
    decreases |run|
  {
    if run != [] {
      StepKeepsKeyed(c, run[0]);
      StepKeepsTold(c, run[0]);
      RunKeepsTold(Step(c, run[0]), run[1..]);
    }
  }

  /**
   Over every run from the start in which no error status overwrites an index: what the callbacks
   of a subscription have been told since it was started comes in strictly increasing order, each
   message reports exactly the samples missed before it, and messages and reported skips add up to
   the last index minus the one the subscription began to count from.
   */
  lemma ToldInOrder(run: seq<Event>, key: Key)
    requires OrderlyRun(INITIAL, run) && key in Run(INITIAL, run).subscriptions
    ensures var c := Run(INITIAL, run);
            var sub := c.subscriptions[key];
            && sub.since <= |c.notices|
            && var told := Heard(c.notices[sub.since..], key);
               && Accounted(sub.start, told, sub.last)
               && (sub.last.Some? ==> Total(told) == sub.last.value - Base(sub.start, told))
  {
    RunInOrder(INITIAL, run);
    RunKeepsTold(INITIAL, run);
    var c := Run(INITIAL, run);
    assert Told(c, key) && InOrder(c, key);
    var sub := c.subscriptions[key];
    if sub.last.Some? {
      AccountedTotal(sub.start, sub.delivered, sub.last);
    }
  }

  // ----- an error status that rewinds ---------------------------------------------------------------------

  function Polling(topic: MdpTopic, last: Option<u64>, delivered: seq<Delivered>,
                   stream: nat, index: Option<u64>, notices: seq<Notice>): Client
  {
    var command, key := NewCommand(Subscribe, topic), SubscriptionKey(topic);
    Client(map[key := Subscription(command, NextMode, last, 1, None, delivered, 0)],
           map[stream := Request(command, key, NextMode, index)], notices)
  }

  lemma FirstPoll(topic: MdpTopic)
    requires topic.params == [] && HasTopic(topic)
    ensures CanTake(topic, [])
    ensures Start(INITIAL, topic, NextMode, [], Some(1)) == Polling(topic, None, [], 1, None, [])
  {
    assert TakeInitialIndex(topic, NextMode, []) == Some(Initial(None, NextMode, topic));
  }

  lemma FirstSample(topic: MdpTopic, sample: BatchPart)
    requires topic.params == []
    ensures var r := Response(200, None, Some(sample.index), sample.payload, sample.topic, sample.serviceName);
            var message := Delivered(sample, 0);
            Process(Polling(topic, None, [], 1, None, []), 1, r, Some(2))
            == Polling(topic, Some(sample.index), [message], 2, Some(Successor(sample.index)),
                       [Sample(SubscriptionKey(topic), message)])
  {
    var key := SubscriptionKey(topic);
    var message := Delivered(sample, 0);
    assert Report(key, [message]) == [Sample(key, message)];
    assert [] + [message] == [message];
  }

  lemma PollingIsOrderly(topic: MdpTopic, sample: BatchPart, stream: nat, index: Option<u64>, notices: seq<Notice>)
    ensures var c := Polling(topic, Some(sample.index), [Delivered(sample, 0)], stream, index, notices);
            Keyed(c) && AllInOrder(c)
  {
    DeliverOneAccounts(None, [], None, sample);
    assert [] + [Delivered(sample, 0)] == [Delivered(sample, 0)];
  }

  lemma RewindBreaks(topic: MdpTopic, sample: BatchPart, error: Response, notices: seq<Notice>)
    requires topic.params == [] && error.status == 500 && error.index.Some? && error.index.value != sample.index + 1
    ensures var c := Polling(topic, Some(sample.index), [Delivered(sample, 0)], 2, Some(Successor(sample.index)), notices);
            !AllInOrder(Process(c, 2, error, Some(3)))
  {
    var c := Polling(topic, Some(sample.index), [Delivered(sample, 0)], 2, Some(Successor(sample.index)), notices);
    PollingIsOrderly(topic, sample, 2, Some(Successor(sample.index)), notices);
    assert Overwrites(c, 2, error);
    ProcessInOrderIff(c, 2, error, Some(3));
  }

  /** Overwriting is possible: an error status that carries an old index moves the client back. */
  lemma ErrorStatusRewinds(topic: MdpTopic)
    requires topic.params == [] && HasTopic(topic)
    ensures var run := [Starts(topic, NextMode, [], Some(1)),
                        Responds(1, Response(200, None, Some(5), "", "", ""), Some(2)),
                        Responds(2, Response(500, None, Some(3), "", "", ""), Some(3))];
            Executable(INITIAL, run) && !AllInOrder(Run(INITIAL, run))
  {
    var ok, error := Response(200, None, Some(5), "", "", ""), Response(500, None, Some(3), "", "", "");
    var a, b, d := Starts(topic, NextMode, [], Some(1)), Responds(1, ok, Some(2)), Responds(2, error, Some(3));
    var sample := BatchPart(5, "", "", "");
    FirstPoll(topic);
    FirstSample(topic, sample);
    RewindBreaks(topic, sample, error, [Sample(SubscriptionKey(topic), Delivered(sample, 0))]);
    RunThree(INITIAL, a, b, d);
  }

  // ----- batches and single samples -----------------------------------------------------------------------

  /** The parts of a batch as single samples, each on the stream that the one before has opened. */
  function HandleEach(c: Client, key: Key, parts: seq<BatchPart>, id: nat, streams: seq<nat>): Client
    requires |streams| == |parts|
    decreases |parts|
  {
    if parts == [] then c
    else
      var next := Forget(HandleSample(c, key, parts[0], false, Some(streams[0])), id);
      HandleEach(next, key, parts[1..], streams[0], streams[1..])
  }

  /** Streams that are not in use, nor used twice. */
  ghost predicate Unused(c: Client, id: nat, streams: seq<nat>) {
    && id !in streams
    && (forall i | 0 <= i < |streams| :: streams[i] !in c.requests)
    && (forall i, j | 0 <= i < j < |streams| :: streams[i] != streams[j])
  }

  /** The client after samples up to `last` have been passed on and the next one has been asked for. */
  function Handled(c: Client, key: Key, o: Outcome, stream: nat): Client
    requires key in c.subscriptions && o.last.Some?
  {
    Advance(c, key, o.messages, o.last.value, Some(stream))
  }

  lemma SampleIsHandled(c: Client, key: Key, part: BatchPart, stream: nat)
    requires key in c.subscriptions
    ensures DeliverOne(c.subscriptions[key].last, part).last.Some?
    ensures HandleSample(c, key, part, false, Some(stream))
            == Handled(c, key, DeliverOne(c.subscriptions[key].last, part), stream)
  {
    var sub := c.subscriptions[key];
    if IsDuplicate(sub.last, part.index) {
      assert sub.delivered + [] == sub.delivered;
      assert Report(key, []) == [];
      assert c.subscriptions[key := sub] == c.subscriptions;
      assert c.notices + [] == c.notices;
    }
  }

  lemma ReportBoth(key: Key, a: seq<Delivered>, b: seq<Delivered>)
    ensures Report(key, a) + Report(key, b) == Report(key, a + b)
  {
  }

  lemma RequestsTwice<V>(m: map<nat, V>, id: nat, s: nat, v: V, t: nat, w: V)
    requires s !in m && s != t && t != id && s != id
    ensures (m[s := v] - {id})[t := w] - {s} == m[t := w] - {id}
  {
  }

  /** Two deliveries in a row, each forgetting the stream it came on, are one delivery of both. */
  lemma HandledTwice(c: Client, key: Key, a: Outcome, b: Outcome, id: nat, s: nat, t: nat)
    requires key in c.subscriptions && a.last.Some? && b.last.Some?
    requires s !in c.requests && s != t && t != id && s != id
    ensures var first := Forget(Handled(c, key, a, s), id);
            && key in first.subscriptions
            && Forget(Handled(first, key, b, t), s) == Forget(Handled(c, key, Behind(a.messages, b), t), id)
  {
    var sub := c.subscriptions[key];
    Regrouped(sub.delivered, a.messages, b.messages);
    ReportBoth(key, a.messages, b.messages);
    Regrouped(c.notices, Report(key, a.messages), Report(key, b.messages));
    RequestsTwice(c.requests, id, s, Request(sub.request, sub.request.key, sub.mode, Some(Successor(a.last.value))),
                  t, Request(sub.request, sub.request.key, sub.mode, Some(Successor(b.last.value))));
  }

  lemma {:induction false} EachIsHandled(c: Client, key: Key, parts: seq<BatchPart>, id: nat, streams: seq<nat>)
    requires key in c.subscriptions && parts != [] && |streams| == |parts| && Unused(c, id, streams)
    ensures DeliverAll(c.subscriptions[key].last, parts).last.Some?
    ensures HandleEach(c, key, parts, id, streams)
            == Forget(Handled(c, key, DeliverAll(c.subscriptions[key].last, parts), streams[|streams| - 1]), id)
    decreases |parts|
  {
    var last := c.subscriptions[key].last;
    var one, rest := DeliverOne(last, parts[0]), parts[1..];
    var s, later := streams[0], streams[1..];
    SampleIsHandled(c, key, parts[0], s);
    DeliverFirst(last, parts);
    BatchEqualsOneByOne(last, parts);
    var next := Forget(Handled(c, key, one, s), id);
    if rest == [] {
      assert one.messages + [] == one.messages;
      assert DeliverAll(last, parts) == one;
    } else {
      var t := later[|later| - 1];
      assert t == streams[|streams| - 1];
      NextUnused(c, id, streams, next);
      EachIsHandled(next, key, rest, s, later);
      HandledTwice(c, key, one, DeliverAll(one.last, rest), id, s, t);
    }
  }

  lemma NextUnused(c: Client, id: nat, streams: seq<nat>, next: Client)
    requires streams != [] && Unused(c, id, streams) && next.requests.Keys <= c.requests.Keys + {streams[0]}
    ensures Unused(next, streams[0], streams[1..])
  {
    forall i | 0 <= i < |streams[1..]| ensures streams[1..][i] != streams[0] && streams[1..][i] !in c.requests {
      assert streams[1..][i] == streams[i + 1];
    }
  }

  /**
   A batch, and its parts one by one, each on the stream opened by the one before, lead the client
   into the same state: the same messages and warnings, the same last index, the same next request.
   */
  lemma BatchEqualsSamples(c: Client, key: Key, parts: seq<BatchPart>, id: nat, streams: seq<nat>)
    requires key in c.subscriptions && parts != [] && Readable(c.subscriptions[key].last, parts, ReadableTopic)
    requires |streams| == |parts| && Unused(c, id, streams)
    ensures Forget(HandleBatch(c, key, parts, Some(streams[|streams| - 1])), id)
            == HandleEach(c, key, parts, id, streams)
  {
    EachIsHandled(c, key, parts, id, streams);
  }

  /** The samples of a good response: the decoded batch, or the one sample it carries. */
  ghost predicate Carries(sub: Subscription, q: Request, r: Response, parts: seq<BatchPart>) {
    && !HasError(r.status) && r.status != 302
    && if q.command.batch
       then Decode(r.payload) == Ok(parts) && Readable(sub.last, parts, ReadableTopic)
       else r.index.Some? && parts == [BatchPart(r.index.value, r.topic, r.serviceName, r.payload)]
  }

  lemma CarriedIsHandled(c: Client, q: Request, r: Response, stream: nat, parts: seq<BatchPart>)
    requires q.key in c.subscriptions && q.command.kind == Subscribe && Carries(c.subscriptions[q.key], q, r, parts)
    ensures DeliverAll(c.subscriptions[q.key].last, parts).last.Some?
    ensures HandleResponse(c, q, r, Some(stream))
            == Handled(c, q.key, DeliverAll(c.subscriptions[q.key].last, parts), stream)
  {
    var last := c.subscriptions[q.key].last;
    if q.command.batch {
      BatchGrammar.AcceptedIsConsecutive(r.payload);
      BatchEqualsOneByOne(last, parts);
    } else {
      SampleIsHandled(c, q.key, parts[0], stream);
      DeliverFirst(last, parts);
      var one := DeliverOne(last, parts[0]);
      assert parts[1..] == [];
      assert DeliverAll(one.last, parts[1..]) == Outcome([], one.last);
      assert one.messages + [] == one.messages;
    }
  }

  /**
   A good response passes on exactly its samples that are new, with their warnings, asks for the
   index after the last one in the same mode, and forgets the stream it came on.
   */
  lemma ResponseDelivers(c: Client, id: nat, r: Response, stream: nat, parts: seq<BatchPart>)
    requires id in c.requests && c.requests[id].command.kind == Subscribe && c.requests[id].key in c.subscriptions
    requires stream !in c.requests && Carries(c.subscriptions[c.requests[id].key], c.requests[id], r, parts)
    ensures var key := c.requests[id].key;
            var c' := Process(c, id, r, Some(stream));
            var sub, all := c.subscriptions[key], DeliverAll(c.subscriptions[key].last, parts);
            && all.last.Some?
            && c'.notices == c.notices + Report(key, all.messages)
            && key in c'.subscriptions && c'.subscriptions[key].last == all.last
            && c'.subscriptions[key].delivered == sub.delivered + all.messages
            && c'.requests == (c.requests - {id})[stream :=
                 Request(sub.request, sub.request.key, sub.mode, Some(Successor(all.last.value)))]
  {
    CarriedIsHandled(c, c.requests[id], r, stream, parts);
  }
}
