/**
 What each completion means for the browser client, read off the completion alone: what is asked
 for next, what the callback hears, and what becomes of the subscription and its fetch. The worker
 is proved to do just that in every state it can reach.
 */
module BrowserAnswers {
  import opened Wrappers
  import opened Text
  import opened LongPollingBatch
  import opened Delivery
  import opened RestClientEmscripten
  import opened EmscriptenRuns
  import opened SubscriptionTopic
  import BatchGrammar
  import Native = NativeAnswers
  import Rest = RestClientNative
  import UriQuery

  // ----- reading a completion -------------------------------------------------------------------------

  ghost function Judge(batch: bool, done: Completion, last: Option<u64>): Native.Verdict {
    if done.status == 504 then
      if done.index.Some? then Native.Elsewhere(done.index.value) else Native.Over
    else if done.failed then Native.Over
    else if batch then Native.JudgeBatch(done.body, last)
    else if done.index.Some? then Native.Samples([BatchPart(done.index.value, "", "", done.body)])
    else Native.Over
  }

  ghost function Asks(verdict: Native.Verdict, last: Option<u64>): Option<Position> {
    match verdict
    case Elsewhere(index) => Some(At(index))
    case Samples(parts) =>
      if parts == [] then None else Some(At(Native.After(Newest(last, parts[|parts| - 1].index))))
    case Illegible(next) => Some(if next.Some? then At(next.value) else Next)
    case _ => None
  }

  ghost function Tells(verdict: Native.Verdict, id: nat, last: Option<u64>): seq<Call> {
    match verdict
    case Samples(parts) => Report(id, News(last, parts))
    case Illegible(_) => [Problem(id)]
    case Over => [End(id)]
    case _ => []
  }

  ghost function Updated(verdict: Native.Verdict, sub: Subscription): Subscription {
    match verdict
    case Samples(parts) =>
      if parts == [] then sub
      else
        sub.(last := Some(Newest(sub.last, parts[|parts| - 1].index)), delivered := sub.delivered + News(sub.last, parts))
    case _ => sub
  }

  /** The worker after the completion of the fetch of a live subscription. */
  ghost function Answered(w: Worker, fetch: nat, id: nat, verdict: Native.Verdict): Worker
    requires id in w.subscriptions
  {
    var sub := w.subscriptions[id];
    var asks := Asks(verdict, sub.last);
    var told := w.log + Tells(verdict, id, sub.last);
    if asks.None? then
      w.(subscriptions := w.subscriptions - {id}, fetches := w.fetches - {fetch}, log := told)
    else
      w.(subscriptions := w.subscriptions[id := Updated(verdict, sub).(activeFetch := Some(w.nextFetch))],
         fetches := (w.fetches - {fetch})[w.nextFetch := Fetch(Some(id), asks.value, false, false)],
         nextFetch := w.nextFetch + 1,
         calls := w.calls + [w.nextFetch],
         log := told)
  }

  ghost function AfterCompletion(w: Worker, fetch: nat, done: Completion): Worker {
    if fetch !in w.fetches then w
    else
      match w.fetches[fetch].subscription
      case None =>
        w.(fetches := w.fetches - {fetch}, log := if w.accepting then w.log + [Answer(fetch)] else w.log)
      case Some(id) =>
        if !w.accepting || id !in w.subscriptions then w.(fetches := w.fetches - {fetch})
        else
          var sub := w.subscriptions[id];
          Answered(w, fetch, id, Judge(UsesBatch(sub.target.topic), done, sub.last))
  }

  // ----- the worker does what the completion says -----------------------------------------------------

  lemma RestartAnswered(w: Worker, fetch: nat, id: nat, news: seq<Call>, position: Position, verdict: Native.Verdict)
    requires w.accepting && id in w.subscriptions
    requires Asks(verdict, w.subscriptions[id].last) == Some(position)
    requires Tells(verdict, id, w.subscriptions[id].last) == news && Updated(verdict, w.subscriptions[id]) == w.subscriptions[id]
    ensures StartLongPoll(Invoke(Closed(w, fetch), news), id, position) == Answered(w, fetch, id, verdict)
  {
  }

  lemma QuietRestart(w: Worker, fetch: nat, id: nat, position: Position)
    ensures StartLongPoll(Closed(w, fetch), id, position) == StartLongPoll(Invoke(Closed(w, fetch), []), id, position)
  {
    assert w.log + [] == w.log;
  }

  lemma EndAnswered(w: Worker, fetch: nat, id: nat, done: Completion)
    requires Inv(w) && w.accepting && Polls(w, fetch, id)
    ensures id in w.subscriptions && EndSubscription(w, id, done) == Answered(w, fetch, id, Native.Over)
  {
    EndIs(w, id, done);
  }

  lemma AdvanceAnswered(w: Worker, fetch: nat, id: nat, messages: seq<Delivered>, last: u64, done: Completion,
                        verdict: Native.Verdict)
    requires Calm(w) && w.accepting && id in w.subscriptions
    requires var sub := w.subscriptions[id];
             && Asks(verdict, sub.last) == Some(At(Native.After(last))) && Tells(verdict, id, sub.last) == Report(id, messages)
             && Updated(verdict, sub) == sub.(last := Some(last), delivered := sub.delivered + messages)
    ensures Advance(w, fetch, id, messages, last, done) == Answered(w, fetch, id, verdict)
  {
    var sub := w.subscriptions[id];
    var recorded := Recorded(w, id, messages, last);
    CloseIs(recorded, fetch, done);
    Native.AfterIs(last);
    var updated := Updated(verdict, sub).(activeFetch := Some(w.nextFetch));
    assert recorded.subscriptions[id := updated] == w.subscriptions[id := updated];
  }

  lemma ResumeAnswered(w: Worker, fetch: nat, id: nat, next: Option<u64>, done: Completion)
    requires Calm(w) && w.accepting && id in w.subscriptions
    ensures ResumeAfterBatchError(w, fetch, id, next, done) == Answered(w, fetch, id, Native.Illegible(next))
  {
    CloseIs(w, fetch, done);
    RestartAnswered(w, fetch, id, [Problem(id)], Following(next), Native.Illegible(next));
  }

  lemma PartsAnswered(w: Worker, fetch: nat, id: nat, parts: seq<BatchPart>, done: Completion)
    requires Calm(w) && w.accepting && id in w.subscriptions && parts != [] && Rising(parts)
    requires Readable(w.subscriptions[id].last, parts, Rest.ReadableTopic)
    ensures HandleParts(w, fetch, id, parts, done) == Answered(w, fetch, id, Native.Samples(parts))
  {
    var last := w.subscriptions[id].last;
    DeliversNews(last, parts);
    AdvanceAnswered(w, fetch, id, News(last, parts), Newest(last, parts[|parts| - 1].index), done, Native.Samples(parts));
  }

  lemma DecodedAnswered(w: Worker, fetch: nat, id: nat, parts: seq<BatchPart>, done: Completion)
    requires Calm(w) && w.accepting && id in w.subscriptions && parts != [] && Rising(parts)
    ensures HandleParts(w, fetch, id, parts, done)
            == Answered(w, fetch, id, if Readable(w.subscriptions[id].last, parts, Rest.ReadableTopic)
                                      then Native.Samples(parts) else Native.Illegible(Native.BehindLast(parts)))
  {
    if Readable(w.subscriptions[id].last, parts, Rest.ReadableTopic) {
      PartsAnswered(w, fetch, id, parts, done);
    } else {
      ResumeAnswered(w, fetch, id, Native.BehindLast(parts), done);
    }
  }

  lemma BatchAnswered(w: Worker, fetch: nat, id: nat, done: Completion)
    requires Calm(w) && w.accepting && id in w.subscriptions
    ensures HandleBatch(w, fetch, id, done)
            == Answered(w, fetch, id, Native.JudgeBatch(done.body, w.subscriptions[id].last))
  {
    if Decode(done.body).Ok? {
      var parts := Decode(done.body).value;
      Native.DecodedRises(done.body, parts);
      Native.JudgedAsRead(parts, w.subscriptions[id].last);
      DecodedAnswered(w, fetch, id, parts, done);
    } else {
      ResumeAnswered(w, fetch, id, None, done);
    }
  }

  lemma SampleAnswered(w: Worker, fetch: nat, id: nat, sample: BatchPart, done: Completion)
    requires Calm(w) && w.accepting && id in w.subscriptions && done.status != 504 && !done.failed
    requires !UsesBatch(w.subscriptions[id].target.topic)
    requires done.index == Some(sample.index) && sample == BatchPart(sample.index, "", "", done.body)
    ensures HandleSubscription(w, fetch, id, done) == Answered(w, fetch, id, Native.Samples([sample]))
  {
    var sub := w.subscriptions[id];
    Native.SingleNews(sub.last, sample);
    if IsDuplicate(sub.last, sample.index) {
      CloseIs(w, fetch, done);
      Native.AfterIs(sub.last.value);
      QuietRestart(w, fetch, id, At(Native.After(sub.last.value)));
      assert sub.delivered + [] == sub.delivered && Report(id, []) == [];
      RestartAnswered(w, fetch, id, [], At(Native.After(sub.last.value)), Native.Samples([sample]));
    } else {
      var messages := [Delivered(sample, Skipped(sub.last, sample.index))];
      AdvanceAnswered(w, fetch, id, messages, sample.index, done, Native.Samples([sample]));
    }
  }

  lemma SubscriptionAnswered(w: Worker, fetch: nat, id: nat, done: Completion)
    requires Inv(w) && w.accepting && Polls(w, fetch, id)
    ensures id in w.subscriptions
    ensures var sub := w.subscriptions[id];
            HandleSubscription(w, fetch, id, done)
            == Answered(w, fetch, id, Judge(UsesBatch(sub.target.topic), done, sub.last))
  {
    assert id in w.subscriptions;
    CloseIs(w, fetch, done);
    if done.status == 504 && done.index.Some? {
      QuietRestart(w, fetch, id, At(done.index.value));
      RestartAnswered(w, fetch, id, [], At(done.index.value), Native.Elsewhere(done.index.value));
    } else if done.status == 504 || done.failed {
      EndAnswered(w, fetch, id, done);
    } else if UsesBatch(w.subscriptions[id].target.topic) {
      BatchAnswered(w, fetch, id, done);
    } else if done.index.None? {
      EndAnswered(w, fetch, id, done);
    } else {
      SampleAnswered(w, fetch, id, BatchPart(done.index.value, "", "", done.body), done);
    }
  }

  /** Every completion has the effect that can be read off it. */
  lemma CompleteAnswers(w: Worker, fetch: nat, done: Completion)
    requires Inv(w)
    ensures Complete(w, fetch, done) == AfterCompletion(w, fetch, done)
  {
    if fetch in w.fetches {
      CloseIs(w, fetch, done);
      var subscription := w.fetches[fetch].subscription;
      if subscription.Some? && w.accepting {
        assert Polls(w, fetch, subscription.value);
        SubscriptionAnswered(w, fetch, subscription.value, done);
      }
    }
  }

  // ----- what every step asks for ---------------------------------------------------------------------

  /** What an event makes the worker ask for, and for which subscription. */
  ghost predicate Wants(w: Worker, e: Event, id: nat, position: Position) {
    match e
    case Subscribes(target, order) =>
      && w.accepting && id == w.nextSubscription && BeginsAt(target.topic, NextMode, position)
      && !Conflicts(w, Going(target, order))
    case Completes(fetch, done) =>
      && w.accepting && Polls(w, fetch, id) && id in w.subscriptions
      && var sub := w.subscriptions[id];
         Asks(Judge(UsesBatch(sub.target.topic), done, sub.last), sub.last) == Some(position)
    case _ => false
  }

  /** The topic that a subscription is for, without its index. */
  function Going(target: Target, order: seq<UriQuery.Entry>): Target {
    if UriQuery.AllBytes(order) && INDEX_PARAMETER in UriQuery.MapOf(target.topic.params)
    then target.(topic := MdpTopic(target.topic.path, order)) else target
  }

  ghost predicate PollsAt(w: Worker, fetch: nat, id: nat, position: Position) {
    Polls(w, fetch, id) && w.fetches[fetch].position == position
  }

  lemma SubscribeOpensIff(w: Worker, e: Event, id: nat, position: Position)
    requires Inv(w) && Enabled(w, e) && e.Subscribes?
    ensures PollsAt(Step(w, e), w.nextFetch, id, position) <==> Wants(w, e, id, position)
  {
    TakesWhatIsMeant(e.target.topic, NextMode, e.order, position);
    var initial := TakeInitialIndex(e.target.topic, NextMode, e.order);
    if w.accepting && initial.Some? {
      BeginOpens(w, Going(e.target, e.order), Requested(initial.value.mode, initial.value.index), id);
    }
  }

  lemma BeginOpens(w: Worker, target: Target, position: Position, id: nat)
    requires Inv(w) && w.accepting
    ensures Polls(Begin(w, target, position), w.nextFetch, id) <==> !Conflicts(w, target) && id == w.nextSubscription
    ensures !Conflicts(w, target) ==> Begin(w, target, position).fetches[w.nextFetch].position == position
  {
  }

  /** What a subscription does that is accepted: a record and a fetch of its own, or a refusal. */
  lemma BeginIs(w: Worker, target: Target, position: Position)
    requires Inv(w) && w.accepting
    ensures var start := if position.At? && position.index > 0 then Some(position.index - 1) else None;
            Begin(w, target, position)
            == if Conflicts(w, target) then w.(log := w.log + [Refusal])
               else
                 w.(subscriptions := w.subscriptions[w.nextSubscription := Subscription(target, start, Some(w.nextFetch), [])],
                    starts := w.starts[w.nextSubscription := start],
                    fetches := w.fetches[w.nextFetch := Fetch(Some(w.nextSubscription), position, false, false)],
                    nextSubscription := w.nextSubscription + 1, nextFetch := w.nextFetch + 1,
                    calls := w.calls + [w.nextFetch])
  {
  }

  lemma SubscribeIs(w: Worker, target: Target, order: seq<UriQuery.Entry>)
    requires Inv(w) && Enabled(w, Subscribes(target, order))
    ensures var w' := Step(w, Subscribes(target, order));
            if !w.accepting then w' == w
            else if forall position :: !BeginsAt(target.topic, NextMode, position) then w' == w.(log := w.log + [Refusal])
            else exists position :: BeginsAt(target.topic, NextMode, position)
                                    && w' == Begin(w, Going(target, order), position)
  {
    var initial := TakeInitialIndex(target.topic, NextMode, order);
    forall position
      ensures BeginsAt(target.topic, NextMode, position) <==>
                initial.Some? && Requested(initial.value.mode, initial.value.index) == position
    {
      TakesWhatIsMeant(target.topic, NextMode, order, position);
    }
    if w.accepting && initial.Some? {
      TakesWhatIsMeant(target.topic, NextMode, order, Next);
      assert BeginsAt(target.topic, NextMode, Requested(initial.value.mode, initial.value.index));
    }
  }

  lemma CompletionOpensIff(w: Worker, fetch: nat, done: Completion, id: nat, position: Position)
    requires Inv(w)
    ensures PollsAt(Step(w, Completes(fetch, done)), w.nextFetch, id, position)
            <==> Wants(w, Completes(fetch, done), id, position)
  {
    CompleteAnswers(w, fetch, done);
  }

  lemma ReturnOpensNothing(w: Worker, handle: bool, id: nat)
    requires Inv(w)
    ensures !Polls(Return(w, handle), w.nextFetch, id)
  {
    if w.calls != [] && !handle && w.calls[|w.calls| - 1] in w.fetches {
      var fetch := w.calls[|w.calls| - 1];
      var erased := w.(calls := w.calls[..|w.calls| - 1], fetches := w.fetches - {fetch});
      if w.fetches[fetch].subscription.Some? {
        EndIs(erased, w.fetches[fetch].subscription.value, Completion(500, true, None, ""));
      }
    }
  }

  /**
   In every state that can be reached, and for every event: the next fetch polls for a
   subscription, and asks for a position, exactly if the event wants that.
   */
  lemma StepOpensIff(run: seq<Event>, e: Event, id: nat, position: Position)
    requires Enabled(Run(INITIAL, run), e)
    ensures var w := Run(INITIAL, run); PollsAt(Step(w, e), w.nextFetch, id, position) <==> Wants(w, e, id, position)
  {
    var w := Run(INITIAL, run);
    RunKeepsInv(INITIAL, run);
    match e
    case Subscribes(_, _) => SubscribeOpensIff(w, e, id, position);
    case Completes(fetch, done) => CompletionOpensIff(w, fetch, done, id, position);
    case Unsubscribes(_, found) => UnsubscribeIs(w, found);
    case Returns(handle) => ReturnOpensNothing(w, handle, id);
    case _ =>
  }

  // ----- which subscription a command is for ----------------------------------------------------------

  /** The same server, the same service, and the same parameters once those for polling are gone. */
  predicate Alike(a: Target, b: Target) {
    && a.endpoint == b.endpoint
    && ServiceName(a.topic) == ServiceName(b.topic)
    && UriQuery.MapOf(UriQuery.Rebuilt(Remaining(a.topic.params)))
       == UriQuery.MapOf(UriQuery.Rebuilt(Remaining(b.topic.params)))
  }

  lemma SameSubscriptionIff(a: Target, b: Target)
    requires UriQuery.Entries(a.topic.params) && UriQuery.Entries(b.topic.params)
    ensures SameSubscription(a, b) <==> Alike(a, b)
  {
    SameTopicIff(a.topic, b.topic);
  }
}
