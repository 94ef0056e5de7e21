/** The session of the native client as the object it is: its maps updated in place. */
module NativeSession {
  import opened Wrappers
  import opened Text
  import opened LongPollingBatch
  import opened Delivery
  import opened SubscriptionTopic
  import opened RestClientNative
  import opened NativeRuns
  import opened NativeAccounts
  import opened NativeAnswers
  import BatchGrammar
  import UriQuery

  class ClientSession {
    var subscriptions: map<Key, Subscription>
    var requests: map<nat, Request>
    var notices: seq<Notice>

    ghost function View(): Client
      reads this
    {
      Client(subscriptions, requests, notices)
    }

    constructor ()
      ensures View() == INITIAL
    {
      subscriptions, requests, notices := map[], map[], [];
    }

    method SubmitRequest(command: Command, mode: Mode, index: Option<u64>, stream: Option<nat>)
      modifies this
      ensures View() == Submit(old(View()), command, mode, index, stream)
    {
      if stream.None? {
        notices := notices + [Failure(command)];
        return;
      }
      requests := requests[stream.value := Request(command, command.key, mode, index)];
    }

    method SendLongPollRequests(key: Key, index: u64, stream: Option<nat>)
      modifies this
      ensures View() == SendLongPoll(old(View()), key, index, stream)
    {
      if key !in subscriptions {
        return;
      }
      SubmitRequest(subscriptions[key].request, subscriptions[key].mode, Some(index), stream);
    }

    method TellAll(key: Key, messages: seq<Delivered>)
      modifies this
      ensures View() == Tell(old(View()), Report(key, messages))
    {
      for i := 0 to |messages|
        invariant View() == Tell(old(View()), Report(key, messages)[..i])
      {
        notices := notices + [Sample(key, messages[i])];
        assert Report(key, messages)[..i + 1] == Report(key, messages)[..i] + [Sample(key, messages[i])];
      }
      assert Report(key, messages)[..|messages|] == Report(key, messages);
    }

    method Deliver(key: Key, messages: seq<Delivered>, last: u64, stream: Option<nat>)
      requires key in subscriptions
      modifies this
      ensures View() == Advance(old(View()), key, messages, last, stream)
    {
      var sub := subscriptions[key];
      subscriptions := subscriptions[key := sub.(last := Some(last), delivered := sub.delivered + messages)];
      SubmitRequest(sub.request, sub.mode, Some(Successor(last)), stream);
      TellAll(key, messages);
    }

    method HandleSubscriptionResponse(key: Key, sample: BatchPart, hasError: bool, stream: Option<nat>)
      modifies this
      ensures View() == HandleSample(old(View()), key, sample, hasError, stream)
    {
      if key !in subscriptions {
        return;
      }
      var sub := subscriptions[key];
      var skipped := 0;
      if !hasError {
        if sub.last.Some? && sample.index <= sub.last.value {
          SubmitRequest(sub.request, sub.mode, Some(Successor(sub.last.value)), stream);
          return;
        }
        skipped := Skipped(sub.last, sample.index);
      }
      Deliver(key, [Delivered(sample, skipped)], sample.index, stream);
    }

    method HandleSubscriptionBatchResponse(key: Key, parts: seq<BatchPart>, stream: Option<nat>)
      requires parts != []
      modifies this
      ensures View() == HandleBatch(old(View()), key, parts, stream)
    {
      if key !in subscriptions {
        return;
      }
      var last := subscriptions[key].last;
      var collected := CollectMessages(last, parts, ReadableTopic);
      if collected.None? {
        var lastIndex := parts[|parts| - 1].index;
        ResumeSubscriptionAfterBatchError(key, if lastIndex < U64_LIMIT - 1 then Some(lastIndex + 1) else None, stream);
        return;
      }
      BatchEqualsOneByOne(last, parts);
      Deliver(key, collected.value.messages, collected.value.last.value, stream);
    }

    method ResumeSubscriptionAfterBatchError(key: Key, nextIndex: Option<u64>, stream: Option<nat>)
      modifies this
      ensures View() == Resume(old(View()), key, nextIndex, stream)
    {
      if key !in subscriptions {
        return;
      }
      SubmitRequest(subscriptions[key].request, NextMode, nextIndex, stream);
      notices := notices + [Problem(key)];
    }

    method ReportSubscriptionError(key: Key)
      modifies this
      ensures View() == ReportError(old(View()), key)
    {
      if key !in subscriptions {
        return;
      }
      subscriptions := subscriptions - {key};
      notices := notices + [Problem(key)];
    }

    method HandleSubscribedResponse(q: Request, r: Response, stream: Option<nat>)
      modifies this
      ensures View() == HandleSubscribed(old(View()), q, r, stream)
    {
      var hasError := HasError(r.status);
      if !hasError && q.command.batch {
        var parts := DecodeBatch(r.payload);
        if parts.Err? {
          ResumeSubscriptionAfterBatchError(q.key, None, stream);
        } else {
          BatchGrammar.AcceptedIsConsecutive(r.payload);
          HandleSubscriptionBatchResponse(q.key, parts.value, stream);
        }
      } else if (hasError && (q.command.batch || r.index.None?)) || r.index.None? {
        ReportSubscriptionError(q.key);
      } else {
        HandleSubscriptionResponse(q.key, BatchPart(r.index.value, r.topic, r.serviceName, r.payload),
                                   hasError, stream);
      }
    }

    /**
     A response of any status, body and index has the effect that can be read off it. It keeps one
     stream per subscription unless it is misrouted, and the account of every subscription unless it
     overwrites an index.
     */
    method ProcessResponse(id: nat, r: Response, stream: Option<nat>)
      requires stream.Some? ==> stream.value !in requests
      modifies this
      ensures View() == Process(old(View()), id, r, stream)
      ensures View() == if id in old(requests) then Forget(AfterAnswer(old(View()), old(requests)[id], r, stream), id)
                        else old(View())
      ensures old(Inv(View())) ==> (Inv(View()) <==> !old(Misrouted(View(), id, r, stream)))
      ensures old(Keyed(View())) ==> Keyed(View())
      ensures old(Keyed(View()) && AllInOrder(View())) ==> (AllInOrder(View()) <==> !old(Overwrites(View(), id, r)))
      ensures old(Keyed(View()) && AllTold(View())) ==> AllTold(View())
    {
      ghost var was := View();
      RespondTo(id, r, stream);
      ProcessAnswers(was, id, r, stream);
      if Inv(was) {
        ProcessKeepsInvIff(was, id, r, stream);
      }
      if Keyed(was) {
        ProcessKeepsKeyed(was, id, r, stream);
        if AllInOrder(was) {
          ProcessInOrderIff(was, id, r, stream);
        }
        if AllTold(was) {
          ProcessKeepsTold(was, id, r, stream);
        }
      }
    }

    method RespondTo(id: nat, r: Response, stream: Option<nat>)
      modifies this
      ensures View() == Process(old(View()), id, r, stream)
    {
      if id !in requests {
        return;
      }
      var q := requests[id];
      if r.status == 302 {
        if r.redirect.None? {
          notices := notices + [Failure(q.command)];
        } else {
          SendLongPollRequests(q.key, r.redirect.value, stream);
        }
      } else if r.status == 504 && r.index.Some? {
        SendLongPollRequests(q.key, r.index.value, stream);
      } else if q.command.kind != Subscribe {
        notices := notices + [Reply(q.key)];
      } else {
        HandleSubscribedResponse(q, r, stream);
      }
      requests := requests - {id};
    }

    /** A subscription is started, joined or refused; one stream each and all accounts are kept. */
    method StartSubscription(topic: MdpTopic, mode: Mode, order: seq<UriQuery.Entry>, stream: Option<nat>)
      requires CanTake(topic, order) && (stream.Some? ==> stream.value !in requests)
      modifies this
      ensures View() == Start(old(View()), topic, mode, order, stream)
      ensures var initial := TakeInitialIndex(topic, mode, order);
              initial.Some? && HasTopic(topic) ==>
                View() == Started(old(View()), NewCommand(Subscribe, initial.value.topic), initial.value.mode,
                                  initial.value.index, stream)
      ensures old(Inv(View())) ==> Inv(View())
      ensures old(Keyed(View())) ==> Keyed(View())
      ensures old(AllInOrder(View())) ==> AllInOrder(View())
      ensures old(Keyed(View()) && AllTold(View())) ==> AllTold(View())
    {
      ghost var was, e := View(), Starts(topic, mode, order, stream);
      var initial := TakeInitialIndex(topic, mode, order);
      if initial.None? || !HasTopic(topic) {
        notices := notices + [Refusal(SubscriptionKey(topic))];
      } else {
        BeginSubscription(NewCommand(Subscribe, initial.value.topic), initial.value.mode, initial.value.index, stream);
      }
      assert View() == Step(was, e);
      StartIs(was, e);
      if Inv(was) {
        StartKeepsInv(was, e);
      }
      if AllInOrder(was) {
        StartInOrder(was, e);
      }
      if Keyed(was) {
        StepKeepsKeyed(was, e);
        if AllTold(was) {
          StepKeepsTold(was, e);
        }
      }
    }

    method BeginSubscription(command: Command, mode: Mode, index: Option<u64>, stream: Option<nat>)
      modifies this
      ensures View() == Begin(old(View()), command, mode, index, stream)
    {
      var key := command.key;
      if key in subscriptions {
        var sub := subscriptions[key];
        if command.batch || sub.request.batch {
          notices := notices + [Refusal(key)];
          return;
        }
        subscriptions := subscriptions[key := sub.(request := command, mode := mode, callbacks := sub.callbacks + 1)];
      } else {
        var start := None;
        if index.Some? && index.value > 0 {
          start := Some(index.value - 1);
        }
        subscriptions := subscriptions[key := Subscription(command, mode, start, 1, start, [], |notices|)];
        SubmitRequest(command, mode, index, stream);
      }
    }

    /** A live subscription is gone, with every stream that polls for it, and nobody is told. */
    method StopSubscription(topic: MdpTopic)
      modifies this
      ensures View() == Stop(old(View()), topic)
      ensures notices == old(notices)
      ensures HasTopic(topic) && SubscriptionKey(topic) in old(subscriptions) ==> Quiet(View(), SubscriptionKey(topic))
      ensures old(Inv(View())) ==> Inv(View())
    {
      ghost var was := View();
      if HasTopic(topic) {
        CancelSubscription(SubscriptionKey(topic));
        if Inv(was) {
          StopKeepsInv(was, SubscriptionKey(topic));
        }
      }
    }

    method CancelSubscription(key: Key)
      modifies this
      ensures View() == StopKey(old(View()), key)
    {
      if key !in subscriptions {
        return;
      }
      var pending := requests.Keys;
      while pending != {}
        invariant pending <= requests.Keys <= old(requests).Keys
        invariant subscriptions == old(subscriptions) && notices == old(notices)
        invariant forall id | id in requests :: requests[id] == old(requests)[id]
        invariant forall id | id in old(requests) ::
                    id in requests || (old(requests)[id].command.kind == Subscribe && old(requests)[id].key == key)
        invariant forall id | id in requests && id !in pending ::
                    !(requests[id].command.kind == Subscribe && requests[id].key == key)
        decreases pending
      {
        var id :| id in pending;
        pending := pending - {id};
        if requests[id].command.kind == Subscribe && requests[id].key == key {
          requests := requests - {id};
        }
      }
      subscriptions := subscriptions - {key};
      assert requests == Cancelled(old(requests), key);
    }
  }
}
