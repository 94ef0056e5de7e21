/** The Emscripten worker as the object it is: its maps updated in place, handler by handler. */
module EmscriptenWorker {
  import opened Wrappers
  import opened Text
  import opened LongPollingBatch
  import opened Delivery
  import opened SubscriptionTopic
  import opened RestClientEmscripten
  import BatchGrammar
  import BrowserAnswers
  import UriQuery
  import EmscriptenRuns
  import Native = RestClientNative

  class RestWorkerState {
    var accepting: bool
    var subscriptions: map<nat, Subscription>
    var starts: map<nat, Option<u64>>
    var fetches: map<nat, Fetch>
    var nextSubscription: nat
    var nextFetch: nat
    var calls: seq<nat>
    var log: seq<Call>

    ghost function View(): Worker
      reads this
    {
      Worker(accepting, subscriptions, starts, fetches, nextSubscription, nextFetch, calls, log)
    }

    constructor ()
      ensures View() == INITIAL
    {
      accepting, subscriptions, starts, fetches, calls, log := true, map[], map[], map[], [], [];
      nextSubscription, nextFetch := 1, 1;
    }

    method InvokeGuarded(call: Call)
      modifies this
      ensures View() == Invoke(old(View()), [call])
    {
      if accepting {
        log := log + [call];
      }
    }

    method BeginFetch(fetch: Fetch)
      modifies this
      ensures View() == StartFetch(old(View()), fetch)
    {
      var id := nextFetch;
      nextFetch := nextFetch + 1;
      fetches := fetches[id := fetch];
      calls := calls + [id];
    }

    method BeginLongPoll(id: nat, position: Position)
      modifies this
      ensures View() == StartLongPoll(old(View()), id, position)
    {
      if !accepting || id !in subscriptions {
        return;
      }
      subscriptions := subscriptions[id := subscriptions[id].(activeFetch := Some(nextFetch))];
      BeginFetch(Fetch(Some(id), position, false, false));
    }

    method Close(fetch: nat, aborted: Completion)
      modifies this
      ensures View() == CloseFetch(old(View()), fetch, aborted)
      decreases 1
    {
      if fetch !in fetches || fetches[fetch].closing {
        return;
      }
      fetches := fetches[fetch := fetches[fetch].(closing := true)];
      CompleteFetch(fetch, aborted);
      fetches := fetches - {fetch};
    }

    method EndOf(id: nat, aborted: Completion)
      modifies this
      ensures View() == EndSubscription(old(View()), id, aborted)
      decreases 2, 0
    {
      if id !in subscriptions {
        return;
      }
      var outstanding := subscriptions[id].activeFetch;
      subscriptions := subscriptions - {id};
      if outstanding.Some? {
        Close(outstanding.value, aborted);
      }
      InvokeGuarded(End(id));
    }

    method Resume(fetch: nat, id: nat, next: Option<u64>, done: Completion)
      modifies this
      ensures View() == ResumeAfterBatchError(old(View()), fetch, id, next, done)
      decreases 2, 0
    {
      Close(fetch, done);
      InvokeGuarded(Problem(id));
      BeginLongPoll(id, Following(next));
    }

    method ReportAll(id: nat, messages: seq<Delivered>)
      modifies this
      ensures View() == Invoke(old(View()), Report(id, messages))
    {
      for i := 0 to |messages|
        invariant View() == Invoke(old(View()), Report(id, messages)[..i])
      {
        InvokeGuarded(Sample(id, messages[i]));
        assert Report(id, messages)[..i + 1] == Report(id, messages)[..i] + [Sample(id, messages[i])];
      }
      assert Report(id, messages)[..|messages|] == Report(id, messages);
    }

    method Deliver(fetch: nat, id: nat, messages: seq<Delivered>, last: u64, done: Completion)
      requires id in subscriptions
      modifies this
      ensures View() == Advance(old(View()), fetch, id, messages, last, done)
      decreases 2, 0
    {
      var sub := subscriptions[id];
      subscriptions := subscriptions[id := sub.(last := Some(last), delivered := sub.delivered + messages)];
      Close(fetch, done);
      ReportAll(id, messages);
      BeginLongPoll(id, At(Successor(last)));
    }

    method DeliverParts(fetch: nat, id: nat, parts: seq<BatchPart>, done: Completion)
      requires id in subscriptions && parts != []
      modifies this
      ensures View() == HandleParts(old(View()), fetch, id, parts, done)
      decreases 2, 1
    {
      var collected := CollectMessages(subscriptions[id].last, parts, Native.ReadableTopic);
      if collected.None? {
        var index := parts[|parts| - 1].index;
        Resume(fetch, id, if index < U64_LIMIT - 1 then Some(index + 1) else None, done);
        return;
      }
      BatchEqualsOneByOne(subscriptions[id].last, parts);
      Deliver(fetch, id, collected.value.messages, collected.value.last.value, done);
    }

    method DeliverBatch(fetch: nat, id: nat, done: Completion)
      requires id in subscriptions
      modifies this
      ensures View() == HandleBatch(old(View()), fetch, id, done)
      decreases 2, 2
    {
      var parts := DecodeBatch(done.body);
      if parts.Err? {
        Resume(fetch, id, None, done);
        return;
      }
      BatchGrammar.AcceptedIsConsecutive(done.body);
      DeliverParts(fetch, id, parts.value, done);
    }

    method HandleSubscriptionCompletion(fetch: nat, id: nat, done: Completion)
      modifies this
      ensures View() == HandleSubscription(old(View()), fetch, id, done)
      decreases 2, 3
    {
      if !accepting || id !in subscriptions {
        Close(fetch, done);
        return;
      }
      var sub := subscriptions[id];
      if done.status == 504 {
        if done.index.None? {
          EndOf(id, done);
          return;
        }
        Close(fetch, done);
        BeginLongPoll(id, At(done.index.value));
        return;
      }
      if done.failed {
        EndOf(id, done);
        return;
      }
      if UsesBatch(sub.target.topic) {
        DeliverBatch(fetch, id, done);
        return;
      }
      if done.index.None? {
        EndOf(id, done);
        return;
      }
      var index := done.index.value;
      if sub.last.Some? && index <= sub.last.value {
        Close(fetch, done);
        BeginLongPoll(id, At(Successor(sub.last.value)));
        return;
      }
      Deliver(fetch, id, [Delivered(BatchPart(index, "", "", done.body), Skipped(sub.last, index))], index, done);
    }

    method CompleteFetch(fetch: nat, done: Completion)
      modifies this
      ensures View() == Complete(old(View()), fetch, done)
      decreases if IsClosing(View(), fetch) then 0 else 3
    {
      if fetch !in fetches || fetches[fetch].closing {
        return;
      }
      if fetches[fetch].subscription.Some? {
        HandleSubscriptionCompletion(fetch, fetches[fetch].subscription.value, done);
      } else {
        Close(fetch, done);
        InvokeGuarded(Answer(fetch));
      }
    }

    /** The callbacks of a fetch, whatever came of it and whenever they are called. */
    method OnFetch(fetch: nat, done: Completion)
      modifies this
      ensures View() == Step(old(View()), Completes(fetch, done))
      ensures old(EmscriptenRuns.Good(View())) ==>
                EmscriptenRuns.Good(View()) && View() == BrowserAnswers.AfterCompletion(old(View()), fetch, done)
    {
      ghost var was := View();
      CompleteFetch(fetch, done);
      if EmscriptenRuns.Good(was) {
        EmscriptenRuns.StepKeepsGood(was, Completes(fetch, done));
        BrowserAnswers.CompleteAnswers(was, fetch, done);
      }
    }

    /** The part of `startFetch` after its call of `emscripten_fetch`. */
    method FetchReturned(handle: bool)
      modifies this
      ensures View() == Step(old(View()), Returns(handle))
      ensures old(EmscriptenRuns.Good(View())) ==> EmscriptenRuns.Good(View())
    {
      ghost var was := View();
      FinishFetch(handle);
      if EmscriptenRuns.Good(was) {
        EmscriptenRuns.StepKeepsGood(was, Returns(handle));
      }
    }

    method FinishFetch(handle: bool)
      modifies this
      ensures View() == Return(old(View()), handle)
    {
      if calls == [] {
        return;
      }
      var fetch := calls[|calls| - 1];
      calls := calls[..|calls| - 1];
      if fetch !in fetches {
        return;
      }
      if !handle {
        var subscription := fetches[fetch].subscription;
        fetches := fetches - {fetch};
        if subscription.Some? {
          EndOf(subscription.value, Completion(500, true, None, ""));
        } else {
          InvokeGuarded(Answer(fetch));
        }
        return;
      }
      if !fetches[fetch].closing {
        fetches := fetches[fetch := fetches[fetch].(handle := true)];
      }
    }

    /** A subscription is started or refused; what the worker keeps is kept. */
    method Subscribe(target: Target, order: seq<UriQuery.Entry>)
      requires CanTake(target.topic, order)
      modifies this
      ensures View() == StartSubscription(old(View()), target, order)
      ensures old(EmscriptenRuns.Good(View())) ==> EmscriptenRuns.Good(View())
    {
      ghost var was := View();
      if accepting {
        var initial := TakeInitialIndex(target.topic, NextMode, order);
        if initial.None? {
          InvokeGuarded(Refusal);
        } else {
          BeginSubscription(target.(topic := initial.value.topic), Requested(initial.value.mode, initial.value.index));
        }
      }
      assert View() == Step(was, Subscribes(target, order));
      if EmscriptenRuns.Good(was) {
        EmscriptenRuns.StepKeepsGood(was, Subscribes(target, order));
      }
    }

    method BeginSubscription(target: Target, position: Position)
      modifies this
      ensures View() == Begin(old(View()), target, position)
    {
      var conflict := FindConflict(target);
      if conflict {
        InvokeGuarded(Refusal);
        return;
      }
      var start := None;
      if position.At? && position.index > 0 {
        start := Some(position.index - 1);
      }
      var id := nextSubscription;
      nextSubscription := nextSubscription + 1;
      subscriptions := subscriptions[id := Subscription(target, start, None, [])];
      starts := starts[id := start];
      BeginLongPoll(id, position);
    }

    method FindConflict(target: Target) returns (found: bool)
      ensures found == Conflicts(View(), target)
    {
      var pending := subscriptions.Keys;
      while pending != {}
        invariant pending <= subscriptions.Keys
        invariant forall id | id in subscriptions && id !in pending ::
                    !(SameSubscription(subscriptions[id].target, target)
                      && (UsesBatch(target.topic) || UsesBatch(subscriptions[id].target.topic)))
        decreases pending
      {
        var id :| id in pending;
        if SameSubscription(subscriptions[id].target, target)
           && (UsesBatch(target.topic) || UsesBatch(subscriptions[id].target.topic)) {
          return true;
        }
        pending := pending - {id};
      }
      found := false;
    }

    /** The subscription that is found is gone, with its fetch, and no callback is called. */
    method Unsubscribe(target: Target) returns (id: Option<nat>)
      modifies this
      ensures Finds(old(View()), target, id)
      ensures View() == Step(old(View()), Unsubscribes(target, id))
      ensures old(EmscriptenRuns.Good(View())) ==>
                && EmscriptenRuns.Good(View()) && log == old(log)
                && (accepting && id.Some? ==>
                      id.value !in subscriptions && forall f: nat :: !EmscriptenRuns.Polls(View(), f, id.value))
    {
      ghost var was := View();
      id := Find(target);
      if accepting && id.Some? {
        var outstanding := subscriptions[id.value].activeFetch;
        subscriptions := subscriptions - {id.value};
        if outstanding.Some? {
          Close(outstanding.value, Completion(0, true, None, ""));
        }
      }
      if EmscriptenRuns.Good(was) {
        EmscriptenRuns.StepKeepsGood(was, Unsubscribes(target, id));
        EmscriptenRuns.UnsubscribeIs(was, id);
        if accepting && id.Some? {
          EmscriptenRuns.ErasedKeepsInv(was, id.value);
        }
      }
    }

    method Find(target: Target) returns (id: Option<nat>)
      ensures Finds(View(), target, id)
    {
      var pending := subscriptions.Keys;
      while pending != {}
        invariant pending <= subscriptions.Keys
        invariant forall other | other in subscriptions && other !in pending ::
                    !SameSubscription(subscriptions[other].target, target)
        decreases pending
      {
        var other :| other in pending;
        if SameSubscription(subscriptions[other].target, target) {
          return Some(other);
        }
        pending := pending - {other};
      }
      id := None;
    }

    /** The loop ends because no fetch is left half closed. */
    method CleanUp()
      requires EmscriptenRuns.Calm(View())
      modifies this
      ensures View() == Step(old(View()), CleansUp)
    {
      while fetches.Keys != {}
        invariant EmscriptenRuns.Calm(View())
        invariant View() == old(View()).(fetches := fetches)
        decreases fetches.Keys
      {
        var fetch :| fetch in fetches.Keys;
        EmscriptenRuns.CloseIs(View(), fetch, Completion(0, true, None, ""));
        Close(fetch, Completion(0, true, None, ""));
      }
      assert fetches == map[];
      subscriptions := map[];
    }
  }
}
