/**
 What both REST clients do with the samples of one subscription: drop what was delivered before,
 report what was missed, and keep the index of the last delivered sample.
 */
module Delivery {
  import opened Wrappers
  import opened Text
  import opened LongPollingBatch
  import BatchGrammar

  /** A sample handed to the callbacks, with the number its warning reports as skipped. */
  datatype Delivered = Delivered(sample: BatchPart, skipped: nat)

  datatype Outcome = Outcome(messages: seq<Delivered>, last: Option<u64>)

  predicate IsDuplicate(last: Option<u64>, index: u64) {
    last.Some? && index <= last.value
  }

  /** `makeSkippedWarning`, in 64-bit unsigned arithmetic; 0 stands for no warning. */
  function Skipped(last: Option<u64>, index: u64): nat {
    if last.None? then 0
    else
      var distance := (index - last.value) % U64_LIMIT;
      if distance <= 1 then 0 else distance - 1
  }

  function Successor(index: u64): u64 {
    (index + 1) % U64_LIMIT
  }

  function DeliverOne(last: Option<u64>, sample: BatchPart): Outcome {
    if IsDuplicate(last, sample.index) then Outcome([], last)
    else Outcome([Delivered(sample, Skipped(last, sample.index))], Some(sample.index))
  }

  function DeliverAll(last: Option<u64>, parts: seq<BatchPart>): Outcome
    decreases |parts|
  {
    if parts == [] then Outcome([], last)
    else
      var one := DeliverOne(last, parts[0]);
      var rest := DeliverAll(one.last, parts[1..]);
      Outcome(one.messages + rest.messages, rest.last)
  }

  /** The topic of every part that is not dropped must be a readable URI. */
  predicate Readable(last: Option<u64>, parts: seq<BatchPart>, readable: string -> bool)
    decreases |parts|
  {
    parts == []
    || ((IsDuplicate(last, parts[0].index) || readable(parts[0].topic))
        && Readable(DeliverOne(last, parts[0]).last, parts[1..], readable))
  }

  function Behind(messages: seq<Delivered>, rest: Outcome): Outcome {
    Outcome(messages + rest.messages, rest.last)
  }

  /** What is left to do after the first `i` parts. */
  ghost predicate Collected(last: Option<u64>, parts: seq<BatchPart>, readable: string -> bool,
                            i: nat, messages: seq<Delivered>, now: Option<u64>)
  {
    && i <= |parts|
    && Readable(last, parts, readable) == Readable(now, parts[i..], readable)
    && DeliverAll(last, parts) == Behind(messages, DeliverAll(now, parts[i..]))
  }

  lemma CollectedNone(last: Option<u64>, parts: seq<BatchPart>, readable: string -> bool)
    ensures Collected(last, parts, readable, 0, [], last)
  {
    assert parts[0..] == parts;
    assert Behind([], DeliverAll(last, parts)) == DeliverAll(last, parts);
  }

  lemma Regrouped<T>(a: seq<T>, b: seq<T>, c: seq<T>)
    ensures a + (b + c) == a + b + c
  {
  }

  lemma BehindBoth(messages: seq<Delivered>, more: seq<Delivered>, rest: Outcome)
    ensures Behind(messages, Behind(more, rest)) == Behind(messages + more, rest)
  {
    Regrouped(messages, more, rest.messages);
  }

  lemma DeliverFirst(last: Option<u64>, parts: seq<BatchPart>)
    requires parts != []
    ensures var one := DeliverOne(last, parts[0]);
            DeliverAll(last, parts) == Behind(one.messages, DeliverAll(one.last, parts[1..]))
  {
  }

  lemma CollectedNext(last: Option<u64>, parts: seq<BatchPart>, readable: string -> bool,
                      i: nat, messages: seq<Delivered>, now: Option<u64>)
    requires i < |parts| && Collected(last, parts, readable, i, messages, now)
    ensures var one := DeliverOne(now, parts[i]);
            if IsDuplicate(now, parts[i].index) || readable(parts[i].topic)
            then Collected(last, parts, readable, i + 1, messages + one.messages, one.last)
            else !Readable(last, parts, readable)
  {
    var one := DeliverOne(now, parts[i]);
    assert parts[i..][1..] == parts[i + 1..];
    DeliverFirst(now, parts[i..]);
    BehindBoth(messages, one.messages, DeliverAll(one.last, parts[i + 1..]));
  }

  /** The loop both clients run over a decoded batch; `None` is the exception of a bad topic. */
  method CollectMessages(last: Option<u64>, parts: seq<BatchPart>, readable: string -> bool)
    returns (r: Option<Outcome>)
    ensures r == if Readable(last, parts, readable) then Some(DeliverAll(last, parts)) else None
  {
    var lastDelivered := last;
    var messages: seq<Delivered> := [];
    CollectedNone(last, parts, readable);
    for i := 0 to |parts|
      invariant Collected(last, parts, readable, i, messages, lastDelivered)
    {
      var part := parts[i];
      CollectedNext(last, parts, readable, i, messages, lastDelivered);
      if lastDelivered.Some? && part.index <= lastDelivered.value {
        assert messages + [] == messages;
        continue;
      }
      if !readable(part.topic) {
        return None;
      }
      messages := messages + [Delivered(part, Skipped(lastDelivered, part.index))];
      lastDelivered := Some(part.index);
    }
    assert messages + [] == messages;
    r := Some(Outcome(messages, lastDelivered));
  }

  // ----- accounting ------------------------------------------------------------------------------

  /** The index delivered before the i-th message: the previous one, or where counting started. */
  function Before(start: Option<u64>, log: seq<Delivered>, i: nat): Option<u64>
    requires i <= |log|
  {
    if i == 0 then start else Some(log[i - 1].sample.index)
  }

  /** A message comes after the previous index and reports exactly the indices in between. */
  predicate Follows(previous: Option<u64>, message: Delivered) {
    if previous.None? then message.skipped == 0
    else previous.value < message.sample.index && message.skipped == message.sample.index - previous.value - 1
  }

  /** The account of a subscription that counts from `start` and has delivered up to `last`. */
  ghost predicate Accounted(start: Option<u64>, log: seq<Delivered>, last: Option<u64>) {
    && (forall i {:trigger Before(start, log, i)} | 0 <= i < |log| :: Follows(Before(start, log, i), log[i]))
    && last == Before(start, log, |log|)
  }

  lemma {:induction false} AccountedIncreases(start: Option<u64>, log: seq<Delivered>, last: Option<u64>, i: nat, j: nat)
    requires Accounted(start, log, last) && i < j < |log|
    ensures log[i].sample.index < log[j].sample.index
    decreases j
  {
    assert log[j - 1].sample.index < log[j].sample.index by {
      assert Follows(Before(start, log, j), log[j]);
    }
    if i < j - 1 {
      AccountedIncreases(start, log, last, i, j - 1);
    }
  }

  lemma AccountedBefore(start: Option<u64>, log: seq<Delivered>, last: Option<u64>)
    requires Accounted(start, log, last) && log != []
    ensures Accounted(start, log[..|log| - 1], Before(start, log, |log| - 1))
  {
    var shorter := log[..|log| - 1];
    forall i {:trigger Before(start, shorter, i)} | 0 <= i < |shorter|
      ensures Follows(Before(start, shorter, i), shorter[i])
    {
      assert Follows(Before(start, log, i), log[i]);
    }
  }

  /** Delivered messages and reported skips together. */
  function Total(log: seq<Delivered>): nat {
    if log == [] then 0 else Total(log[..|log| - 1]) + 1 + log[|log| - 1].skipped
  }

  /** The index before the first one that counts: given at the start, or set by the first sample. */
  function Base(start: Option<u64>, log: seq<Delivered>): int {
    if start.Some? then start.value else if log != [] then log[0].sample.index - 1 else 0
  }

  /** Every index up to the last one was either delivered or reported as skipped. */
  lemma {:induction false} AccountedTotal(start: Option<u64>, log: seq<Delivered>, last: Option<u64>)
    requires Accounted(start, log, last) && last.Some?
    ensures Total(log) == last.value - Base(start, log)
  {
    if log != [] {
      var n := |log| - 1;
      var shorter := log[..n];
      assert Follows(Before(start, log, n), log[n]);
      AccountedBefore(start, log, last);
      if n > 0 || start.Some? {
        AccountedTotal(start, shorter, Before(start, log, n));
      }
    }
  }

  lemma AppendAccountsIff(start: Option<u64>, log: seq<Delivered>, last: Option<u64>, message: Delivered)
    requires Accounted(start, log, last)
    ensures Accounted(start, log + [message], Some(message.sample.index)) <==> Follows(last, message)
  {
    var longer := log + [message];
    assert forall i {:trigger Before(start, longer, i)} | 0 <= i <= |log| ::
        Before(start, longer, i) == Before(start, log, i);
    assert Before(start, longer, |log|) == last && longer[|log|] == message;
  }

  lemma SkippedFollows(last: Option<u64>, sample: BatchPart)
    requires !IsDuplicate(last, sample.index)
    ensures Follows(last, Delivered(sample, Skipped(last, sample.index)))
  {
  }

  lemma DeliverOneAccounts(start: Option<u64>, log: seq<Delivered>, last: Option<u64>, sample: BatchPart)
    requires Accounted(start, log, last)
    ensures var one := DeliverOne(last, sample);
            Accounted(start, log + one.messages, one.last)
  {
    if IsDuplicate(last, sample.index) {
      assert log + [] == log;
    } else {
      SkippedFollows(last, sample);
      AppendAccountsIff(start, log, last, Delivered(sample, Skipped(last, sample.index)));
    }
  }

  lemma {:induction false} DeliverAllAccounts(start: Option<u64>, log: seq<Delivered>, last: Option<u64>,
                                              parts: seq<BatchPart>)
    requires Accounted(start, log, last)
    ensures var all := DeliverAll(last, parts);
            Accounted(start, log + all.messages, all.last)
    decreases |parts|
  {
    if parts == [] {
      assert log + [] == log;
    } else {
      var one := DeliverOne(last, parts[0]);
      var rest := DeliverAll(one.last, parts[1..]);
      assert Accounted(start, log + one.messages + rest.messages, rest.last) by {
        DeliverOneAccounts(start, log, last, parts[0]);
        DeliverAllAccounts(start, log + one.messages, one.last, parts[1..]);
      }
      Regrouped(log, one.messages, rest.messages);
      DeliverFirst(last, parts);
    }
  }

  /** A sample that is passed on unchecked keeps the account only if it is the next one. */
  lemma UncheckedAccountsIff(start: Option<u64>, log: seq<Delivered>, last: Option<u64>, sample: BatchPart)
    requires Accounted(start, log, last)
    ensures Accounted(start, log + [Delivered(sample, 0)], Some(sample.index))
            <==> last.None? || sample.index == last.value + 1
  {
    AppendAccountsIff(start, log, last, Delivered(sample, 0));
  }

  // ----- batches and single samples --------------------------------------------------------------

  /** One sample through the single-sample handler; `next` is the index it requests. */
  datatype Fed = Fed(outcome: Outcome, next: u64)

  function FeedOne(last: Option<u64>, sample: BatchPart): Fed {
    if IsDuplicate(last, sample.index) then Fed(Outcome([], last), Successor(last.value))
    else Fed(DeliverOne(last, sample), Successor(sample.index))
  }

  function FeedAll(last: Option<u64>, parts: seq<BatchPart>): Fed
    requires parts != []
    decreases |parts|
  {
    var one := FeedOne(last, parts[0]);
    if |parts| == 1 then one
    else
      var rest := FeedAll(one.outcome.last, parts[1..]);
      Fed(Outcome(one.outcome.messages + rest.outcome.messages, rest.outcome.last), rest.next)
  }

  /** A batch delivers the same messages and asks for the same index as its parts one by one. */
  lemma {:induction false} BatchEqualsOneByOne(last: Option<u64>, parts: seq<BatchPart>)
    requires parts != []
    ensures DeliverAll(last, parts).last.Some?
    ensures FeedAll(last, parts) == Fed(DeliverAll(last, parts), Successor(DeliverAll(last, parts).last.value))
    decreases |parts|
  {
    var one := DeliverOne(last, parts[0]);
    if |parts| == 1 {
      assert DeliverAll(one.last, parts[1..]) == Outcome([], one.last);
      assert one.messages + [] == one.messages;
    } else {
      BatchEqualsOneByOne(one.last, parts[1..]);
    }
  }

  lemma {:induction false} ContiguousBatchSkipsNothing(last: u64, parts: seq<BatchPart>)
    requires BatchGrammar.Consecutive(parts)
    requires parts != [] ==> parts[0].index <= last + 1
    ensures forall i | 0 <= i < |DeliverAll(Some(last), parts).messages| ::
              DeliverAll(Some(last), parts).messages[i].skipped == 0
    decreases |parts|
  {
    if parts != [] {
      var one := DeliverOne(Some(last), parts[0]);
      ContiguousBatchSkipsNothing(one.last.value, parts[1..]);
    }
  }

  /** Within a decoded batch only the first delivered part can carry a skipped warning. */
  lemma OnlyFirstPartWarns(last: Option<u64>, body: string)
    requires Decode(body).Ok?
    ensures var messages := DeliverAll(last, Decode(body).value).messages;
            forall i | 0 < i < |messages| :: messages[i].skipped == 0
  {
    BatchGrammar.AcceptedIsConsecutive(body);
    var parts := Decode(body).value;
    FirstWarningOnly(last, parts);
  }

  lemma {:induction false} FirstWarningOnly(last: Option<u64>, parts: seq<BatchPart>)
    requires BatchGrammar.Consecutive(parts)
    ensures var messages := DeliverAll(last, parts).messages;
            forall i | 0 < i < |messages| :: messages[i].skipped == 0
    decreases |parts|
  {
    if parts != [] {
      var one := DeliverOne(last, parts[0]);
      if one.messages == [] {
        FirstWarningOnly(last, parts[1..]);
        assert [] + DeliverAll(last, parts[1..]).messages == DeliverAll(last, parts[1..]).messages;
      } else {
        ContiguousBatchSkipsNothing(parts[0].index, parts[1..]);
      }
    }
  }

  // ----- what is new in a batch --------------------------------------------------------------------

  /** Indices rise, as in every decoded batch and in a single sample. */
  predicate Rising(parts: seq<BatchPart>) {
    forall i, j | 0 <= i < j < |parts| :: parts[i].index < parts[j].index
  }

  lemma ConsecutiveRises(parts: seq<BatchPart>)
    requires BatchGrammar.Consecutive(parts)
    ensures Rising(parts)
  {
    forall i, j | 0 <= i < j < |parts| ensures parts[i].index < parts[j].index {
      ConsecutiveDistance(parts, i, j);
    }
  }

  lemma {:induction false} ConsecutiveDistance(parts: seq<BatchPart>, i: nat, j: nat)
    requires BatchGrammar.Consecutive(parts) && i <= j < |parts|
    ensures parts[j].index == parts[i].index + (j - i)
    decreases j
  {
    if i < j {
      ConsecutiveDistance(parts, i, j - 1);
    }
  }

  /** The parts whose index is beyond the last one delivered, in their order. */
  function Fresh(last: Option<u64>, parts: seq<BatchPart>): seq<BatchPart>
    decreases |parts|
  {
    if parts == [] then []
    else if last.Some? && parts[0].index <= last.value then Fresh(last, parts[1..])
    else [parts[0]] + Fresh(last, parts[1..])
  }

  /** How many indices lie between two samples; nothing is known about what precedes the first. */
  function Gap(previous: Option<u64>, index: u64): int {
    if previous.Some? then index - previous.value - 1 else 0
  }

  /** Each sample with the number of indices that are missing between it and the one before. */
  predicate Announces(messages: seq<Delivered>, last: Option<u64>, news: seq<BatchPart>) {
    && |messages| == |news|
    && forall i | 0 <= i < |news| :: messages[i] == Announced(last, news, i)
  }

  function Announced(last: Option<u64>, news: seq<BatchPart>, i: nat): Delivered
    requires i < |news|
  {
    var gap := Gap(if i == 0 then last else Some(news[i - 1].index), news[i].index);
    Delivered(news[i], if gap < 0 then 0 else gap)
  }

  function Newest(last: Option<u64>, index: u64): u64 {
    if last.Some? && last.value > index then last.value else index
  }

  lemma {:induction false} FreshIsAll(last: Option<u64>, parts: seq<BatchPart>)
    requires last.None? || forall i | 0 <= i < |parts| :: parts[i].index > last.value
    ensures Fresh(last, parts) == parts
    decreases |parts|
  {
    if parts != [] {
      FreshIsAll(last, parts[1..]);
    }
  }

  lemma AnnouncesCons(first: Delivered, later: seq<Delivered>, last: Option<u64>, news: seq<BatchPart>)
    requires first.skipped == Gap(last, first.sample.index) && Announces(later, Some(first.sample.index), news)
    ensures Announces([first] + later, last, [first.sample] + news)
  {
    var all, parts := [first] + later, [first.sample] + news;
    forall i | 0 <= i < |parts| ensures all[i] == Announced(last, parts, i) {
      if i > 0 {
        assert all[i] == later[i - 1] == Announced(Some(first.sample.index), news, i - 1);
        assert parts[i] == news[i - 1];
      }
    }
  }

  lemma RisingTail(parts: seq<BatchPart>)
    requires parts != [] && Rising(parts)
    ensures Rising(parts[1..]) && forall i | 0 <= i < |parts[1..]| :: parts[1..][i].index > parts[0].index
  {
    assert forall i | 0 <= i < |parts[1..]| :: parts[1..][i] == parts[i + 1];
  }

  /** The callbacks get exactly the parts that are new, each with the gap in front of it. */
  lemma {:induction false} DeliversFresh(last: Option<u64>, parts: seq<BatchPart>)
    requires Rising(parts)
    ensures Announces(DeliverAll(last, parts).messages, last, Fresh(last, parts))
    decreases |parts|
  {
    if parts != [] {
      var part, rest := parts[0], parts[1..];
      RisingTail(parts);
      DeliverFirst(last, parts);
      if IsDuplicate(last, part.index) {
        DeliversFresh(last, rest);
        assert [] + DeliverAll(last, rest).messages == DeliverAll(last, rest).messages;
      } else {
        DeliversFresh(Some(part.index), rest);
        FreshIsAll(Some(part.index), rest);
        FreshIsAll(last, rest);
        AnnouncesCons(Delivered(part, Skipped(last, part.index)), DeliverAll(Some(part.index), rest).messages, last, rest);
      }
    }
  }

  /** Afterwards the last index is the larger of the two. */
  lemma {:induction false} DeliversUpTo(last: Option<u64>, parts: seq<BatchPart>)
    requires Rising(parts) && parts != []
    ensures DeliverAll(last, parts).last == Some(Newest(last, parts[|parts| - 1].index))
    decreases |parts|
  {
    RisingTail(parts);
    var one := DeliverOne(last, parts[0]);
    if |parts| == 1 {
      assert DeliverAll(one.last, parts[1..]) == Outcome([], one.last);
    } else {
      DeliversUpTo(one.last, parts[1..]);
      assert parts[1..][|parts| - 2] == parts[|parts| - 1];
    }
  }

  /** Only what is delivered needs a readable topic. */
  lemma {:induction false} ReadableIff(last: Option<u64>, parts: seq<BatchPart>, readable: string -> bool)
    requires Rising(parts)
    ensures Readable(last, parts, readable) <==> forall part | part in Fresh(last, parts) :: readable(part.topic)
    decreases |parts|
  {
    if parts != [] {
      var part, rest := parts[0], parts[1..];
      RisingTail(parts);
      if IsDuplicate(last, part.index) {
        ReadableIff(last, rest, readable);
      } else {
        ReadableIff(Some(part.index), rest, readable);
        FreshIsAll(Some(part.index), rest);
        FreshIsAll(last, rest);
        assert forall x :: x in [part] + rest <==> x == part || x in rest;
      }
    }
  }

  /** What the callbacks are told about some parts. */
  function News(last: Option<u64>, parts: seq<BatchPart>): seq<Delivered> {
    var news := Fresh(last, parts);
    seq(|news|, i requires 0 <= i < |news| => Announced(last, news, i))
  }

  lemma DeliversNews(last: Option<u64>, parts: seq<BatchPart>)
    requires Rising(parts) && parts != []
    ensures DeliverAll(last, parts) == Outcome(News(last, parts), Some(Newest(last, parts[|parts| - 1].index)))
  {
    DeliversFresh(last, parts);
    DeliversUpTo(last, parts);
    assert DeliverAll(last, parts).messages == News(last, parts);
  }
}
