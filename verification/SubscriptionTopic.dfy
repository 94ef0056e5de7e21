/**
 How the REST clients name a subscription: the parameters of its topic without the two that steer
 long polling are printed into a new URI, which is parsed again before it becomes a topic. Printing
 and parsing can change a parameter, and what it changes depends on the order in which the hash map
 of parameters is enumerated.
 */
module SubscriptionTopic {
  import opened Wrappers
  import opened Text
  import opened UriQuery
  import Topic
  import Uri

  const INDEX_PARAMETER: string := "LongPollingIdx"
  const BATCH_PARAMETER: string := "LongPollingBatch"

  /** A parsed MDP URI: its path, and its parameters in the order in which they are enumerated. */
  datatype PathAndQuery = MdpTopic(path: string, params: seq<Entry>)

  /** Characters are bytes, as in every parsed URI. */
  type MdpTopic = t: PathAndQuery | AllBytes(t.params) witness MdpTopic("/", [])

  predicate UsesBatch(topic: MdpTopic) {
    BATCH_PARAMETER in MapOf(topic.params)
  }

  function Remaining(params: seq<Entry>): (es: seq<Entry>)
    ensures AllBytes(params) ==> AllBytes(es)
  {
    Erase(Erase(params, INDEX_PARAMETER), BATCH_PARAMETER)
  }

  function ServiceName(topic: MdpTopic): string {
    Topic.ServiceOf(if topic.path == "" then "/" else topic.path)
  }

  /** Without a valid service name the conversion to a topic throws. */
  predicate HasTopic(topic: MdpTopic) {
    Topic.IsValidServiceName(ServiceName(topic))
  }

  function SortedTopic(service: string, params: seq<Entry>): (t: Topic.Topic)
    requires AllBytes(params)
    ensures AllBytes(t.params)
  {
    SortedBytes(params);
    Topic.Topic(service, Topic.SortedMap(params))
  }

  lemma {:induction false} InsertBytes(es: seq<Entry>, e: Entry)
    requires AllBytes(es) && EntryBytes(e)
    ensures AllBytes(Topic.Insert(es, e))
  {
    if es != [] {
      InsertBytes(es[1..], e);
    }
  }

  lemma {:induction false} SortedBytes(es: seq<Entry>)
    requires AllBytes(es)
    ensures AllBytes(Topic.SortedMap(es))
  {
    if es != [] {
      SortedBytes(es[..|es| - 1]);
      InsertBytes(Topic.SortedMap(es[..|es| - 1]), es[|es| - 1]);
    }
  }

  /** The topic that a subscription is for. */
  function Subscribed(topic: MdpTopic): Topic.Topic {
    SortedTopic(ServiceName(topic), Rebuilt(Remaining(topic.params)))
  }

  /** The ZMQ text of a topic, as the key of the client's maps, or the URI that has none. */
  datatype Key = Key(text: string) | Unnormalised(topic: MdpTopic)

  function SubscriptionKey(topic: MdpTopic): Key {
    if HasTopic(topic) then
      SortedBytes(Rebuilt(Remaining(topic.params)));
      Key(Topic.ZmqText(Subscribed(topic)))
    else Unnormalised(topic)
  }

  function RequestKey(topic: MdpTopic): Key {
    if HasTopic(topic) then
      SortedBytes(topic.params);
      Key(Topic.ZmqText(SortedTopic(ServiceName(topic), topic.params)))
    else Unnormalised(topic)
  }

  // ----- the index of a new subscription ------------------------------------------------------------

  datatype Mode = NextMode | LastMode | NoMode

  datatype Initial = Initial(index: Option<u64>, mode: Mode, topic: MdpTopic)

  /** Where a request asks the server to begin; a plain request does not ask for a position. */
  datatype Position = Unasked | Next | Last | At(index: u64)

  /** What `LongPollingIdx` is set to in the URL of a request, if anything. */
  function PositionText(position: Position): Option<string> {
    match position
    case Unasked => None
    case Next => Some("Next")
    case Last => Some("Last")
    case At(index) => Some(ToDecimal(index))
  }

  /** An index takes precedence over the mode. */
  function Requested(mode: Mode, index: Option<u64>): Position {
    match index
    case Some(given) => At(given)
    case None => (match mode case NextMode => Next case LastMode => Last case NoMode => Unasked)
  }

  /** An enumeration of the parameters of the topic that is rebuilt without its index. */
  predicate RebuildsTo(topic: MdpTopic, order: seq<Entry>) {
    Entries(order) && MapOf(order) == MapOf(Rebuilt(Erase(topic.params, INDEX_PARAMETER)))
  }

  predicate CanTake(topic: MdpTopic, order: seq<Entry>) {
    INDEX_PARAMETER in MapOf(topic.params) ==> RebuildsTo(topic, order)
  }

  /** What the index parameter asks for, and the topic without it; `None` is a malformed one. */
  function TakeInitialIndex(topic: MdpTopic, mode: Mode, order: seq<Entry>): (r: Option<Initial>)
    requires CanTake(topic, order)
    ensures r.Some? ==> r.value.topic.path == topic.path
  {
    var params := MapOf(topic.params);
    if INDEX_PARAMETER !in params then Some(Initial(None, mode, topic))
    else
      var value := params[INDEX_PARAMETER];
      var rest := MdpTopic(topic.path, order);
      if value.None? then None
      else if value.value == "Next" then Some(Initial(None, NextMode, rest))
      else if value.value == "Last" then Some(Initial(None, LastMode, rest))
      else
        var parsed := ParseU64(value.value);
        if parsed.None? then None else Some(Initial(parsed, mode, rest))
  }

  /** How the text of an index parameter is to be read. */
  predicate Means(text: string, position: Position) {
    match position
    case Unasked => false
    case Next => text == "Next"
    case Last => text == "Last"
    case At(index) => text != "" && AllDigits(text) && DecimalValue(text) == index
  }

  /** Where a new subscription is to begin, by its index parameter; without one its mode decides. */
  ghost predicate BeginsAt(topic: MdpTopic, mode: Mode, position: Position) {
    var params := MapOf(topic.params);
    if INDEX_PARAMETER !in params then
      (match mode case NextMode => position == Next case LastMode => position == Last case NoMode => position == Unasked)
    else params[INDEX_PARAMETER].Some? && Means(params[INDEX_PARAMETER].value, position)
  }

  lemma WordsAreNotNumbers()
    ensures !AllDigits("Next") && !AllDigits("Last") && "Next" != "Last"
  {
    assert !IsDigit("Next"[0]) && !IsDigit("Last"[0]);
  }

  /**
   The index parameter is accepted exactly if its text can be read, and it is then read as it is
   meant; the topic that goes on is without it, and unchanged if there was none.
   */
  lemma TakesWhatIsMeant(topic: MdpTopic, mode: Mode, order: seq<Entry>, position: Position)
    requires CanTake(topic, order)
    ensures var initial := TakeInitialIndex(topic, mode, order);
            && (BeginsAt(topic, mode, position) <==>
                  initial.Some? && Requested(initial.value.mode, initial.value.index) == position)
            && (initial.Some? ==>
                  initial.value.topic == if INDEX_PARAMETER in MapOf(topic.params) then MdpTopic(topic.path, order) else topic)
  {
    WordsAreNotNumbers();
  }

  /** What a request says is read as it was meant. */
  lemma PositionTextIsMeant(position: Position)
    requires position != Unasked
    ensures PositionText(position).Some? && Means(PositionText(position).value, position)
  {
    if position.At? {
      ParseToDecimal(position.index);
    }
  }

  // ----- keys -----------------------------------------------------------------------------------------

  lemma RemainingEntries(params: seq<Entry>)
    requires Entries(params)
    ensures Entries(Remaining(params))
    ensures MapOf(Remaining(params)) == MapOf(params) - {INDEX_PARAMETER} - {BATCH_PARAMETER}
  {
    EraseEntries(params, INDEX_PARAMETER);
    EraseEntries(Erase(params, INDEX_PARAMETER), BATCH_PARAMETER);
    EraseMap(params, INDEX_PARAMETER);
    EraseMap(Erase(params, INDEX_PARAMETER), BATCH_PARAMETER);
  }

  lemma SubscribedParams(topic: MdpTopic)
    requires Entries(topic.params)
    ensures Topic.Sorted(Subscribed(topic).params)
    ensures MapOf(Subscribed(topic).params) == MapOf(Rebuilt(Remaining(topic.params)))
  {
    RemainingEntries(topic.params);
    RebuiltIs(Remaining(topic.params), true);
    Topic.SortedMapIsSorted(Rebuilt(Remaining(topic.params)));
  }

  /** The topic is what printing the remaining parameters into the URI and parsing it yields. */
  lemma SubscribedIsRebuilt(topic: MdpTopic, scheme: string, authority: string)
    requires Entries(topic.params) && Uri.Addressable(scheme, authority, topic.path, true)
    ensures var text := Uri.UriText(scheme, authority, topic.path, Printed("", Remaining(topic.params)));
            var uri := Uri.ParseUri(text, true);
            && uri.Ok?
            && Topic.FromMdpTopic(uri.value)
               == if HasTopic(topic) then Ok(Topic.Parsed(ServiceName(topic), MapOf(Subscribed(topic).params)))
                  else Err(Topic.InvalidServiceName)
  {
    RemainingEntries(topic.params);
    SubscribedParams(topic);
    BuiltUriRoundTripsIff(scheme, authority, topic.path, Remaining(topic.params), true);
    RebuiltIs(Remaining(topic.params), true);
  }

  lemma {:induction false} InsertSplittable(es: seq<Entry>, e: Entry)
    requires Topic.Splittable(es) && Topic.SplittableEntry(e)
    ensures Topic.Splittable(Topic.Insert(es, e))
  {
    if es != [] {
      InsertSplittable(es[1..], e);
    }
  }

  lemma {:induction false} SortedSplittable(es: seq<Entry>)
    requires Topic.Splittable(es)
    ensures Topic.Splittable(Topic.SortedMap(es))
  {
    if es != [] {
      SortedSplittable(es[..|es| - 1]);
      InsertSplittable(Topic.SortedMap(es[..|es| - 1]), es[|es| - 1]);
    }
  }

  lemma LastSplittable(front: seq<Entry>, e: Entry)
    requires Topic.Splittable(front) && Topic.SplittableEntry(e)
    ensures Topic.Splittable(LastEntry(front, e))
  {
    if e.1.None? && e.0 != "" {
      EncodedHasNoSeparator(e.0);
      EncodedIsBytes(e.0);
      EraseElements(front, Uri.Encode(e.0));
      var rest := Erase(front, Uri.Encode(e.0));
      forall i | 0 <= i < |rest| ensures Topic.SplittableEntry(rest[i]) {
        assert rest[i] in front;
      }
    }
  }

  lemma RebuiltSplittable(es: seq<Entry>)
    requires Topic.Splittable(es)
    ensures Topic.Splittable(Rebuilt(es))
  {
    if es != [] {
      if es[0] == ("", None) {
        RebuiltSplittable(es[1..]);
      } else {
        LastSplittable(es[..|es| - 1], es[|es| - 1]);
      }
    }
  }

  /** Two URIs are for the same topic exactly when their service and their rebuilt parameters agree. */
  lemma SameTopicIff(a: MdpTopic, b: MdpTopic)
    requires Entries(a.params) && Entries(b.params)
    ensures Subscribed(a) == Subscribed(b)
            <==> ServiceName(a) == ServiceName(b)
                 && MapOf(Rebuilt(Remaining(a.params))) == MapOf(Rebuilt(Remaining(b.params)))
  {
    SubscribedParams(a);
    SubscribedParams(b);
    if MapOf(Subscribed(a).params) == MapOf(Subscribed(b).params) {
      Topic.SortedUnique(Subscribed(a).params, Subscribed(b).params);
    }
  }

  /** The native client confuses no more than that: the text of the key tells topics apart. */
  lemma SameKeyIff(a: MdpTopic, b: MdpTopic)
    requires Entries(a.params) && Entries(b.params) && HasTopic(a) && HasTopic(b)
    requires Topic.Splittable(Remaining(a.params)) && Topic.Splittable(Remaining(b.params))
    ensures SubscriptionKey(a) == SubscriptionKey(b)
            <==> ServiceName(a) == ServiceName(b)
                 && MapOf(Rebuilt(Remaining(a.params))) == MapOf(Rebuilt(Remaining(b.params)))
  {
    SameTopicIff(a, b);
    RebuiltSplittable(Remaining(a.params));
    RebuiltSplittable(Remaining(b.params));
    SortedSplittable(Rebuilt(Remaining(a.params)));
    SortedSplittable(Rebuilt(Remaining(b.params)));
    if SubscriptionKey(a) == SubscriptionKey(b) {
      Topic.ZmqTextInjective(Subscribed(a), Subscribed(b));
    }
  }

  /** Whether rebuilding keeps the parameters, in every order in which they may be enumerated. */
  ghost predicate KeptInEveryOrder(es: seq<Entry>)
    requires Entries(es)
  {
    forall fs | Permuted(es, fs) && Entries(fs) :: MapOf(Rebuilt(fs)) == MapOf(es)
  }

  /** A key names the parameters of its topic, in every order, exactly if all of them are sturdy. */
  lemma KeptInEveryOrderIff(es: seq<Entry>)
    requires Entries(es)
    ensures KeptInEveryOrder(es) <==> AllSturdy(es)
  {
    EveryOrderRoundTripsIff(es, true);
    forall fs | Permuted(es, fs) && Entries(fs)
      ensures MapOf(Rebuilt(fs)) == MapOf(es) <==> QueryMap(Printed("", fs), true) == Ok(MapOf(es))
    {
      RebuiltIs(fs, true);
    }
  }

  /** For sturdy parameters the key is the topic. */
  lemma SturdySameKeyIff(a: MdpTopic, b: MdpTopic)
    requires Entries(a.params) && Entries(b.params) && HasTopic(a) && HasTopic(b)
    requires Topic.Splittable(Remaining(a.params)) && Topic.Splittable(Remaining(b.params))
    requires AllSturdy(Remaining(a.params)) && AllSturdy(Remaining(b.params))
    ensures SubscriptionKey(a) == SubscriptionKey(b)
            <==> ServiceName(a) == ServiceName(b) && MapOf(Remaining(a.params)) == MapOf(Remaining(b.params))
  {
    SameKeyIff(a, b);
    RemainingEntries(a.params);
    RemainingEntries(b.params);
    KeptInEveryOrderIff(Remaining(a.params));
    KeptInEveryOrderIff(Remaining(b.params));
    assert Permuted(Remaining(a.params), Remaining(a.params)) && Permuted(Remaining(b.params), Remaining(b.params));
  }

  // ----- single parameters ----------------------------------------------------------------------------------

  /** A key that is printed as it is, in every place. */
  predicate PlainKey(key: string) {
    key != "" && Uri.All(key, Uri.IsUnreserved)
  }

  lemma ParametersArePlain()
    ensures PlainKey(INDEX_PARAMETER) && PlainKey(BATCH_PARAMETER)
  {
  }

  lemma SingleRemaining(e: Entry)
    ensures Remaining([e]) == if e.0 == INDEX_PARAMETER || e.0 == BATCH_PARAMETER then [] else [e]
  {
    var none: seq<Entry> := [];
    assert none + [e] == [e];
    EraseSnoc(none, e, INDEX_PARAMETER);
    EraseSnoc(none, e, BATCH_PARAMETER);
  }

  lemma SingleRebuilt(e: Entry)
    requires EntryBytes(e)
    ensures Rebuilt([e]) == LastEntry([], e)
  {
    if e == ("", None) {
      assert [e][1..] == [];
    } else {
      RebuiltSplits([e], [], e);
    }
  }

  lemma SingleSorted(es: seq<Entry>)
    requires |es| <= 1
    ensures Topic.SortedMap(es) == es
  {
  }

  lemma BareTextsDiffer(service: string, a: string, b: string)
    ensures service + ("?" + (a + "#")) == service + ("?" + (b + "#")) <==> a == b
    ensures service + ("?" + (a + "#")) != service + "#"
  {
    var x, y := service + ("?" + (a + "#")), service + ("?" + (b + "#"));
    assert |x| == |service| + 1 + |a| + 1;
    assert x[|service| + 1..|x| - 1] == a && y[|service| + 1..|y| - 1] == b;
  }

  lemma SingleTopic(path: string, e: Entry)
    requires EntryBytes(e) && e.0 != INDEX_PARAMETER && e.0 != BATCH_PARAMETER
    ensures Subscribed(MdpTopic(path, [e])) == Topic.Topic(ServiceName(MdpTopic(path, [])), LastEntry([], e))
  {
    SingleRemaining(e);
    SingleRebuilt(e);
    SingleSorted(LastEntry([], e));
  }

  lemma SingleTexts(path: string, key: string)
    requires Uri.IsBytes(key) && key != INDEX_PARAMETER && key != BATCH_PARAMETER
    ensures var service := ServiceName(MdpTopic(path, []));
            && Topic.ZmqText(Subscribed(MdpTopic(path, [(key, Some(""))]))) == service + ("?" + (key + "#"))
            && Topic.ZmqText(Subscribed(MdpTopic(path, [(key, None)])))
               == if key == "" then service + "#" else service + ("?" + (Uri.Encode(key) + "#"))
  {
    var service := ServiceName(MdpTopic(path, []));
    SingleTopic(path, (key, Some("")));
    SingleTopic(path, (key, None));
    Topic.BareTopicText(service, key);
    EncodedIsBytes(key);
    Topic.BareTopicText(service, Uri.Encode(key));
  }

  /** An empty value and no value share a key, and the second subscription joins the first, exactly for plain keys. */
  lemma EmptyValueSharesKeyIff(path: string, key: string)
    requires Uri.IsBytes(key) && HasTopic(MdpTopic(path, []))
    ensures SubscriptionKey(MdpTopic(path, [(key, Some(""))])) == SubscriptionKey(MdpTopic(path, [(key, None)]))
            <==> PlainKey(key)
  {
    var e: Entry := (key, Some(""));
    var f: Entry := (key, None);
    if key == INDEX_PARAMETER || key == BATCH_PARAMETER {
      ParametersArePlain();
      SingleRemaining(e);
      SingleRemaining(f);
    } else {
      SingleTexts(path, key);
      BareTextsDiffer(ServiceName(MdpTopic(path, [])), key, Uri.Encode(key));
      Uri.UnreservedIsFixed(key);
    }
  }

  // ----- orders of the remaining parameters -----------------------------------------------------------------

  lemma RemainingSnoc(es: seq<Entry>, e: Entry)
    requires e.0 != INDEX_PARAMETER && e.0 != BATCH_PARAMETER
    ensures Erase(es + [e], INDEX_PARAMETER) == Erase(es, INDEX_PARAMETER) + [e]
    ensures Remaining(es + [e]) == Remaining(es) + [e]
  {
    EraseSnoc(es, e, INDEX_PARAMETER);
    EraseSnoc(Erase(es, INDEX_PARAMETER), e, BATCH_PARAMETER);
  }

  lemma RemainingElements(es: seq<Entry>)
    ensures forall e :: e in Remaining(es) <==> e in es && e.0 != INDEX_PARAMETER && e.0 != BATCH_PARAMETER
  {
    EraseElements(es, INDEX_PARAMETER);
    EraseElements(Erase(es, INDEX_PARAMETER), BATCH_PARAMETER);
  }

  lemma {:induction false} MapOfSize(es: seq<Entry>)
    requires Distinct(es)
    ensures |MapOf(es)| == |es|
  {
    if es != [] {
      var n := |es| - 1;
      MapOfSize(es[..n]);
      MapOfKeys(es[..n], es[n].0);
      assert MapOf(es).Keys == MapOf(es[..n]).Keys + {es[n].0};
    }
  }

  lemma RemainingPermuted(es: seq<Entry>, fs: seq<Entry>)
    requires Permuted(es, fs) && Entries(es) && Entries(fs)
    ensures MapOf(Remaining(es)) == MapOf(Remaining(fs)) && |Remaining(es)| == |Remaining(fs)|
  {
    PermutedMapOf(es, fs);
    RemainingEntries(es);
    RemainingEntries(fs);
    MapOfSize(Remaining(es));
    MapOfSize(Remaining(fs));
  }

  lemma SturdyKept(es: seq<Entry>)
    requires Entries(es) && AllSturdy(es)
    ensures MapOf(Rebuilt(es)) == MapOf(es)
  {
    KeptInEveryOrderIff(es);
    assert Permuted(es, es);
  }
}
