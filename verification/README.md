# OpenCMW: verified models

This project models the parts of OpenCMW whose correctness depends on interleavings, on
protocol state or on text formats, and proves what they promise for every input and every run.

| module | what it is about |
|---|---|
| `ReaderWriterLock` | the signed-counter lock that admits many readers or many writers |
| `RealtimeMutable`, `NonRealtimeMutable` | the two lock-free exchanges of settings with a real-time thread |
| `LongPollingBatch`, `BatchGrammar` | the multipart body of a long-polling batch: printer, parser, and the language it accepts |
| `Uri`, `UriQuery`, `Topic` | percent-encoding, URI queries, and the canonical ZMQ form of topics |
| `SubscriptionTopic`, `SubscriptionStop` | how the clients name a subscription: parameters erased, URI rebuilt and parsed, text printed; and when a stop names what a start began |
| `Delivery` | what both REST clients do with the samples of one subscription |
| `RestClientNative`, `NativeAnswers`, `NativeRuns`, `NativeAccounts`, `NativeSession` | the native client: handlers, what each answer means, streams over whole runs, what callbacks are told over whole runs, session object |
| `RestClientEmscripten`, `BrowserAnswers`, `EmscriptenRuns`, `EmscriptenWorker` | the browser client with its re-entrant fetches: handlers, what each completion means, whole runs, worker object |
| `SettingHistory`, `SettingRuns` | transactional settings in a bounded ring, and their unbounded record |
| `TimingCtx`, `CtxSetting` | timing selectors, and settings per timing context |
| `MultiArray` | the row-major layout in 32-bit arithmetic |
| `TaskQueue` | the priority queue of the thread pool |

Concurrent code is a state machine: one step per atomic access, mutex operation or half of a
non-atomic write, with a program counter per thread, and any number of threads. Protocol code is
one function per handler plus an object with the source's maps whose methods are proved equal to
those functions and keep what holds over runs; runs are sequences of events in any order. Loops over texts and arrays are
methods proved against functions. Clock readings, stream ids, statuses, bodies and the order in
which a hash map is enumerated are parameters.

## Where the code does not do what one would expect

Each entry names a lemma with a failing input, or a whole family of them, and the lemma with the
condition under which the promise holds. The conditions are exact, except that those of
`ZmqTextInjective` and `PrefixSubscriptionIsExact` are sufficient.

- A parameter with an empty value and one without a value share a subscription key, so the second
  subscription joins the first, exactly if the key is plain (`EmptyValueSharesKeyIff`; `SameKeyIff`,
  `SameTopicIff`, `KeptInEveryOrderIff`).
- A subscription started with an index rebuilds its URI once more than the stop does, and then the
  stop can miss it (`UnstoppableMisses`; `StopsWhatItStartsIff`, `KeyStopsWhatItStartsIff`). With a
  single bare key that needs encoding, as in `/s?a%20b&LongPollingIdx=5`, it always does
  (`BareKeyLosesStop`, `BareKeyIsNotStopped`).
- A parameter key that contains a separator can pass for a key and its value
  (`SeparatorInKeyConfuses`; `ZmqTextInjective`). A key that contains `#` makes a publication reach
  subscribers of other topics (`HashInKeyOverMatches`, `HashExample`; `PrefixSubscriptionIsExact`).
- A native subscription can be left alive without a stream, and starting it again polls nothing
  (`RefusedStartStalls`; `StallsIff`, `StalledUntilReopened`).
- A redirect or an index-bearing 504 that answers a plain request opens a second long-poll stream
  for a subscribed topic (`RedirectedGetOpensSecond`; `ProcessKeepsInvIff`).
- An error status on a subscription overwrites the last index unchecked (`ErrorStatusRewinds`;
  `ProcessInOrderIff`).
- An empty list of parts is printed as a body that the parser refuses (`EmptyBatchIsRefused`;
  `RoundTripIff`).
- A last query parameter with an empty value, a last bare key that needs encoding, and a leading
  empty bare key do not survive a URI (`QueryRoundTripIff`). A last empty value does not survive a
  ZMQ topic either (`ZmqRoundTripIff`).
- Expiry by time drops a recently read entry if a younger one has expired
  (`ReadEntryIsDropped`; `DropsOnlyExpiredIff`).
- The documented lookup `get(TimingCtx(1))` depends on the order of a hash map
  (`IncompleteQueryDependsOnOrder`; `OrderIrrelevantIff`), and values of another beam production
  chain can be found (`OtherTimeIsFound`; `OwnTimeIff`).
- A selector without the required prefix is reported once and then accepted as all wildcards
  (`MissingPrefixIsForgotten`; `ErrorRepeatsIff`).
- A browser subscription that asks for index 0 does not report what it missed before its first
  sample (`FirstGapIsReportedIff`).
- A task of priority 0 is queued behind one of negative priority and not before it
  (`NegativeIsOvertaken`; `PushKeepsOrderIff`).

## Model

| member | source | states |
|---|---|---|
| `ReaderWriterLock.RunExcludes` | src/core/include/ReaderWriterLock.hpp:31-74 | for any number of threads, any interleaving of load, compare-exchange and unlock, and any stale load: readers and writers never hold at once, the counter is readers minus writers, and its sign says who holds |
| `ReaderWriterLock.StepKeepsInv` | src/core/include/ReaderWriterLock.hpp:31-74 | every atomic step keeps the counter equal to readers minus writers with one kind absent |
| `ReaderWriterLock.LockReturnsHolders` | src/core/include/ReaderWriterLock.hpp:47-65 | a successful lock installs and returns the number of holders of its kind, signed, the caller included |
| `ReaderWriterLock.UnlockReturnsHolders` | src/core/include/ReaderWriterLock.hpp:68-74 | unlock removes exactly the caller and returns the remaining holders of its kind |
| `ReaderWriterLock.FreshLoadSucceedsIff` | src/core/include/ReaderWriterLock.hpp:31-65 | an attempt whose load saw the present counter is refused exactly when the other kind holds, and otherwise adds the caller to the holders |
| `ReaderWriterLock.RefusedAttempt` | src/core/include/ReaderWriterLock.hpp:31-65 | a refused `tryLock` changes nothing; a refused `lock` tries again, and without interference succeeds exactly if the other kind does not hold |
| `ReaderWriterLock.AnyNumberHolds` | src/core/include/ReaderWriterLock.hpp:31-65 | for every number there is a run, by `lock` and by `tryLock`, at whose end that many readers hold at once, and one for writers, each told its number |
| `RealtimeMutable.StepRefines` | src/disruptor/include/BasicSetting.hpp:252-316 | every step keeps the slot invariant and every read that takes effect returns the register's value; what the register holds is the next rows' matter |
| `RealtimeMutable.RunsAreAtomic` | src/disruptor/include/BasicSetting.hpp:252-316 | every interleaving of one writer and any number of readers is a history of an atomic register, with reads at the load or at the compare-exchange; `ReadsLastCompleted` says which history |
| `RealtimeMutable.ReadsLastCompleted` | src/disruptor/include/BasicSetting.hpp:274-316 | the history is the one the actions call for: each publication carries the argument of its replacement, or what was written last through the reference before the release, and every reader gets the value of the last call completed |
| `RealtimeMutable.ReadersAreUndisturbed` | src/disruptor/include/BasicSetting.hpp:252-316 | in every reachable state a reader's slot is whole and is not the writer's, BUSY implies the writer's slot is the INDEX bit, and no step changes what a reader sees |
| `RealtimeMutable.LookGoesThroughIff` | src/disruptor/include/BasicSetting.hpp:293-316 | a reader that has looked, or whose exchange has failed, reads at once if nothing is announced and otherwise gets through exactly unless a call of the writer is under way |
| `RealtimeMutable.WriterNeverWaits` | src/disruptor/include/BasicSetting.hpp:278-291 | in every reachable state a call of the real-time thread can be made in four steps of its own, and no step of a reader disables its next one |
| `RealtimeMutable.ReaderGetsThrough` | src/disruptor/include/BasicSetting.hpp:293-320 | a reader that enters while no call is under way reads within three steps, and can leave |
| `NonRealtimeMutable.StepLinearises` | src/disruptor/include/BasicSetting.hpp:197-233 | every step keeps ownership of the heap objects and every event it emits is one the publication log allows; `TraceIsExpected` fixes the values |
| `NonRealtimeMutable.RunsAreLinearised` | src/disruptor/include/BasicSetting.hpp:197-233 | in every interleaving all reads see the newest publication and each publication starts from the one right before it, so no update is lost |
| `NonRealtimeMutable.TraceIsExpected` | src/disruptor/include/BasicSetting.hpp:197-233 | the history is the one the actions call for: a publication carries the argument of the replacement, else the value assigned last, else the copy, of the thread that publishes, and what it copied is still the newest when it publishes |
| `NonRealtimeMutable.ReadsNewest` | src/disruptor/include/BasicSetting.hpp:197-213 | whoever takes the object and whoever copies it gets the newest publication |
| `NonRealtimeMutable.RealtimeObjectIsSafe` | src/disruptor/include/BasicSetting.hpp:197-233 | in every reachable state the object the real-time thread holds is allocated, not being mutated, and freed or changed by no step; nothing leaks |
| `NonRealtimeMutable.OnlySectionsWait` | src/disruptor/include/BasicSetting.hpp:197-225 | the real-time thread can take the object whenever it does not have it; a section that has looked publishes exactly unless the real-time thread has the object, and looks again otherwise |
| `NonRealtimeMutable.SectionsGoThrough` | src/disruptor/include/BasicSetting.hpp:208-233 | a section can be entered when nobody is inside, gone through to its end, and left |
| `Text.ReadU64` | src/core/include/LongPollingBatch.hpp:30-41 | the digit loop with its overflow check accepts exactly the non-empty texts of digits whose value is below 2^64, and returns that value |
| `LongPollingBatch.EncodeBatch` | src/core/include/LongPollingBatch.hpp:43-72 | the printing loop produces the concatenated part texts, or the error if a name holds a line break |
| `LongPollingBatch.DecodeBatch` | src/core/include/LongPollingBatch.hpp:74-156 | the nested parsing loops terminate and compute the parse function of the remaining text |
| `LongPollingBatch.FoldFirstLine` | src/core/include/LongPollingBatch.hpp:112-136 | searching the whole body for the end of a header line finds the same lines as searching the header block |
| `BatchGrammar.DecodeAcceptsGrammar` | src/core/include/LongPollingBatch.hpp:74-156 | the parser returns parts exactly for the bodies that the grammar of boundary, header blocks and length-delimited payloads generates for them |
| `BatchGrammar.HeadersOfBlock` | src/core/include/LongPollingBatch.hpp:105-136 | what a header block says: unknown lines are passed over, the last line of each name counts, and it is refused exactly if an index or length is not a decimal number below 2^64 |
| `BatchGrammar.AcceptedIsConsecutive` | src/core/include/LongPollingBatch.hpp:74-156 | an accepted body yields a non-empty list with consecutive indices |
| `BatchGrammar.ExtensionIsRejected` | src/core/include/LongPollingBatch.hpp:74-156 | every proper extension of an accepted body is refused |
| `BatchGrammar.AcceptedIsPrefixFree` | src/core/include/LongPollingBatch.hpp:74-156 | no accepted body is a proper prefix of another |
| `BatchGrammar.RoundTripIff` | src/core/include/LongPollingBatch.hpp:43-156 | printed parts are read back exactly if they are non-empty with consecutive indices, whatever bytes the payloads hold |
| `BatchGrammar.EmptyBatchIsRefused` | src/core/include/LongPollingBatch.hpp:43-156 | the body printed for no parts is refused |
| `Uri.EncodeText` | src/core/include/URI.hpp:139-157 | the encoding loop computes the percent-encoding of the text |
| `Uri.EncodeSpells` | src/core/include/URI.hpp:139-157 | only unreserved characters and triples of upper-case digits come out, and they spell the text |
| `Uri.DecodeText` | src/core/include/URI.hpp:159-180 | the decoding loop computes the decoding of the text, errors included, which the next rows fix |
| `Uri.DecodeIff` | src/core/include/URI.hpp:159-180 | a text whose percent signs are all followed by two hexadecimal digits decodes to exactly the text it spells, by a table of the digits of both cases |
| `Uri.DecodeIgnoresCase` | src/core/include/URI.hpp:159-180 | every text that differs from an encoding only in the case of its hexadecimal digits decodes to what was encoded |
| `Uri.OddTriples` | src/core/include/URI.hpp:159-180 | what one digit, a sign or a space in front of a digit, and anything else behind a percent sign decode to |
| `Uri.DecodeFailsIff` | src/core/include/URI.hpp:159-180 | only the strict parser fails, exactly if a percent sign that it meets has no hexadecimal digit behind it |
| `Uri.DecodeEncode` | src/core/include/URI.hpp:139-180 | decoding the encoding of any byte string gives it back, in both check modes |
| `Uri.ParseIsLossless` | src/core/include/URI.hpp:353-441 | every accepted text is its scheme, authority, path, query and fragment with their separators in between, nothing lost and nothing added; only the two characters before an authority without a scheme are not looked at |
| `Uri.SeparatorsEnd` | src/core/include/URI.hpp:353-441 | no component of an accepted text contains what ends it, so the cuts are at the first separators |
| `Uri.StrictIff` | src/core/include/URI.hpp:353-441 | the strict parser accepts exactly what the relaxed one accepts without a foreign character in the text, the scheme, the authority or the path, and gives the same components |
| `Uri.RelaxedFailsIff` | src/core/include/URI.hpp:353-441 | the relaxed parser refuses exactly the texts of a single character that is not a separator |
| `Uri.NotDoubled` | src/core/include/URI.hpp:306-334 | separators that a component already carries are not printed twice, and a relative path behind an authority gets its slash |
| `Uri.UnreservedIsFixed` | src/core/include/URI.hpp:139-157 | a text is its own encoding exactly if all its characters are unreserved |
| `Uri.BuildParses` | src/core/include/URI.hpp:306-441 | the text built from scheme, authority, path and query parses into these components, with an authority or without, in both check modes |
| `Uri.Alphabets` | src/core/include/URI.hpp:306-441 | the characters that the strict parser allows in each component, written out |
| `UriQuery.QueryParamMap` | src/core/include/URI.hpp:209-252 | the parsing loop over a query computes the map of its entries, errors included |
| `UriQuery.QueryAlphabet` | src/core/include/URI.hpp:209-252 | the separators and the characters of a query, written out |
| `UriQuery.PrintQuery` | src/core/include/URI.hpp:318-326 | the printing loop computes the text of the parameters in enumeration order |
| `UriQuery.QueryRoundTripIff` | src/core/include/URI.hpp:209-335 | printing in a given order and parsing gives the map back exactly if the first entry is not a bare empty key and the last has a value or is a bare unreserved key |
| `UriQuery.EveryOrderRoundTripsIff` | src/core/include/URI.hpp:209-335 | the map comes back for every enumeration order exactly if every entry is of that kind |
| `UriQuery.BuiltUriRoundTripsIff` | src/core/include/URI.hpp:209-441 | the same through a whole built URI, with an authority or without, whose other components come back as well |
| `UriQuery.RebuiltIs` | src/core/include/URI.hpp:209-335 | what printing and parsing makes of any parameters in any order: a leading bare empty key is lost, the last entry is the only other one that can change |
| `UriQuery.PermutedMapOf` | src/core/include/URI.hpp:318-326 | the order of distinct entries does not change the map |
| `Topic.ParseService` | src/core/include/Topic.hpp:153-169 | the trimming loop gives the service with a leading slash, no query and no trailing slash |
| `Topic.ServiceAlphabet` | src/core/include/Topic.hpp:17-23 | exactly which texts are names of services |
| `Topic.ServiceIs` | src/core/include/Topic.hpp:153-169 | the service of a text is what stands before the query, without the slashes at its end and with one in front |
| `Topic.ToZmqTopic` | src/core/include/Topic.hpp:106-132 | the printing loop computes the canonical text of a topic |
| `Topic.InsertionOrderIrrelevant` | src/core/include/Topic.hpp:148-150 | topics built by inserting the same parameters in different orders are equal |
| `Topic.YieldsIsUnique` | src/core/include/Topic.hpp:148-150 | inserting what was read from a text, in any order, gives the one topic it was read back as |
| `Topic.ZmqRoundTripIff` | src/core/include/Topic.hpp:95-132 | a topic with clean keys is read back from its ZMQ text exactly if its last parameter does not have an empty value |
| `Topic.ZmqTextInjective` | src/core/include/Topic.hpp:106-132 | different topics have different ZMQ texts if no key contains `=` or `&`, whatever the values |
| `Topic.SeparatorInKeyConfuses` | src/core/include/Topic.hpp:106-132 | two different topics, one with a separator in its key, that have the same ZMQ text |
| `Topic.PrefixSubscriptionIsExact` | src/core/include/Topic.hpp:106-132 | the ZMQ text of one topic is a prefix of another's exactly if the topics are equal, as long as keys have no `=` and `&` and the published ones no `#` |
| `Topic.HashInKeyOverMatches` | src/core/include/Topic.hpp:106-132 | for every topic with `#` in a key there is another one whose text is a proper prefix of its text |
| `Topic.HashExample` | src/core/include/Topic.hpp:106-132 | the text of a topic with the key `a` is a proper prefix of the text of one with the key `a#b` |
| `Topic.MdpRoundTripIff` | src/core/include/Topic.hpp:89-104 | a topic is read back from its MDP URI exactly if the enumeration order of its parameters round-trips |
| `Delivery.CollectMessages` | src/client/include/RestClientNative.hpp:402-440 | the loop over a batch delivers what delivering its parts in order delivers, or fails exactly if a part that is not a duplicate has an unreadable topic |
| `Delivery.DeliverAllAccounts` | src/client/include/RestClientNative.hpp:371-440 | delivering keeps the account: each message follows the previous index and reports exactly the indices in between |
| `Delivery.AccountedIncreases` | src/client/include/RestClientNative.hpp:371-440 | in an account the delivered indices strictly increase |
| `Delivery.AccountedTotal` | src/client/include/RestClientNative.hpp:371-440 | delivered messages plus reported skips equal the last index minus the base |
| `Delivery.UncheckedAccountsIff` | src/client/include/RestClientNative.hpp:378-400 | a sample taken over without the check keeps the account exactly if it is the next one or the first |
| `Delivery.BatchEqualsOneByOne` | src/client/include/RestClientNative.hpp:378-440 | a batch yields the same messages, last index and next request as its parts one by one |
| `Delivery.OnlyFirstPartWarns` | src/client/include/RestClientNative.hpp:402-440 | in a decoded batch only the first delivered part can report skipped samples |
| `Delivery.DeliversNews` | src/client/include/RestClientNative.hpp:371-440 | from rising indices exactly the parts beyond the last index are delivered, each with the number of indices missing in front of it, and the last index becomes the larger of the two |
| `Delivery.ReadableIff` | src/client/include/RestClientNative.hpp:402-430 | a batch can be used exactly if the topics of the parts to be delivered are readable |
| `SubscriptionTopic.SubscribedIsRebuilt` | src/client/include/RestClientNative.hpp:50-56 | the topic of a subscription is what printing the remaining parameters into the URI, parsing it and converting it gives, or the conversion error |
| `SubscriptionTopic.SameTopicIff` | src/client/include/RestClientEmscripten.hpp:106-119 | two URIs are for the same topic exactly if the service and the rebuilt remaining parameters agree |
| `SubscriptionTopic.SameKeyIff` | src/client/include/RestClientNative.hpp:50-56 | the same for the text of the key, as long as no key contains a separator |
| `SubscriptionTopic.KeptInEveryOrderIff` | src/client/include/RestClientNative.hpp:50-56 | rebuilding keeps the parameters in every order of the hash map exactly if each has a non-empty value or is a bare key of unreserved characters |
| `SubscriptionTopic.SturdySameKeyIff` | src/client/include/RestClientNative.hpp:50-56 | for such parameters keys agree exactly if the parameters do |
| `SubscriptionTopic.TakesWhatIsMeant` | src/client/include/RestClientNative.hpp:58-84 | the index parameter is accepted exactly if its text is `Next`, `Last` or a decimal number below 2^64, and the first request then asks for just that; without the parameter the mode decides |
| `SubscriptionTopic.PositionTextIsMeant` | src/client/include/RestClientNative.hpp:215-236 | what a request puts into its URL reads as the position it asks for |
| `SubscriptionTopic.EmptyValueSharesKeyIff` | src/client/include/RestClientNative.hpp:50-56 | a parameter with an empty value and one without a value share a subscription key exactly if the key is non-empty and needs no encoding |
| `SubscriptionStop.StopsWhatItStartsIff` | src/client/include/RestClientEmscripten.hpp:82-119 | a subscription started with an index is for the topic that stops it, for all orders of its parameters when it is started, when the index is out and when it is stopped, and for all keys, exactly if the remaining parameters all survive rebuilding, or are one bare empty key, or one empty value of a plain key, or a bare empty key and one that survives |
| `SubscriptionStop.KeyStopsWhatItStartsIff` | src/client/include/RestClientNative.hpp:50-84 | the same for the text of the key: sufficient for all keys, and exact if none of them contains a separator |
| `SubscriptionStop.UnstoppableMisses` | src/client/include/RestClientNative.hpp:50-84 | otherwise three orders are constructed for which the stop is for another topic |
| `SubscriptionStop.BareKeyLosesStop` | src/client/include/RestClientNative.hpp:50-84 | with a single bare key that needs encoding the stop is for another topic, and has another key, in every order |
| `SubscriptionStop.TwoOrders` | src/client/include/RestClientNative.hpp:50-56 | a parameter that does not survive in the last place gives two topics: in front of another one and behind it |
| `NativeSession.ClientSession.ProcessResponse` | src/client/include/RestClientNative.hpp:285-362 | a response of any status, body and index has the effect that can be read off it; it keeps one stream per subscription exactly if it is not misrouted, every account exactly if it does not overwrite an index, and always the record of what was told |
| `NativeSession.ClientSession.HandleSubscriptionBatchResponse` | src/client/include/RestClientNative.hpp:402-440 | the loops over a decoded batch deliver what the batch function says, which `NativeAnswers.BatchAnswered` reads off the parts |
| `NativeSession.ClientSession.StartSubscription` | src/client/include/RestClientNative.hpp:494-538 | a start, whether new, shared, refused or malformed, leaves the subscription and the request that it calls for, and keeps one stream per subscription, every account and every record |
| `NativeSession.ClientSession.StopSubscription` | src/client/include/RestClientNative.hpp:540-564 | a stop tells nothing, leaves its key without subscription or stream, and keeps the invariant |
| `NativeSession.ClientSession.CancelSubscription` | src/client/include/RestClientNative.hpp:552-563 | the erasing loop removes exactly the long-poll streams of the key |
| `NativeRuns.ResponseEffect` | src/client/include/RestClientNative.hpp:285-465 | one response opens at most one stream, for its own key, and touches and tells no other subscription |
| `NativeAnswers.ProcessAnswers` | src/client/include/RestClientNative.hpp:285-492 | the whole effect of any response on any client, read off the response: what is asked for next, what is told to whom, and what becomes of the subscription |
| `NativeAnswers.BatchAnswered` | src/client/include/RestClientNative.hpp:402-452 | a batch whose new parts are all readable tells exactly those, counts what was missed and asks for the index behind the newest; one with an unreadable part tells a problem and asks for what is behind its last part |
| `NativeAnswers.StepOpensIff` | src/client/include/RestClientNative.hpp:215-538 | over every run, a step opens a stream for a subscription with a position exactly as called for: the index or word given at a start; the index of a redirect or time-out; one more than the last delivered; behind an unreadable batch, or the next sample |
| `NativeAnswers.StartIs` | src/client/include/RestClientNative.hpp:494-538 | the whole effect of a start: the record and request of a new subscription, what a joined one keeps, or a refusal |
| `NativeAnswers.PlainAsksNothing` | src/client/include/RestClientNative.hpp:215-236 | a GET or SET asks for no position |
| `NativeRuns.ProcessKeepsInvIff` | src/client/include/RestClientNative.hpp:285-362 | a response keeps one stream per subscription exactly if it is not a redirect of a plain request for a topic that is already polling |
| `NativeRuns.RunKeepsOneStream` | src/client/include/RestClientNative.hpp:215-564 | over every run without such responses each key has at most one long-poll stream, and each such stream belongs to a live subscription |
| `NativeRuns.RunsFromStart` | src/client/include/RestClientNative.hpp:215-564 | the same for every such run of a fresh client |
| `NativeRuns.RedirectedGetOpensSecond` | src/client/include/RestClientNative.hpp:285-362 | a concrete run with such a response that ends with two streams for one key |
| `NativeRuns.BareKeyIsNotStopped` | src/client/include/RestClientNative.hpp:494-564 | a run of a start and a stop of the same topic that leaves the subscription alive and polling |
| `NativeRuns.SilentUntilRestart` | src/client/include/RestClientNative.hpp:285-564 | over every run, misrouted responses included, nothing is delivered for a key that has neither subscription nor stream until it is started again |
| `NativeRuns.NothingAfterStop` | src/client/include/RestClientNative.hpp:540-564 | stopping a live subscription delivers nothing, and nothing is delivered after it in any run, whatever is still on its way, until it is started again |
| `NativeRuns.StallsIff` | src/client/include/RestClientNative.hpp:215-564 | a step leaves a live subscription without a stream exactly if its stream is closed, is redirected to where no index can be read, or its next request is refused |
| `NativeRuns.StalledUntilReopened` | src/client/include/RestClientNative.hpp:285-538 | such a subscription gets a stream again exactly by a redirect of a plain request for its topic; starting it again does not poll |
| `NativeRuns.RefusedStartStalls` | src/client/include/RestClientNative.hpp:494-538 | a run in which a subscription is left without a stream and started again in vain |
| `NativeAccounts.ProcessInOrderIff` | src/client/include/RestClientNative.hpp:285-440 | a response keeps the account of its subscription exactly unless an error status carries an index other than the next |
| `NativeAccounts.RunInOrder` | src/client/include/RestClientNative.hpp:285-538 | over every run without such responses, misrouted ones included, every subscription has its deliveries accounted for |
| `NativeAccounts.RunKeepsTold` | src/client/include/RestClientNative.hpp:215-564 | over every run what a subscription records is exactly what its callbacks were told since it was started |
| `NativeAccounts.ToldInOrder` | src/client/include/RestClientNative.hpp:215-564 | over every run from the start without such responses: what the callbacks of a subscription were told strictly increases, each message reports exactly the samples missed since the one before it or since the recorded start, and messages plus skips equal the last index minus the base |
| `NativeAccounts.BatchEqualsSamples` | src/client/include/RestClientNative.hpp:378-440 | handling a readable batch leads to the same client state as handling its parts one by one, each on the stream opened by the one before: messages, warnings, last index and next request |
| `NativeAccounts.ResponseDelivers` | src/client/include/RestClientNative.hpp:285-440 | a good response tells the callbacks exactly its new samples, asks for the index after the last one and forgets its own stream |
| `NativeAccounts.ErrorStatusRewinds` | src/client/include/RestClientNative.hpp:378-400 | a concrete run in which an error status breaks the account |
| `EmscriptenRuns.CloseIs` | src/client/include/RestClientEmscripten.hpp:507-517 | closing a fetch only removes it: the completion it provokes is ignored |
| `EmscriptenRuns.StepKeepsInv` | src/client/include/RestClientEmscripten.hpp:177-526 | every event keeps fetch ownership, numbering, abortable handles and the exclusiveness of batch subscriptions |
| `EmscriptenRuns.RunKeepsInv` | src/client/include/RestClientEmscripten.hpp:177-526 | over every run, synchronous completions and null handles included, each open fetch of a subscription is the one its live subscription names |
| `EmscriptenRuns.ExactlyOneFetch` | src/client/include/RestClientEmscripten.hpp:212-305 | over every run each live subscription of an accepting worker has exactly one request under way, so none stalls |
| `EmscriptenRuns.StopAborts` | src/client/include/RestClientEmscripten.hpp:199-210 | the fetch of a stopped subscription has a handle to abort, and is gone |
| `BrowserAnswers.CompleteAnswers` | src/client/include/RestClientEmscripten.hpp:310-505 | the whole effect of any completion on any reachable worker, read off the completion |
| `BrowserAnswers.SubscriptionAnswered` | src/client/include/RestClientEmscripten.hpp:338-437 | the completion of a long poll ends the subscription, or asks for the position and tells the samples or the problem that its status, index and body call for |
| `BrowserAnswers.StepOpensIff` | src/client/include/RestClientEmscripten.hpp:177-437 | over every run, a step starts a fetch for a subscription with a position exactly as called for: what the subscription gives, the index of a time-out, one more than the last delivered, behind an unreadable batch, or the next sample |
| `BrowserAnswers.SubscribeIs` | src/client/include/RestClientEmscripten.hpp:177-197 | a subscription is refused exactly if its index cannot be read, and otherwise begins where that says |
| `BrowserAnswers.BeginIs` | src/client/include/RestClientEmscripten.hpp:183-197 | the record, the start and the fetch of a new subscription, or the refusal of a conflict |
| `BrowserAnswers.SameSubscriptionIff` | src/client/include/RestClientEmscripten.hpp:106-119 | two commands are for the same subscription exactly if server, service and the rebuilt parameters other than those for polling agree |
| `EmscriptenRuns.EveryRunIsAccounted` | src/client/include/RestClientEmscripten.hpp:338-437 | over every run, with no exception for statuses or bodies, and for every subscription ever started: what its callback heard strictly increases from the recorded start, each message reports exactly the indices missed since the one before it or since that start, and messages plus reported skips equal the last index minus the base |
| `EmscriptenRuns.RunKeepsStart` | src/client/include/RestClientEmscripten.hpp:177-437 | the start that a subscription was given is never changed or forgotten |
| `EmscriptenRuns.FirstGapIsReportedIff` | src/client/include/RestClientEmscripten.hpp:177-197 | over every run, the first message of a subscription that asked for an index reports exactly what was missed from there on, unless that index is 0 |
| `EmscriptenRuns.CompletionDelivers` | src/client/include/RestClientEmscripten.hpp:310-437 | a successful completion makes the callback hear exactly its new samples and opens one fetch for the index after the last one |
| `EmscriptenRuns.RunIsSilent` | src/client/include/RestClientEmscripten.hpp:177-517 | once a subscription is stopped or ended its callback is never called again, in any run |
| `EmscriptenRuns.StopSilences` | src/client/include/RestClientEmscripten.hpp:199-210 | stopping calls nothing, and nothing is called afterwards |
| `EmscriptenRuns.EndIsLast` | src/client/include/RestClientEmscripten.hpp:481-505 | in every run the message that ends a subscription is the last one its callback gets |
| `EmscriptenRuns.ShutIsQuiet` | src/client/include/RestClientEmscripten.hpp:507-555 | once the worker has been told to stop, no run whatever calls a callback, starts a request or adds a subscription |
| `EmscriptenRuns.EveryRunCanEnd` | src/client/include/RestClientEmscripten.hpp:519-526 | from wherever a run has got to, stopping, the return of the open calls and the clean-up can happen in this order, call nothing, and leave no fetch and no subscription |
| `EmscriptenWorker.RestWorkerState.OnFetch` | src/client/include/RestClientEmscripten.hpp:307-336 | a completion of any kind, at any time, has the effect that can be read off it, and keeps fetch ownership, a request for each live subscription, and all accounts |
| `EmscriptenWorker.RestWorkerState.CompleteFetch` | src/client/include/RestClientEmscripten.hpp:310-336 | the worker after a completion of any kind, ignored while the fetch is closing |
| `EmscriptenWorker.RestWorkerState.HandleSubscriptionCompletion` | src/client/include/RestClientEmscripten.hpp:338-437 | the worker after the completion of a long poll, which `BrowserAnswers.SubscriptionAnswered` reads off the completion |
| `EmscriptenWorker.RestWorkerState.FetchReturned` | src/client/include/RestClientEmscripten.hpp:283-304 | the return of `emscripten_fetch`, with or without a handle, keeps fetch ownership, a request for each live subscription, and all accounts |
| `EmscriptenWorker.RestWorkerState.FindConflict` | src/client/include/RestClientEmscripten.hpp:184-190 | the search finds exactly the conflicts with a batch subscription whose rebuilt topic is the same |
| `EmscriptenWorker.RestWorkerState.Subscribe` | src/client/include/RestClientEmscripten.hpp:177-197 | a subscription, malformed, conflicting or started, keeps fetch ownership, a request for each live subscription, and all accounts |
| `EmscriptenWorker.RestWorkerState.Unsubscribe` | src/client/include/RestClientEmscripten.hpp:199-210 | a stop of whichever matching subscription the search meets calls nothing and leaves neither the subscription nor a fetch of it |
| `EmscriptenWorker.RestWorkerState.CleanUp` | src/client/include/RestClientEmscripten.hpp:519-526 | the loop terminates and leaves neither fetches nor subscriptions |
| `SettingHistory.SlotsDiffer` | src/disruptor/include/disruptor/RingBuffer.hpp:42-44 | entries closer than the ring size lie in different slots, after truncation to 32 bits and masking |
| `SettingHistory.SettingBase.constructor` | src/disruptor/include/Transactions.hpp:113-118 | the history starts with the default value as its only entry |
| `SettingHistory.SettingBase.TryNext` | src/disruptor/include/disruptor/ClaimStrategy.hpp:137-199 | a claim is never refused, and the cached gating sequence stays a lower bound of the tail |
| `SettingHistory.SettingBase.Commit` | src/disruptor/include/Transactions.hpp:125-159 | a commit always succeeds, appends the value made from the latest one and retires old entries; no live slot is overwritten |
| `SettingHistory.SettingBase.Stage` | src/disruptor/include/Transactions.hpp:125-155 | staging replaces the token's value in place or appends it, and publishes nothing |
| `SettingHistory.SettingBase.CommitStaged` | src/disruptor/include/Transactions.hpp:161-192 | the removal loop commits exactly the matching values in list order and keeps the others |
| `SettingHistory.SettingBase.ModifySetting` | src/disruptor/include/Transactions.hpp:194-208 | a modification appends the changed latest value |
| `SettingHistory.SettingBase.Get` | src/disruptor/include/Transactions.hpp:237-248 | the entry that many commits ago if it is live, an error otherwise, and only its access time changes |
| `SettingHistory.SettingBase.GetAt` | src/disruptor/include/Transactions.hpp:224-235 | the newest live entry valid at the time stamp, an error exactly if there is none |
| `SettingHistory.SettingBase.RetireStaged` | src/disruptor/include/Transactions.hpp:250-278 | exactly the matching staged values are removed |
| `SettingHistory.SettingBase.RetireByCount` | src/disruptor/include/Transactions.hpp:297-300 | the loop leaves at most the ring size minus the margin between tail and head |
| `SettingHistory.SettingBase.RetireByTime` | src/disruptor/include/Transactions.hpp:302-311 | the loop that moves its position back terminates with the tail one past the last expired entry, or unchanged |
| `SettingHistory.TimeTail` | src/disruptor/include/Transactions.hpp:302-311 | one past the last expired entry: nothing after it is expired, and what precedes it is |
| `SettingRuns.RunRecords` | src/disruptor/include/Transactions.hpp:125-208 | over every run the values ever published are those of the unbounded record, whatever is read or retired |
| `SettingRuns.HistoryAgrees` | src/disruptor/include/Transactions.hpp:125-300 | over every run a value read back is the one in the unbounded record, and without expiry by time it can be read for exactly the last size minus margin plus one values |
| `SettingRuns.AsOfAgrees` | src/disruptor/include/Transactions.hpp:125-235 | over every run the newest entry valid at a time is the last value committed at or before it, in the unbounded record of values and times |
| `SettingRuns.TokenPublishesStaged` | src/disruptor/include/Transactions.hpp:125-192 | whatever happens in between, committing a token publishes its last staged value on top of all later commits and forgets it |
| `SettingRuns.TokenCommits` | src/disruptor/include/Transactions.hpp:161-192 | committing a token adds its staged value if there is one, and leaves the other tokens alone |
| `SettingRuns.RunsAreDistinct` | src/disruptor/include/Transactions.hpp:125-192 | over every run from the start no token is staged twice |
| `SettingRuns.DropsOnlyExpiredIff` | src/disruptor/include/Transactions.hpp:302-311 | expiry by time removes only expired entries exactly if no entry expires before an older one |
| `SettingRuns.ReadEntryIsDropped` | src/disruptor/include/Transactions.hpp:302-311 | a run from the start, for any limits with expiry, in which an entry just read is dropped |
| `SettingRuns.ExpiryIsSharp` | src/disruptor/include/Transactions.hpp:302-311 | a run after which entries stay at the time-out exactly and are dropped one tick later |
| `TimingCtx.RoundTrip` | src/core/include/TimingCtx.hpp:79-194 | every quadruple of 32-bit numbers is printed and read back unchanged, wildcards and negative numbers included |
| `TimingCtx.LettersOfFields` | src/core/include/TimingCtx.hpp:79-98 | which letter stands for which number in the text |
| `TimingCtx.NumberIsCanonical` | src/core/include/TimingCtx.hpp:79-98 | numbers are printed without leading zeros or a plus sign |
| `TimingCtx.CaseIsIgnored` | src/core/include/TimingCtx.hpp:111-134 | texts that differ only in the case of letters read the same |
| `TimingCtx.TagAcceptedIff` | src/core/include/TimingCtx.hpp:135-194 | exactly which tags are accepted, and which error the others give |
| `TimingCtx.TextAcceptedIff` | src/core/include/TimingCtx.hpp:111-194 | exactly which texts are accepted: empty, the wildcard with or without the prefix, or the prefix and accepted tags |
| `TimingCtx.ReadsUpToBadTag` | src/core/include/TimingCtx.hpp:135-194 | reading stops at the first bad tag, with its error and the fields read so far |
| `TimingCtx.ToStringInjective` | src/core/include/TimingCtx.hpp:79-98 | different selectors print differently |
| `TimingCtx.Normalises` | src/core/include/TimingCtx.hpp:79-194 | whatever can be read prints as a text that reads the same |
| `TimingCtx.TimingContext.ParseSelector` | src/core/include/TimingCtx.hpp:111-194 | the loop updates the cached fields as the reading function says, errors and partial results included, and the cache stays coherent |
| `TimingCtx.TimingContext.constructor` | src/core/include/TimingCtx.hpp:50-51 | a context built from four numbers keeps exactly these numbers |
| `TimingCtx.RefreshReads` | src/core/include/TimingCtx.hpp:111-134 | fields obtained without an error are those of the selector, or all wildcards for a missing prefix |
| `TimingCtx.ErrorRepeatsIff` | src/core/include/TimingCtx.hpp:111-194 | an unreadable selector is reported again exactly if its upper-case text has the prefix |
| `TimingCtx.MissingPrefixIsForgotten` | src/core/include/TimingCtx.hpp:111-134 | a selector that is reported once and accepted as all wildcards from then on |
| `CtxSetting.Lookup` | src/disruptor/include/Transactions.hpp:430-466 | the scans compute the first entry of the first level that has one |
| `CtxSetting.OrderIrrelevantIff` | src/disruptor/include/Transactions.hpp:430-466 | the result is the same for every order of the entries exactly if all candidates of the first level found agree |
| `CtxSetting.GetFindsMostSpecific` | src/disruptor/include/Transactions.hpp:430-466 | a fully specified query finds the value of its most specific stored ancestor, or the default, in every order in which the first level found has no other start time |
| `CtxSetting.IncompleteQueryDependsOnOrder` | src/disruptor/include/Transactions.hpp:337-346 | the documented query of an incomplete context gives different values in different orders |
| `CtxSetting.OtherTimeIsFound` | src/disruptor/include/Transactions.hpp:437-460 | the scans in the middle ignore the start time of the chain |
| `CtxSetting.OwnTimeIff` | src/disruptor/include/Transactions.hpp:430-466 | every order finds a value of the query's own start time exactly if every candidate of the first level found has it |
| `CtxSetting.GetIsFound` | src/disruptor/include/Transactions.hpp:430-466 | the value returned is the one stored under the key found, or the default |
| `CtxSetting.CommitIsSeen` | src/disruptor/include/Transactions.hpp:377-385 | a commit changes exactly the queries that have no more specific stored ancestor |
| `CtxSetting.RetiredFallsBack` | src/disruptor/include/Transactions.hpp:413-427 | retiring a context makes the queries below it fall back to the next ancestor |
| `CtxSetting.ExactRetirement` | src/disruptor/include/Transactions.hpp:413-427 | retiring exactly one context removes that entry alone, and affects exactly the queries that found it |
| `CtxSetting.ContextHistoryAgrees` | src/disruptor/include/Transactions.hpp:403-404 | over every run a read some commits back finds the most specific ancestor in the unbounded record |
| `MultiArray.Array.constructor` | src/serialiser/include/MultiArray.hpp:49-56 | the loop computes strides and element count as products of sizes modulo 2^32, for all sizes |
| `MultiArray.Array.Index` | src/serialiser/include/MultiArray.hpp:145-151 | the loop computes the row-major number modulo 2^32, for all arguments |
| `MultiArray.Array.Indices` | src/serialiser/include/MultiArray.hpp:156-165 | the division loop computes the index of an element number |
| `MultiArray.FlatIsExact` | src/serialiser/include/MultiArray.hpp:145-151 | with fewer than 2^32 elements nothing wraps in the box and numbers stay below the element count |
| `MultiArray.BoxOfFlat` | src/serialiser/include/MultiArray.hpp:145-165 | the number of an element gives back its index, in any number of dimensions |
| `MultiArray.FlatOfBox` | src/serialiser/include/MultiArray.hpp:145-165 | every number below the element count comes from an index in the box |
| `MultiArray.FlatMonotoneIff` | src/serialiser/include/MultiArray.hpp:145-151 | numbers are ordered exactly as indices are lexicographically |
| `TaskQueue.Queue.PushTasks` | src/core/include/ThreadPool.hpp:129-147 | the search and splice insert the tasks before the first one of lower priority, or at the end for priority 0 |
| `TaskQueue.Queue.Pop` | src/core/include/ThreadPool.hpp:150-157 | the first task is removed and returned, nothing from an empty queue |
| `TaskQueue.PushKeepsOrderIff` | src/core/include/ThreadPool.hpp:129-147 | a push keeps the order by priority and arrival exactly unless it puts priority 0 behind a negative one |
| `TaskQueue.RunRefines` | src/core/include/ThreadPool.hpp:129-157 | over every run with non-negative priorities the list is a bag from which the earliest task of highest priority is taken |
| `TaskQueue.BagStepIsUnique` | src/core/include/ThreadPool.hpp:129-157 | that bag leaves no choice in any step |
| `TaskQueue.RunConserves` | src/core/include/ThreadPool.hpp:129-157 | over every run, whatever the priorities, each pushed task is waiting or was popped, and as often |
| `TaskQueue.NegativeIsOvertaken` | src/core/include/ThreadPool.hpp:129-157 | a concrete run in which a task of lower priority is popped first |

## Left out

- Memory orders: interleavings are sequentially consistent, except that the relaxed load of the reader-writer lock may return any value.
- The counter of the reader-writer lock is unbounded; it is proved to stay within the number of threads, so 64 bits suffice.
- The destructor of the two-slot exchange, which waits for a condition that cannot hold with the value of its BUSY bit.
- Sockets, TLS, nghttp2, ZeroMQ, `emscripten_fetch` and its proxying: events with arbitrary ids, statuses, bodies and failures.
- Exceptions thrown by callbacks, allocation or URI construction inside the browser worker, and a stop flag that flips in the middle of one of its handlers.
- In the native client: reporting a lost connection to all pending requests, collecting headers, cancelling streams in the library, and which callbacks share a subscription; only their number is kept.
- Reading the long-polling index out of the location of a redirect, a response header or the URL of a response: the index read, if any, is part of the response.
- Message texts of errors: they are constructors of a datatype.
- A percent sign at the very end of a text in strict mode, which the source reads past, is an error in the model.
- URI fragments in printing, scheme-less authorities, the user, host and port inside an authority, and cached views. The browser client compares scheme, host and port; the model compares one text for the three.
- KeyStopsWhatItStartsIff: that the condition is necessary is stated for keys without separators, since only then do texts tell topics apart; for topics themselves it is stated for all keys (`StopsWhatItStartsIff`).
- SameKeyIff: stated for keys without separators; with them texts can coincide (`SeparatorInKeyConfuses`).
- Topics whose path is no service name: the browser client's comparison throws on them, and the native client files plain requests under the unchanged URI, which the model keeps apart from all keys.
- Characters are assumed to be bytes where they are percent-encoded.
- Long-polling indices wrap at 2^64 in the model as in the code; the native re-request loop, which would not end at the largest index, sends one request in the model.
- Concurrent use of transactional settings: their methods are single steps, since the loop guarding the list of transactions does not exclude a second thread. Expiry of staged transactions by time is disabled.
- Access times of the values inside a context map, and the expiry of contexts by time.
- The hash of a selector is taken to be free of collisions.
- Array layouts with offsets or custom strides: only the constructors that compute strides are modelled.
- Worker threads, affinity and sleeping of the thread pool, the serialisers and their buffers, MIME tables, certificates, the broker and the majordomo protocol.
