# Model of the luna service helpers

A Dafny 4.11 model of the stateful parts of `libluna-service2++` helpers (ls2-helpers): the publish/subscribe
point, the fluent JSON parser, the request object with deferred responses, the service point with its calls and
methods, server status watches and the persistent subscription. `dafny verify dfyconfig.toml` checks the project.

Each concurrent or event-driven component has two layers:

- a **machine**: a state value, an event type, and `Step`. `Run` folds `Step` over a trace of events;
  `Possible` says which traces the environment can produce. Safety and refinement results are stated over every
  possible trace, so over every interleaving, because code that runs outside a lock is a separate step.
- a **class** with the source's own fields, whose methods (loops, in-place updates, early returns) are proved to
  make machine steps, one each unless they are said to be several or, like method registration, to leave the machine
  state alone. The ghost function `View` gives the machine state of the object together
  with its surroundings.

The bus and the main loop are a small environment: tokens, cookies and addresses are fresh and non-zero, nothing is
delivered for a token or cookie after it was cancelled, responses are appended to a log, and the main loop runs
its sources in the order they were attached. Whether a bus call succeeds is a parameter (`busOk`, `contextOk`,
`accepted`, `answer`, `watched`, `ok`, `sent`).

What an operation does is also stated without the machine's own functions: over any possible trace, its effect is read
off the trace alone (`SubscriptionTraces`, `RequestMachine.RepliesExact`, `CallMachine.OnBusIff`,
`MethodTable.RegisteredIff`, `StatusMachine.WatchIsRead`, `PersistentProofs.SubscribeWatchesIff`), or off the document
(`JsonSpec`).

The components:

- **Subscription point** (`SubscriptionMachine`, `SubscriptionProofs`, `SubscriptionTraces`, `SubscriptionWindows`,
  `SubscriptionPoints`).
  `post` is the two steps Snapshot (locked) and Attach (unlocked); `addSubscription` is Join (peer watch), which the
  bus may refuse, and Push (list). The ideal it is compared with is immediate broadcast to whoever is in the list at the snapshot.
- **JSON parser** (`Double`, `JsonDecoding`, `JsonSpec`, `JsonProofs`, `JsonExactness`, `JsonParsers`, `JsonClients`).
  `JsonSpec` says what a document means for a list of fields without running a parser, and shares with the rest only
  the types of documents, values and fields; `JsonDecoding` is what the
  code computes; `JsonParsers` is the imperative parser with its sticky error, field count, contexts and
  destinations written by reference. Recursion through nested objects, arrays, strings holding JSON and value maps
  is unbounded.
- **Request** (`RequestMachine`, `JsonRequests`). One request from handler to last released deferred function.
- **Service point** (`CallMachine`, `MethodTable`, `ServicePoints`). `makeCall` is the three steps Begin (bus call),
  Stamp (the token is written into the call) and Insert (locked insertion).
- **Server status** (`StatusMachine`, `ServerStatuses`). A pool of watches under set, cancel, moves and destruction.
- **Persistent subscription** (`ServiceUri`, `PersistentMachine`, `PersistentProofs`, `PersistentSubscriptions`). It
  embeds the status machine for its own watch; a status reported from inside `set` is a Status event directly
  after Subscribe, since the callback reads nothing that `set` still has to write.

What the proofs brought to light, where the code does not do what its comments say or a reader may expect:

- A deferred response sent while the handler is still running is forgotten when the handler returns, so the stock
  "no reply" error can follow a real answer (`src/jsonrequest.cpp:84`): `RequestMachine.AnswerThenStockError` gives
  the exact condition, `RequestMachine.ShadowedAnswerExample` a run.
- A handler that does not defer and returns something that is not a response leaves its caller without any reply:
  `RequestMachine.SilentIff` is the exact condition for silence, `RequestMachine.SilentExample` a run.
- A second `defer()` is documented as not allowed; the code logs it and defers again, and so does the model.
- A cancel or peer-down that arrives between the two halves of `addSubscription` is lost:
  `SubscriptionWindows.EarlyRemovalIsLost` says exactly when, `SubscriptionWindows.EarlyCancelExample` is a run.
- The destructor of the subscription point is documented to send out pending messages; the code leaves them to the
  main loop, which still delivers them: `SubscriptionWindows.DestroyKeepsPending`, and
  `SubscriptionWindows.SentAfterDestroyIff` says exactly when all is sent, with
  `SubscriptionWindows.PendingAfterDestroyExample` for a run.
- A reply that overtakes the write of the token in `makeCall` (`src/servicepoint.cpp:187`) runs a one-reply handler
  without ending the call, so it can run again: `CallMachine.OneReplyRunsOnce` gives the number of runs and exactly
  when it is at most one, `CallMachine.HandlerRunsTwiceExample` a run.
- The `uint64_t` path accepts integers up to 2^64 + 2048, and its cast is undefined from 2^64 - 1024 on, because the
  bound is compared as a double: `JsonProofs.U64OfNumber` and `JsonProofs.U64OfInteger`.
- Strict mode compares counts, so it passes iff the repeated requests are as many as the unread keys
  (`JsonExactness.StrictExact`). `JsonExactness.StrictIsCoverageIff` says exactly when that is coverage. Both ways of
  failing occur: a repeated request hides an unread key (`JsonExactness.RepeatedRequestHidesKey`), and an object all
  of whose keys are read is refused (`JsonExactness.RepeatedRequestRefused`).
- `isServiceActive` is documented to be false right after `subscribe`. It is true exactly when the last report from
  inside `set` was up: `PersistentProofs.ActiveAfterSubscribeIff`, with
  `PersistentProofs.ActiveAfterSubscribeExample`.

## Model

| member | source | states |
|---|---|---|
| SubscriptionProofs.Conservation | src/subscriptionpoint.cpp:29-166 | in every interleaving and for every class of deliveries, settled + queued + snapshotted-but-unattached deliveries are, as a multiset, those of immediate broadcast |
| SubscriptionProofs.SerializedOrder | src/subscriptionpoint.cpp:79-126 | when no two posts overlap, delivered then queued then unattached is the broadcast sequence itself |
| SubscriptionProofs.ThreadOrder | src/subscriptionpoint.cpp:79-126 | in every interleaving the deliveries of one posting thread stay in broadcast order, although attaching is unlocked |
| SubscriptionProofs.Reachable | src/subscriptionpoint.cpp:38-47 | in every reachable state the peer watches are exactly the items of the list and of running `addSubscription` calls, without duplicates, and the cancel notification sits on the current handle only |
| SubscriptionProofs.BatchPrefix | src/subscriptionpoint.cpp:51-71 | when a `respond` throws, exactly the recipients before it in the snapshot are served |
| SubscriptionProofs.AllResponded | src/subscriptionpoint.cpp:56-59 | when no `respond` throws, what the bus carried is everything dispatched |
| SubscriptionTraces.PostTakesSnapshotIff | src/subscriptionpoint.cpp:79-109 | over any trace a post makes a batch for everyone listed iff the handle set last, or else adopted from the first subscriber, is there, the context is ok, and the flag set last is off or the payload differs from that of the last post that made one while it was on; otherwise it makes none |
| SubscriptionTraces.PointIsRead | include/public/ls2-helpers/subscriptionpoint.hpp:130-145 | handle, flag and stored payload are what the trace says |
| SubscriptionTraces.JoiningIsRead | src/subscriptionpoint.cpp:38-47 | the items between watch registration and push are those the trace says, each with the message it was created for |
| SubscriptionWindows.MembershipIsWindow | src/subscriptionpoint.cpp:44-47 | with unique tokens the list holds exactly the items pushed and not since cancelled, reported down or destroyed |
| SubscriptionWindows.ListIsInPushOrder | src/subscriptionpoint.cpp:46 | the list is in subscribe order |
| SubscriptionWindows.RemovedOnce | src/subscriptionpoint.cpp:128-166 | cancel and peer-down remove their own item, its watch, and nothing else, and are idempotent |
| SubscriptionWindows.SubscriberGetsItsWindow | src/subscriptionpoint.cpp:29-126 | per subscriber: delivered + queued + unattached is exactly the accepted posts whose snapshot fell inside its window, in order when posts are serialized |
| SubscriptionWindows.ThreadGetsItsWindow | src/subscriptionpoint.cpp:29-126 | per subscriber and posting thread, in every interleaving: that thread's deliveries are, in order, its accepted posts inside the window |
| SubscriptionWindows.BroadcastIsOwed | src/subscriptionpoint.cpp:105-108 | the broadcast seen by one subscriber is what its window on the trace says, so a late subscriber gets no earlier post |
| SubscriptionWindows.DestroyKeepsPending | include/public/ls2-helpers/subscriptionpoint.hpp:116-123 | destroying the point changes nothing about pending deliveries or the steps that complete them, and sends nothing itself |
| SubscriptionWindows.SentAfterDestroyIff | include/public/ls2-helpers/subscriptionpoint.hpp:116-123 | over any run and any continuation after the destructor: what was sent is, as a multiset, everything posted iff nothing is pending; the empty continuation is the moment the destructor returns |
| SubscriptionWindows.Drains | src/subscriptionpoint.cpp:51-71 | from any reachable state attaches and dispatches alone leave nothing pending |
| SubscriptionWindows.PendingAfterDestroyExample | include/public/ls2-helpers/subscriptionpoint.hpp:116-123 | a run whose pending delivery is unsent when the destructor returns |
| SubscriptionWindows.EarlyRemovalIsLost | src/subscriptionpoint.cpp:38-47 | over runs with unique tokens: after a cancel or peer-down the item can still get into the list iff it is between watch registration and push; otherwise no continuation lists it |
| SubscriptionWindows.EarlyCancelExample | src/subscriptionpoint.cpp:38-47 | a run in which a subscriber cancels before its push and is owed the next post |
| SubscriptionWindows.DeduplicationIsDestuttering | src/subscriptionpoint.cpp:94-109 | with deduplication on, the accepted payloads are those of the posts that took the lock, with consecutive repeats removed, starting from the empty string; posts refused for want of a handle or context may lie between |
| SubscriptionWindows.DestutterIdempotent | src/subscriptionpoint.cpp:96-103 | removing repeats twice is removing them once |
| SubscriptionWindows.ComparedWithLastDeduplicated | include/public/ls2-helpers/subscriptionpoint.hpp:130-133 | with deduplication toggled, comparison is with the last payload accepted while it was on, or the empty string |
| SubscriptionPoints.Runtime.PostSubscriptions | src/subscriptionpoint.cpp:51-71 | the response loop settles the oldest batch in order, up to the first failure, and removes the source |
| SubscriptionPoints.SubscriptionPoint.constructor | include/public/ls2-helpers/subscriptionpoint.hpp:108-114 | a new point is the machine's initial state, with the cancel notification on the given handle |
| SubscriptionPoints.SubscriptionPoint.SetServiceHandle | include/public/ls2-helpers/subscriptionpoint.hpp:140-145 | one SetHandle step: the notification moves with the handle |
| SubscriptionPoints.SubscriptionPoint.SetDedup | include/public/ls2-helpers/subscriptionpoint.hpp:130-133 | one SetDeduplicate step |
| SubscriptionPoints.SubscriptionPoint.BeginSubscription | src/subscriptionpoint.cpp:29-42 | one Join step: adopts the message's connection if there is no handle, watches the sender; one JoinRefused step if the bus refuses the watch |
| SubscriptionPoints.SubscriptionPoint.EndSubscription | src/subscriptionpoint.cpp:44-47 | one Push step |
| SubscriptionPoints.SubscriptionPoint.AddSubscription | src/subscriptionpoint.cpp:29-48 | Join then Push when nothing interleaves; throws iff the watch is refused, keeping the adopted connection |
| SubscriptionPoints.SubscriptionPoint.TakeSnapshot | src/subscriptionpoint.cpp:79-109 | one Snapshot step: refuses without handle or context, drops a repeated payload, else copies the messages in list order |
| SubscriptionPoints.SubscriptionPoint.AttachSource | src/subscriptionpoint.cpp:111-125 | appends the batch to the main loop without touching the point |
| SubscriptionPoints.SubscriptionPoint.Post | src/subscriptionpoint.cpp:79-126 | both halves together when nothing interleaves, and the returned flag |
| SubscriptionPoints.SubscriptionPoint.SubscriberCancelCB | src/subscriptionpoint.cpp:128-146 | one Cancel step: the search loop erases the first item with the token, if any |
| SubscriptionPoints.SubscriptionPoint.SubscriberStatusCB | src/subscriptionpoint.cpp:148-166 | one PeerStatus step: nothing on up, the item's removal on down |
| SubscriptionPoints.SubscriptionPoint.Delete | include/public/ls2-helpers/subscriptionpoint.hpp:120-123 | one Destroy step: notification off, every item's watch cancelled |
| JsonExactness.ParserExact | include/public/ls2-helpers/jsonparser.hpp:603-668 | for any field list with distinct destinations, any document and any destinations: no stored error and these destinations, if and only if the document satisfies the declarative specification with them; any names, repeated or not |
| JsonExactness.SatisfiedMeansCovered | src/jsonparser.cpp:300-308 | if no present key is requested twice, satisfaction in strict mode is acceptable fields and every key requested |
| JsonExactness.BoundedInteger | include/public/ls2-helpers/jsonparser.hpp:530-551 | a 32-bit field with min a and max b on the number n is accepted iff n is in the type's range and a <= n <= b, and then holds n |
| JsonExactness.PlainFirstError | include/public/ls2-helpers/jsonparser.hpp:483-590 | the first error of a refused plain field names it and its reason: absence, null, the type's reason, or the first failing check |
| JsonExactness.SourceFirstError | include/public/ls2-helpers/jsonparser.hpp:603-788 | the first error of any get function on a present value names the field and its reason |
| JsonExactness.FirstFailingField | src/jsonparser.cpp:57-67 | the first error of a sequence of requests is the first failing request's own first error |
| JsonExactness.StoredErrorIs | src/jsonparser.cpp:300-318 | the error stored in the end is the first failing request's, or the strict check's if none fails |
| JsonExactness.ObjectRefused | src/jsonparser.cpp:267-277 | a nested object is refused for not being one or for the error its own parser stores |
| JsonExactness.ElementRefused | include/public/ls2-helpers/jsonparser.hpp:779-783 | a failing element reports its reason first; a null one leaves a default-constructed slot |
| JsonClients.ParseArray | include/public/ls2-helpers/jsonparser.hpp:753-788 | getArray on an array: one slot per element; an error stored before stays, else none is stored iff every element succeeds, and the one stored is the first failing element's |
| JsonClients.ParseDocument | src/jsonparser.cpp:300-308 | the imperative parser run to finishParse returns true iff some destinations satisfy the specification, and then leaves the only ones that do; its error is that of malformed text, of the first failing request, or of the strict check |
| JsonExactness.DecodeExact | src/jsonparser.cpp:98-284 | every type, nested objects included: decoding succeeds with d iff the value denotes d |
| JsonExactness.ObjectExact | src/jsonparser.cpp:267-318 | a nested object's parseFromJson ending in finishParseOrThrow succeeds iff all its fields are acceptable and, if strict, the strict check holds |
| JsonExactness.SourceExact | include/public/ls2-helpers/jsonparser.hpp:603-788 | get, getFromString, getAndMap and getArray with a chain accept a present value iff the specification does |
| JsonExactness.FieldExact | include/public/ls2-helpers/jsonparser.hpp:483-590 | one whole get expression, absent key and null included, meets its specification exactly |
| JsonExactness.SubParserExact | src/jsonparser.cpp:286-298 | getObject records no error and yields a parser on d iff the key holds the object d; otherwise the parser is empty and the errors are given |
| JsonExactness.FieldsIndependent | include/public/ls2-helpers/jsonparser.hpp:603-622 | with distinct destinations, get expressions do not influence one another |
| JsonExactness.CountIsReadPlusRepeats | include/public/ls2-helpers/jsonparser.hpp:613-619 | for any list of get, getFromString, getAndMap, getArray and getObject requests the field count is the number of keys read plus the number of repeated requests |
| JsonExactness.CountIsCardinality | include/public/ls2-helpers/jsonparser.hpp:613-619 | if no present key is requested twice, through any mix of requests, the field count is the cardinality of the set of keys read |
| JsonExactness.StrictExact | src/jsonparser.cpp:300-308 | for any list of requests the strict check passes iff repeats and unread keys are equally many |
| JsonExactness.StrictMeansCoverage | src/jsonparser.cpp:300-308 | if no present key is requested twice the strict check passes iff every key of the object was requested |
| JsonExactness.StrictIsCoverageIff | src/jsonparser.cpp:300-308 | for any list of requests, the strict check agrees with coverage iff nothing is repeated, or some key is unread and the repeats are not as many as the unread keys |
| JsonExactness.RepeatedRequestHidesKey | src/jsonparser.cpp:300-308 | a repeated name makes the strict check pass over an unread key |
| JsonExactness.RepeatedRequestRefused | src/jsonparser.cpp:300-308 | a repeated name makes the strict check refuse an object all of whose keys are read |
| JsonExactness.ElementsOneByOne | include/public/ls2-helpers/jsonparser.hpp:776-783 | as many slots as elements, each holding its own element's result; no error iff no element has one |
| JsonExactness.ArrayMeaning | include/public/ls2-helpers/jsonparser.hpp:776-783 | no error and slots d iff there are as many elements, all non-null, and element i denotes d[i] |
| JsonExactness.FirstFailingElement | include/public/ls2-helpers/jsonparser.hpp:779-783 | the first error recorded for an array is the first failing element's, whatever follows |
| JsonExactness.ModifierOrder | include/public/ls2-helpers/jsonparser.hpp:483-590 | permuting a chain with at most one optional, allowNull and defaultValue changes neither destination, read flag nor success |
| JsonProofs.ChainMeaning | include/public/ls2-helpers/jsonparser.hpp:483-574 | a chain means its last optional, allowNull and default and the conjunction of its checks |
| JsonProofs.FinishedMeaning | include/public/ls2-helpers/jsonparser.hpp:577-590 | chain and destructor together accept iff the declarative condition on the fresh context holds |
| JsonProofs.LessIs | include/public/ls2-helpers/jsonparser.hpp:530-551 | the comparison of min and max is the order of the type: of booleans, integers, numbers, text and vectors |
| JsonProofs.TextLessIs | include/public/ls2-helpers/jsonparser.hpp:530-551 | text is ordered by its first difference |
| JsonProofs.VectorsByFirstDifference | include/public/ls2-helpers/jsonparser.hpp:530-551 | vectors are ordered by their first items that are not equivalent |
| JsonProofs.ChainFirstError | include/public/ls2-helpers/jsonparser.hpp:530-574 | the first error of a chain is that of its first failing check |
| JsonProofs.Refused | src/jsonparser.cpp:33-55 | every type reports the reason for refusing a value: not a number, not numeric text, out of bounds, a fraction, or the wrong type |
| JsonProofs.DoubleExact | src/jsonparser.cpp:232-240 | result and destination of reading a double, in every case |
| JsonProofs.NarrowExact | src/jsonparser.cpp:98-176 | 8-, 16-bit and 32-bit unsigned types accept exactly the integers in range and leave the destination alone on failure |
| JsonProofs.DirectExact | src/jsonparser.cpp:178-206 | the 32- and 64-bit signed types accept exactly the integers in range; a refused number is stored all the same, without its fraction or as the bound it passes |
| JsonProofs.U64Exact | src/jsonparser.cpp:208-230 | the unsigned 64-bit path accepts iff the rounded number is an integer from 0 to 2^64 |
| JsonProofs.U64OfNumber | src/jsonparser.cpp:208-230 | any number is accepted iff it is at most 2^64 + 2048 and rounds to a natural number, which is stored and within 1024 of it below the undefined cast |
| JsonProofs.U64RefusesFractions | src/jsonparser.cpp:223-226 | a number that is a double with a fraction is refused for the fraction |
| Double.NearestDouble | src/jsonparser.cpp:214-216 | the rounding of the unsigned 64-bit path is to nearest: the result is a double and no double is nearer |
| Double.RoundedIsDouble | src/jsonparser.cpp:214-216 | exactly between two multiples of the unit the even one is taken |
| Double.DoublesAreExact | src/jsonparser.cpp:214-216 | a double is its own rounding |
| JsonProofs.U64OfInteger | src/jsonparser.cpp:208-230 | an integer is accepted iff it is from 0 to 2^64 + 2048; exact up to 2^53, within 1024 below the undefined cast, which starts at 2^64 - 1024 |
| JsonParsers.JsonParser.constructor | include/public/ls2-helpers/jsonparser.hpp:128-136 | malformed text is a stored error from the start |
| JsonParsers.JsonParser.RecordError | src/jsonparser.cpp:57-67 | only the first error is kept |
| JsonParsers.JsonParser.ClearError | include/public/ls2-helpers/jsonparser.hpp:195-198 | forgets the stored error |
| JsonParsers.JsonParser.FinishParse | src/jsonparser.cpp:300-308 | records the strict-mode error on a count mismatch and returns whether no error is stored |
| JsonParsers.JsonParser.FinishParseOrThrow | src/jsonparser.cpp:310-318 | throws the stored error, if any |
| JsonParsers.JsonParser.GetImpl | include/public/ls2-helpers/jsonparser.hpp:643-668 | the context returned, the destination and the recorded error are those of the functional get |
| JsonParsers.JsonParser.Get | include/public/ls2-helpers/jsonparser.hpp:603-622 | the same through the key lookup, counting the field once if present |
| JsonParsers.JsonParser.GetFromString | include/public/ls2-helpers/jsonparser.hpp:624-641 | reads a string, parses it as a document, decodes that |
| JsonParsers.JsonParser.GetAndMap | include/public/ls2-helpers/jsonparser.hpp:695-722 | reads the key, searches the table for the first matching row, reports a missing one |
| JsonParsers.JsonParser.GetArray | include/public/ls2-helpers/jsonparser.hpp:753-788 | reads the array and its elements, or reports what was found instead |
| JsonParsers.JsonParser.ReadElements | include/public/ls2-helpers/jsonparser.hpp:776-783 | the loop clears the destination and grows it by one decoded slot per element |
| JsonParsers.JsonParser.GetObject | src/jsonparser.cpp:286-298 | a fresh parser on the sub-object; otherwise exactly the errors of the functional getObject here and an empty parser |
| JsonParsers.JsonParser.RunExpression | include/public/ls2-helpers/jsonparser.hpp:427-599 | one statement, from get to the context's destructor, or getObject, has the effect of the functional field |
| JsonParsers.JsonParser.RunRequests | include/public/ls2-helpers/jsonparser.hpp:603-788 | any sequence of statements leaves the destinations, errors and count of the functional sequence |
| JsonParsers.JsonParser.ParseValue | src/jsonparser.cpp:98-284 | every specialization writes or leaves its destination and throws as the functional decoder says |
| JsonParsers.JsonParser.ParseNarrow | src/jsonparser.cpp:98-176 | the flags gather in a local and the destination is written only when none is set |
| JsonParsers.JsonParser.ParseDirect | src/jsonparser.cpp:178-206 | the destination is written before the flags are checked |
| JsonParsers.JsonParser.ParseU64 | src/jsonparser.cpp:208-230 | sign, limit and fraction checks on the double, then the cast |
| JsonParsers.JsonParser.ParseDouble | src/jsonparser.cpp:232-240 | precision loss is ignored, overflow is not |
| JsonParsers.JsonParser.ParseObject | src/jsonparser.cpp:267-277 | a parseFromJson on its own parser, ending in finishParseOrThrow |
| JsonParsers.JsonParseContext.SetOptional | include/public/ls2-helpers/jsonparser.hpp:483-487 | one Optional modifier |
| JsonParsers.JsonParseContext.SetAllowNull | include/public/ls2-helpers/jsonparser.hpp:493-497 | one AllowNull modifier |
| JsonParsers.JsonParseContext.SetDefault | include/public/ls2-helpers/jsonparser.hpp:516-523 | writes the destination only when nothing was read |
| JsonParsers.JsonParseContext.CheckMin | include/public/ls2-helpers/jsonparser.hpp:530-537 | an error iff a read value is below the bound |
| JsonParsers.JsonParseContext.CheckMax | include/public/ls2-helpers/jsonparser.hpp:544-551 | an error iff a read value is above the bound |
| JsonParsers.JsonParseContext.CheckAllowed | include/public/ls2-helpers/jsonparser.hpp:559-574 | an error iff a read value is not in the list |
| JsonParsers.JsonParseContext.FinishParse | include/public/ls2-helpers/jsonparser.hpp:577-590 | the mandatory and null checks of the destructor |
| RequestMachine.RepliesExact | src/jsonrequest.cpp:45-158 | the replies of every run, in order and with their contents, read off the trace: each taken answer of a deferred function, the reply of the handler's end, and last the stock error when due |
| RequestMachine.StockErrorIff | src/jsonrequest.cpp:37-43 | the stock error is sent, once and last, iff the handler returned normally after deferring and no response succeeded after that |
| RequestMachine.RespondedMeaning | src/jsonrequest.cpp:72-87 | the responded flag is false iff the handler returned after deferring and nothing was answered since |
| RequestMachine.Lifetime | src/jsonrequest.cpp:113-133 | the request is destroyed iff the handler has ended and every copy of every deferred function is released |
| RequestMachine.SilentIff | src/jsonrequest.cpp:45-111 | when the caller has received nothing, over every outcome and every use of deferred functions |
| RequestMachine.SilentExample | src/jsonrequest.cpp:76-80 | a run that leaves the caller without a reply |
| RequestMachine.DeferredIsAnswered | src/jsonrequest.cpp:72-87 | a request whose handler returned normally after deferring has a response once the last copy is released |
| RequestMachine.AnswerThenStockError | src/jsonrequest.cpp:82-85 | exactly when a stock error follows a real answer |
| RequestMachine.ShadowedAnswerExample | src/jsonrequest.cpp:84 | a run in which it does |
| JsonRequests.JsonRequest.Respond | src/jsonrequest.cpp:135-158 | an object or true is itself sent and flagged; anything else, and a bus failure, throws and changes nothing |
| JsonRequests.JsonRequest.DeferResponse | src/jsonrequest.cpp:113-133 | one Defer step, also the second time |
| JsonRequests.JsonRequest.DropReference | src/jsonrequest.cpp:37-43 | the last reference runs the destructor, which sends the stock error if nothing was responded |
| JsonRequests.JsonRequest.HandleLunaCall | src/jsonrequest.cpp:45-111 | for every payload, handler script and outcome: replies with their contents, final state of the request, return value or escaping exception |
| CallMachine.Reachable | src/servicepoint.cpp:160-235 | in every interleaving each context the bus holds is a live call owned by exactly one of a running makeCall and the table, and table keys equal call tokens |
| CallMachine.TargetLives | src/servicepoint.cpp:320-334 | following a context pointer finds a live call, with its own token or, until makeCall has written it, zero |
| CallMachine.NothingAfterDestruction | src/servicepoint.cpp:34-53 | after the destructor the bus holds no context of this service point |
| CallMachine.GoneForGood | src/servicepoint.cpp:229-235 | a used token that left the bus never returns and its handler never runs again |
| CallMachine.CancelSafety | src/servicepoint.cpp:212-227 | no handler runs after cancelCall on its token returned, whatever happens later |
| CallMachine.LeavesBusIff | src/servicepoint.cpp:34-53 | a token leaves the bus by its own cancel, by the destructor if it has a context, or by a late reply to its one-reply call; by nothing else |
| CallMachine.OnBusIff | src/servicepoint.cpp:212-235 | over any run the token of a call is on the bus iff the call has not been cancelled nor the service point destroyed since, nor, for a one-reply call, a late reply dispatched |
| CallMachine.ManyReplies | src/servicepoint.cpp:320-334 | over any run a call that takes many replies stays until cancelled or destroyed, and its handler runs for every reply |
| CallMachine.FireAndForgetStays | src/servicepoint.cpp:192-207 | a call without a handler is on the bus until it is cancelled |
| CallMachine.OneReplyRunsOnce | src/servicepoint.cpp:320-334 | a one-reply handler runs once per reply that overtook the write of its token plus once per later one, of which there is at most one; so at most once iff none overtook, or one did and none followed |
| CallMachine.EarlyReplyRunsTwice | src/servicepoint.cpp:178-190 | from any reachable state, a reply dispatched before the token is written leaves the call alive for a second one |
| CallMachine.HandlerRunsTwiceExample | src/servicepoint.cpp:178-190 | a run from the start in which a one-reply handler runs twice |
| MethodTable.RegisteredIff | src/servicepoint.cpp:55-109 | after any requests a name is registered iff some request named it, with a handle, a category with a leading slash, a method name without any, and the bus taking it; the first such request's context runs |
| MethodTable.ResultIs | src/servicepoint.cpp:60-92 | the result of a request after any requests is its first condition that fails |
| MethodTable.RegistrationsValid | src/servicepoint.cpp:55-109 | after any registrations, refused ones included, names are distinct and valid and each listed method is bound to its own context |
| MethodTable.NoStaleContext | src/servicepoint.cpp:34-53 | after the destructor no context of this service point is bound, its names answer with the canned reply, every other name is unchanged, or left without a context exactly when the bus took its method and refused a context it did not have before |
| MethodTable.UnregisteredIff | src/servicepoint.cpp:111-122 | the unregister loop rebinds exactly the listed names |
| MethodTable.SignalUriSplits | src/servicepoint.cpp:250-263 | category and method are recovered from the signal URI at its last slash |
| MethodTable.SignalUriInjective | src/servicepoint.cpp:262-263 | different signals have different URIs |
| ServicePoints.ServicePoint.constructor | include/public/ls2-helpers/servicepoint.hpp:377-382 | a new service point is the machine's initial state |
| ServicePoints.ServicePoint.BeginCall | src/servicepoint.cpp:160-185 | one Begin step, or nothing when the handle is missing or the bus refuses |
| ServicePoints.ServicePoint.StampCall | src/servicepoint.cpp:187 | one Stamp step |
| ServicePoints.ServicePoint.InsertCall | src/servicepoint.cpp:188-190 | one Insert step |
| ServicePoints.ServicePoint.MakeCall | src/servicepoint.cpp:160-210 | the outcome for every combination of handle, handler, reply mode and bus, and Begin, Stamp, Insert when nothing interleaves |
| ServicePoints.ServicePoint.Cancel | src/servicepoint.cpp:212-227 | one CancelCall step, by the table or forwarded; undefined exactly when there is no handle |
| ServicePoints.ServicePoint.CancelOwned | src/servicepoint.cpp:229-235 | cancels on the bus and erases from the table under the call's own token |
| ServicePoints.ServicePoint.DispatchResponse | src/servicepoint.cpp:320-334 | one Dispatch step: a one-reply call, and only such a call, is cancelled and erased before its handler runs |
| ServicePoints.ServicePoint.RegisterMethod | src/servicepoint.cpp:55-109 | the checks in order, the duplicate search, and the registration; a refusal by the bus throws and lists nothing |
| ServicePoints.ServicePoint.RegisterOnBus | src/servicepoint.cpp:98-109 | the method is appended, then given its context; either step may throw and leaves what the first one did |
| ServicePoints.ServicePoint.SendSignal | src/servicepoint.cpp:241-271 | the checks in order, the URI handed to the bus, and the error when the bus refuses it |
| ServicePoints.ServicePoint.Delete | src/servicepoint.cpp:34-53 | one Destroy step and the unregister loop |
| StatusMachine.LinearOwnership | include/public/ls2-helpers/serverstatus.hpp:68-98 | over any sequence of set, cancel, moves (self-moves included) and destruction, each cookie is held by exactly one watcher with its callback allocated, or was cancelled exactly once on its own handle |
| StatusMachine.WatchIsRead | include/public/ls2-helpers/serverstatus.hpp:63-98 | over any sequence of operations every object watches, on the bus, the handle and service the trace says: its own last successful set, or what it took by a move |
| StatusMachine.NothingLeaks | include/public/ls2-helpers/serverstatus.hpp:90-98 | when all watchers are gone nothing is registered and no callback object is left |
| StatusMachine.Reachable | include/public/ls2-helpers/serverstatus.hpp:151-181 | watchers and bus agree in every reachable state |
| ServerStatuses.ServerStatus.constructor | include/public/ls2-helpers/serverstatus.hpp:63 | a new watcher is idle |
| ServerStatuses.ServerStatus.MoveFrom | include/public/ls2-helpers/serverstatus.hpp:68-75 | everything is handed over and the source is idle |
| ServerStatuses.ServerStatus.AssignFrom | include/public/ls2-helpers/serverstatus.hpp:77-88 | the target's watch is cancelled, the source's taken over; also for self-assignment |
| ServerStatuses.ServerStatus.CancelWatch | include/public/ls2-helpers/serverstatus.hpp:170-181 | cancels a held cookie and frees its callback, else nothing |
| ServerStatuses.ServerStatus.SetWatch | include/public/ls2-helpers/serverstatus.hpp:151-164 | cancels, replaces handle and callback, registers the service; throws iff refused |
| ServerStatuses.ServerStatus.Delete | include/public/ls2-helpers/serverstatus.hpp:90-98 | cancels a held cookie and frees the callback |
| ServiceUri.AcceptedIffDecomposes | src/persistentsubscription.cpp:48-62 | a URI is accepted with a service name iff it is scheme + "://" + name + "/" + rest with the first "://" and no slash in the name |
| ServiceUri.DecompositionUnique | src/persistentsubscription.cpp:48-62 | such a decomposition is unique |
| PersistentMachine.Reachable | src/persistentsubscription.cpp:22-109 | what every run keeps: calls and cancels pair up, calls are live only under a watch on the same handle, watches are linear |
| PersistentProofs.OutcomeIs | src/persistentsubscription.cpp:27-54 | each refusal of subscribe comes iff its own condition is the first to fail |
| PersistentProofs.SubscribeWatchesIff | src/persistentsubscription.cpp:22-68 | after any run subscribe leaves a watch iff handle, handler and params are there, the URI decomposes, and the bus takes the watch; it is on that handle for the service named in the URI |
| PersistentProofs.TokenHandlePairing | src/persistentsubscription.cpp:79-109 | over any run the cancels are the calls in order, each on the handle that issued it; only the last may be uncancelled and it is the object's call |
| PersistentProofs.NoWatchNoCall | src/persistentsubscription.cpp:56-67 | a live call implies a registered watch; there is at most one watch, on the object's handle, for the service named in its URI, with its callback allocated |
| PersistentProofs.RefusedLeavesIdle | src/persistentsubscription.cpp:27-67 | a refused subscribe leaves no watch and no call; refused by validation it keeps handle and URI and clears parameters and handler |
| PersistentProofs.CallUsesLatest | src/persistentsubscription.cpp:89-101 | every issued call carries handle, URI and parameters of the latest subscribe |
| PersistentProofs.SameSubscribe | src/persistentsubscription.cpp:79-87 | a token the bus still holds is the object's call and belongs to the subscribe under which it was issued |
| PersistentProofs.AnsweredByItsSubscriber | src/persistentsubscription.cpp:111-115 | a response goes to the handler of the subscribe under which its call was issued |
| PersistentProofs.ReconnectTrace | src/persistentsubscription.cpp:89-109 | after any run and a successful subscribe, one call per rising edge of the status trace, each with that subscribe's arguments, live iff the last report was up; an up report whose call the bus refuses counts as no report |
| PersistentProofs.ActiveAfterSubscribeIff | include/public/ls2-helpers/persistentsubscription.hpp:142-151 | after subscribe with reports from inside it, a call is live iff the last of them was up |
| PersistentProofs.ActiveAfterSubscribeExample | include/public/ls2-helpers/persistentsubscription.hpp:142-151 | a run in which the service is active when subscribe returns |
| PersistentSubscriptions.PersistentSubscription.constructor | include/public/ls2-helpers/persistentsubscription.hpp:62-65 | a new subscription is the machine's initial state |
| PersistentSubscriptions.PersistentSubscription.Subscribe | src/persistentsubscription.cpp:22-68 | one Subscribe step and the error thrown: cancel first, checks in order, URI split, then fields and watch |
| PersistentSubscriptions.PersistentSubscription.CancelEverything | src/persistentsubscription.cpp:70-77 | one CancelAll step |
| PersistentSubscriptions.PersistentSubscription.CancelSubscription | src/persistentsubscription.cpp:79-87 | cancels the live call on the current handle, if there is one |
| PersistentSubscriptions.PersistentSubscription.OnServiceStatusResponse | src/persistentsubscription.cpp:89-109 | one Status step; throws iff a call was needed and refused |
| PersistentSubscriptions.PersistentSubscription.OnCallResponse | src/persistentsubscription.cpp:111-115 | one Response step |
| PersistentSubscriptions.PersistentSubscription.IsServiceActive | include/public/ls2-helpers/persistentsubscription.hpp:148-151 | true iff the bus holds a call of this object |
| PersistentSubscriptions.PersistentSubscription.Delete | include/public/ls2-helpers/persistentsubscription.hpp:67-70 | one Destroy step |

## Left out

- The bus, the hub, the GLib main loop and pbnjson themselves: an environment with the assumptions stated above. Parsing a document, reading a numeric string and rounding to a double are parameters of `JsonDecoding.Env`; `Double` defines the rounding for the integer results.
- C++ memory-model races, among them the one noted at `src/servicepoint.cpp:41-42` and cancelling a call while its callback runs on another thread: callbacks and locked sections are atomic steps. The destructor of the service point is taken only while no `makeCall` is running.
- Main loops other than one: attaching after a change of handle to another context would go to another queue.
- Bus failures inside destructors, and when cancelling a status watch or a call.
- Handlers of a posted batch that call back into the point while the batch is being sent.
- The copy constructor of JsonParseContext where it is not elided, and its conversion to bool, which would finish the context a second time.
- `checkValueRead` appears only as the read flag of the context; null field names and the convenience overloads that build names or handlers are not modelled.
- Code of a parseFromJson beyond get expressions and finishParseOrThrow; the object keeps what was written before a throw, as in the source.
- The branch for a null array at `include/public/ls2-helpers/jsonparser.hpp:766-768`: the inner optional get has already refused null, so it is never taken.
- What the JSON library stores when a conversion to a signed integer fails is taken to be the truncated or saturated value; JsonProofs.DirectExact states it.
- Beyond the range of doubles (`Double.Beyond`) the library is taken to raise its overflow flag; the value it stores is `JsonDecoding.Env.rounded`, which nothing but the destination of a refused double depends on. NaN and infinities do not occur.
- A parse function passed by the client is a function of the value and the destination (`JsonDecoding.Shape.Custom`); one with other effects, or that throws something other than the parser's own exception, is not modelled. `min` and `max` order booleans, numbers, strings and vectors; an ordering defined by a client's own class is not modelled.
- What a client asks of the parser that getObject returns is another run of the same model, on the document that the request leaves in its slot.
- The size of a document that is not an object is taken to be 0, and so is its number of fields.
- Schema validation is the choice between the three payload cases of JsonRequests.JsonRequest.HandleLunaCall.
- Calls and subscription items are values with an address, not heap cells; `TargetLives` is what shows that no dangling address is followed.
- A PersistentSubscription handler that cancels its own subscription while running.
- `subscribeToSignal` and its first-response flag, `registerSignal`, `JsonResponse` dispatch, error wording, logging and `util.cpp`: thin wrappers and formatting.
