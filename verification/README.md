# Verified models of nshmqtt

nshmqtt takes HTTP requests, publishes MQTT messages through a pool of broker
connections, keeps the last value of each metric in a small store with a file, listens
to its own and other publishes, and forwards messages to a webhook. Around sockets and
libraries it has several hand-written engines. This project models those engines in
Dafny and proves what they are for.

    dafny verify dfyconfig.toml

## What is modelled

- **JSON** (`JsonScan`, `JsonEscapes`, `JsonEntries`, `JsonTree`, `JsonLenient`,
  `JsonFlatten`, `JsonPaths`, `JsonAccepted`, `JsonFlatNumbers`): the index-driven scanner
  is modelled loop by loop, and compared with two independent grammars. The tree of a
  JSON document is *concrete* syntax: it holds every run of white space, and strings as
  they are written, so that "for every tree" means for every way of writing every object. The scanner finds the end of a nested
  value by counting one kind of bracket; the proof is an induction over the tree that
  says how far any bracket counter gets over any value. The lenient grammar is the
  language the scanner really accepts, no more and no less. What an object is flattened to
  is said by the paths of its scalars, and what an escape stands for by the tables of the
  standards.
- **The store and its file** (`Store`, `Service`, `Persistence`, `Restarting`): saving
  and loading as a round trip over arbitrary names, the handlers that write the store, the
  temporary-file-and-rename protocol over whole runs with a crash between any two steps,
  and exactly when the service can always be started again.
- **The echo** (`Echo`, `EchoExact`, `EchoRace`): every publish of a metric comes back
  through the broker, among messages of any other publisher; what the store converges to,
  and exactly when the statements of the documentation hold, with any number of writers.
- **Concurrency** (`ThreadPool`, `PublishPool`, `PublishOutcomes`, `PoolStops`,
  `LostConnection`, `HandOff`, `StopRace`): step systems in which a step is one critical
  section or one shared access of one thread, together with a class whose methods are those sections, each proved to be the step of
  its name. The thread pool has an explicit lock, condition variable, spurious wake-ups
  and joins.
- **Text** (`Topic`, `Placeholders`, `PlaceholderHazards`, `RandomValues`, `HttpText`,
  `HttpRequests`, `RequestText`, `RequestExact`, `Framing`, `Serving`, `WebhookJson`,
  `MetricNames`): MQTT filters, placeholder substitution, the request parser with what it
  accepts and how a request is answered, reading it in pieces, the webhook envelope and
  Prometheus names.

`Text`, `Counting` and `Numbers` hold what the others share.

## Conventions

- A `string` is a byte string: one `char` is one byte. Results that hold for any
  characters do not ask for bytes.
- A `double` is its 64-bit pattern. `format_double` and `strtod` are parameters (`Codec`)
  of which three facts are used: formatted text is non-empty and free of white space, NUL,
  commas, quotes and brackets; a value read back from formatted text is formatted the
  same way; and a text that `strtod` reads whole, if no white space is in front, is free of
  those characters too. "Rounded" is the value read back from its nine digits.
  `UnitCodecIsLawful` shows the three facts can be met.
- Not every double can be read back: for the nine digits of a subnormal one `strtod`
  reports a range error. The service can hold such a value: `strtod` reads an exact
  subnormal, such as `0x1p-1074`, without an error (section 7.22.1.3 of C11 leaves the
  report of underflow to the implementation; glibc makes it for inexact results only).
  So the statements say exactly what happens (`LoadOfSave`), and
  `Restarting.AlwaysRestartsExactly` what the conversions would have to promise.
- Loops of the source are methods with loops; each is proved equal to a recursive function,
  and the lemmas are about the function. Fields that the source updates in place are
  fields of classes.
- Placeholder generators are a parameter: `g(k, n)` is what call `n` of pass `k` returns.
  The layout of a value is assumed (so many hexadecimal digits, a version-4 UUID, a
  timestamp, a date with a year of four digits), nothing else; for the random values
  `RandomValues` proves it from the bytes of the device.
- Broker, socket, clock and file-system answers are events that may happen whenever the
  code leaves room for them.

## Where the code and its documentation differ

The code is modelled. In each case the stronger documented statement is not claimed.

- src/json_util.h:40-45 says of `parse_flat_number_object` that any structural problem,
  trailing data among them, is rejected. Trailing data is not: the tokenizer stops at the
  closing brace and ignores what follows (src/json_util.cpp:267-270), so `{}x` is read as an
  empty object (`JsonFlatNumbers.TrailingDataRead`). A number with a NUL in it is read up to
  the NUL (`JsonFlatNumbers.NulHidesText`). Beyond these, and numbers spelled in any way that
  `strtod` reads, nothing is let through: `JsonFlatNumbers.FlatObjectExactly` says that a
  text is read if and only if it starts with a document whose values are all words that
  `strtod` reads, and `JsonFlatNumbers.FlatObjectIsJson` that without a NUL this document is
  a JSON object of scalars.
- src/json_util.h:60-64 says of `flatten_json_object` that only structurally malformed input
  fails. It fails also for a well-formed object with a number that `strtod` refuses
  (`JsonFlatNumbers.UnreadableNumberRefused`), and malformed input passes: text behind the
  object; brackets of two kinds that cross, because a nested value is only scanned for its
  own kind (src/json_util.cpp:65-93); and anything without an unbalanced bracket or an open
  string inside an array. `JsonFlatten.MalformedAccepted` gives such inputs,
  `JsonLenient.TokensExactly` and `JsonAccepted.FlattenAcceptsExactly` say exactly which
  texts are accepted and as what.
- README.md:610-619 of the repository says that the write which comes back through the
  broker is guaranteed to be identical and never a race. `EchoExact.SecondWriteIsIdentical`
  says that, of a name with one write under way, it is identical exactly when the value is
  already rounded to nine digits. With any number of writers `EchoRace.NeverARaceExactly`
  says that no interleaving changes the store by a returning write if and only if, from the
  first value on that can be read back, all write one value that was already rounded;
  `EchoRace.OlderWriteReturns` is the race of two. `EchoExact.DeletedNameReturnsExactly` says
  that a deleted name comes back exactly when a value for it was still on its way.
- src/event_placeholders.cpp:91-95 says that no match is ever skipped or scanned again.
  Within one pass that is so; over the twelve passes a fresh value can complete the token
  of a later pass, and a token can start on the last two letters of `NSHMQTT_TIMESTAMP_NS`.
  `PlaceholderHazards.SimultaneousExactlyWhenSafe` is the exact condition on the payload.
- src/http.cpp:69-72 says that a raw space is invalid in an encoded text; the test lets it
  through (`HttpText.RawSpaceIsDecoded`). It cannot reach the decoder from a request line,
  which is split at spaces (`HttpRequests.TargetHasNoSpace`).
- src/mqtt.h:66-68 says that a connection which is currently connected takes the next job.
  A worker woken because its connection was lost may still take one
  (src/mqtt.cpp:346-358): `LostConnection.JobTakenWithConnectionDown` is such a run,
  `LostConnection.TakesWithConnectionDown` says exactly when it happens, and
  `PublishPool.ConnectionDiscipline` that it happens at most once per loss.
- Bytes behind a request's body are trimmed if they came with the head
  (src/server.cpp:819-822) but drop the connection if they come with a later piece of the
  body (src/http.cpp:150-152). `Framing.ServedExactlyWhen` is the exact condition;
  `Framing.ExtraBytesDecide` cuts the same bytes once so that they are served and once so
  that they are dropped, and `Framing.ExtraBytesHappen` gives such a request.
- src/mqtt.h:108-109 says that stop() returns quickly. src/mqtt.cpp:60-67, like
  src/webhook.cpp:35-41, clears the flag and notifies without the mutex that the worker's
  untimed wait holds between its test and its sleep. `StopRace.StopHangs` is a run in which
  stop() then waits for ever, and `StopRace.StopHangsExactly` says that this can happen if
  and only if the worker tested before the flag was cleared and was not yet asleep at the
  notify; otherwise stop() returns.
- `parse_double` and the Content-Length conversion work on `c_str()` and stop at a NUL.

## Model

| member | source | states |
|---|---|---|
| `JsonScan.SkipWs` | src/json_util.cpp:17-26 | the loop returns the first index that holds no white space |
| `JsonScan.SkipJsonString` | src/json_util.cpp:28-45 | the loop returns the index behind the closing quote, jumping over escapes, or nothing if the text ends first |
| `JsonScan.SkipJsonValue` | src/json_util.cpp:54-101 | the loops with their depth counter return the end that the recursive description of strings, nested values and scalars gives |
| `JsonScan.JsonUnescape` | src/json_util.cpp:107-206 | the loop decodes exactly as the recursive description, including unknown, truncated and `\u` escapes |
| `JsonScan.ReadMember` | src/json_util.cpp:232-262 | one key, colon and value, or nothing as soon as one of them is missing |
| `JsonScan.TokenizeFlatObject` | src/json_util.cpp:215-273 | the pairs in order, or failure, as the recursive description says; the text behind the closing brace is not looked at |
| `JsonScan.TokensAreShorter` | src/json_util.cpp:279-331 | every value of an object is strictly shorter than the text it was found in, so that flattening ends |
| `JsonScan.JsonEscape` | src/text_util.cpp:17-62 | the loop writes the escape of every byte in turn |
| `JsonScan.UnescapeEscape` | src/json_util.cpp:107-206 | unescaping an escaped text gives the text back, for every byte string |
| `JsonScan.HexValueIs` | src/json_util.cpp:161-181 | a character has the value n exactly if it is the n-th of 0 to 9 and a to f, in either case |
| `JsonEscapes.UnicodeEscapeGives` | src/json_util.cpp:150-200 | four hexadecimal digits in either case behind \u give the UTF-8 form of their code unit (section 3 of RFC 3629) |
| `JsonEscapes.OtherUnicodeEscape` | src/json_util.cpp:150-192 | without four such digits the letter u stays and what follows is read as text |
| `JsonEscapes.LetterEscapes` | src/json_util.cpp:107-149 | five letters stand for control characters (section 7 of RFC 8259), any other character but u for itself, and a lone backslash at the end for nothing |
| `JsonEscapes.EscapeIsShortest` | src/text_util.cpp:17-62 | of all ways to write a character in a JSON string json_escape takes a shortest one |
| `JsonScan.EscapedStringEnds` | src/json_util.cpp:28-45 | an escaped text between quotes ends exactly at its closing quote |
| `JsonScan.EscapeHasNoControl` | src/text_util.cpp:17-62 | escaped text holds no byte below 0x20 (section 7 of RFC 8259) |
| `JsonTree.NestOverValue` | src/json_util.cpp:54-101 | over any printed value, whatever it nests and whatever its strings hold, a counter of either bracket kind returns to the depth it had |
| `JsonTree.ValueEndAt` | src/json_util.cpp:54-101 | the scanner finds the end of every printed value exactly |
| `JsonEntries.TokensOfEntries` | src/json_util.cpp:215-273 | whatever the values of an object are, if the scanner ends where they end, the tokenizer reports exactly its members in order |
| `JsonTree.TokensOfObject` | src/json_util.cpp:215-273 | for every well-formed object, any white space before it and any text behind it, the tokenizer reports exactly its members in order |
| `JsonFlatten.FlattenInto` | src/json_util.cpp:279-331 | the recursion that appends to the output appends what the recursive description gives, or fails when that does |
| `JsonFlatten.FlattenJsonObject` | src/json_util.cpp:372-376 | the whole flattening, from an empty prefix |
| `JsonFlatten.FlattenTextIsTree` | src/json_util.cpp:279-331 | for every well-formed object, flattening its text gives exactly the leaves of its tree: numbers and booleans kept in order, keys joined with an underscore unless the joined prefix is empty, strings, null and arrays dropped |
| `JsonFlatten.TreeLeavesSucceed` | src/json_util.cpp:279-331 | the flattening of a tree succeeds if and only if every scalar outside arrays can be read, at every depth |
| `JsonPaths.FlattenGivesLeaves` | src/json_util.h:47-59 | flattening any well-formed object gives one leaf for each scalar outside arrays that is not null, in the order of the document: the keys of its path joined by an underscore with empty ones in front dropped, and 1.0 for true, 0.0 for false, the number otherwise; or fails exactly for a scalar that cannot be read |
| `JsonFlatten.MalformedAccepted` | src/json_util.cpp:54-101 | three malformed texts that flatten, against src/json_util.h:60-64: one with text behind the object, one with brackets of two kinds crossing, one with an array of bare commas |
| `JsonLenient.NestEndIs` | src/json_util.cpp:65-93 | when the counter reaches its end, what it passed is runs of characters, strings and balanced pairs of its own bracket |
| `JsonLenient.TokensExactly` | src/json_util.cpp:215-273 | the tokenizer accepts a text and reports these pairs if and only if the text starts with a document of the lenient grammar with these members |
| `JsonAccepted.FlattenAcceptsExactly` | src/json_util.cpp:279-331 | flattening succeeds if and only if the text starts with a lenient document in which, at every depth, objects are such documents themselves and scalars are literals or numbers |
| `JsonFlatNumbers.FlatObjectExactly` | src/json_util.cpp:352-370 | a flat object is read if and only if the text starts with a document whose values are all words that the conversion reads: no string, no nested value |
| `JsonFlatNumbers.FlatObjectIsJson` | src/json_util.h:40-45 | without a NUL a text is read if and only if it starts with a JSON object whose values are all scalars that the conversion reads, with anything behind it |
| `JsonFlatNumbers.TrailingDataRead` | src/json_util.h:40-45 | an object with text behind it is read, so the comment does not hold |
| `JsonFlatNumbers.NulHidesText` | src/json_util.cpp:352-370 | a number with a NUL in it is read as what stands in front of the NUL |
| `JsonFlatNumbers.UnreadableNumberRefused` | src/json_util.h:60-64 | a well-formed object with a number that cannot be read is refused by flattening, though it is not malformed |
| `JsonFlatten.ExtractJsonNumberField` | src/json_util.cpp:335-350 | the field as FirstField describes it, or nothing if the text has no tokens |
| `JsonFlatten.FirstFieldIs` | src/json_util.cpp:342-349 | the value is the number of the first pair with that key, and nothing without such a pair |
| `JsonFlatten.ParseFlatNumberObject` | src/json_util.cpp:352-370 | the map of all pairs, a later one replacing an earlier one; failure if any value cannot be read |
| `Numbers.TrimWs` | src/text_util.cpp:92-106 | the two loops return what is left without the white space at both ends |
| `Numbers.TrimIs` | src/text_util.cpp:92-106 | trimming takes exactly the white space at both ends |
| `Numbers.ParseNumberText` | src/text_util.cpp:108-124 | white space around a number's text does not change what is read |
| `Numbers.RoundedAgain` | src/text_util.cpp:83-90 | a rounded value is readable, is its own rounding and has the same text |
| `Numbers.UnitCodecIsLawful` | src/text_util.cpp:83-124 | the facts assumed of the conversions can be met |
| `Store.LeastExists` | src/state.cpp:40-44 | among any names there is a least one in the order of `std::map` |
| `Store.EntriesAreSorted` | src/state.cpp:40-44 | a snapshot is in strictly increasing order of names and holds exactly the store's entries |
| `Store.FileTokens` | src/state.cpp:80-100 | for any names whatever (quotes, braces, control bytes, NUL), the tokenizer reads the saved text as exactly the entries |
| `Store.LoadOfSave` | src/state.cpp:52-100 | loading the text of a save gives the same names with every value rounded; it fails if and only if some value's text cannot be read back |
| `Store.SecondSaveIsSame` | src/state.cpp:80-100 | saving what was loaded writes the same text again |
| `Service.StateStore.SnapshotItems` | src/state.cpp:40-44 | the entries in the order of their names |
| `Service.StateStore.Load` | src/state.cpp:52-78 | no file is an empty success; a file that cannot be read or parsed leaves the store alone; otherwise the store is what the file says |
| `Service.StateStore.SaveText` | src/state.cpp:80-100 | the loop with its separator flag writes the text of the snapshot |
| `Service.StateStore.Save` | src/state.cpp:80-125 | success puts the whole text in place of the file; a failure at any point leaves the file as it was and the temporary file as far as it got |
| `Persistence.SaveIsARun` | src/state.cpp:80-125 | a save with any fault is a run of the events of the persistence model, with the same effect on both files |
| `Service.Handler.OnMessage` | src/main.cpp:437-489 | the store after a message, whether the file is written and with what, and whether the webhook queue is given the message |
| `Service.Handler.MetricWrite` | src/server.cpp:551-582 | the store is changed, then the file is written, then the formatted value is published retained: when it is, store and file are already final, and the broker's answer only decides what is reported |
| `Service.Handler.MetricDelete` | src/server.cpp:584-619 | nothing for a missing name; otherwise removal, then the file, then the empty publish, with the broker's answer only reported |
| `Service.OverlayLooksUpLast` | src/main.cpp:455-464 | after a list of entries has been set one by one, a name holds its last entry of the list, or what it held before |
| `Service.JsonTopicAllOrNothing` | src/main.cpp:451-470 | a message on a JSON topic: if any scalar at any depth cannot be read the store is unchanged, otherwise every name looks up the last leaf of the document written to it |
| `Service.OnlySubscribedTopics` | src/main.cpp:441-482 | a message changes the store only if the subscription is on and one of its filters matches; on a topic that is no JSON topic it is stored exactly if it is a number |
| `Persistence.CrashLoadsLastSave` | src/state.cpp:52-125 | after any run, and a crash at any moment of it, the file loads to the store saved last with its values rounded, failing exactly when that store held an unreadable value |
| `Persistence.ChangesAnyTime` | src/state.cpp:11-38 | while the service is up its store can be changed and a crash can come whatever a save is doing, and a save that fails leaves file and store alone |
| `Persistence.SaveIsAtomic` | src/state.cpp:80-125 | from the start of a save to the start of the next, with changes, faults and crashes anywhere, the disk holds the store from before the save or the one it began with |
| `Persistence.SaveSucceeds` | src/server.cpp:551-599 | a save that reaches its rename puts the store it began with on disk, the current one if nothing changed meanwhile |
| `Persistence.RestartSucceeds` | src/state.cpp:52-78 | a restart after a crash at any moment succeeds as long as only readable values were stored |
| `Persistence.RestartRestores` | src/main.cpp:393-404 | a start finds nothing, or the store saved last with its values rounded; it fails exactly if one of them cannot be read back |
| `Restarting.StoredIsFromText` | src/main.cpp:437-489 | every value a message puts into the store, at any depth of a JSON payload, was read by parse_double or is 0 or 1 |
| `Restarting.AlwaysRestartsExactly` | src/main.cpp:399-414 | over all runs that store only such values, with a crash at any moment, the service always starts again if and only if each such value can be read back from its nine digits |
| `Restarting.TinyStopsTheRestart` | src/text_util.cpp:83-124 | the conversions of the C library do not promise that: the least positive double, written in hexadecimal, is stored and stops the restart |
| `Restarting.TinyCodecIsLawful` | src/text_util.cpp:83-124 | the facts assumed of the conversions allow it |
| `Echo.ComesBackRounded` | src/main.cpp:471-482 | a value that comes back is stored rounded; an empty payload changes nothing; a message of another publisher is stored exactly if it is a number |
| `Echo.EffectIsBelow` | src/main.cpp:456-486 | a message changes only the name of its own topic or, on a JSON topic, names below it |
| `Echo.OthersReachTheStore` | src/main.cpp:471-482 | a number that another publisher sends reaches the store |
| `Echo.StoreConverges` | src/server.cpp:551-619 | in every interleaving of writers, deleters, other publishers on any topics, broker and arriving messages, once nothing that matters for a name is on its way the store holds the value of the message accepted last of those that matter, unless that was a delete or an unreadable write; arriving messages cause no publish |
| `EchoExact.SecondWriteIsIdentical` | src/main.cpp:471-482 | after one write of a settled name, in every interleaving with other names, other publishers and the broker: the store holds the value until its own return and the rounded value from then on, so the second write is identical if and only if the value was rounded |
| `EchoRace.NeverARaceExactly` | src/server.cpp:551-582 | from any reachable state in which nothing of the name is on its way, with any writers of these values: in every interleaving no returning write changes the store if and only if, from the first value on that can be read back, all are one value that was already rounded |
| `EchoRace.OlderWriteReturns` | src/server.cpp:551-582 | a run with two writers in which the older, rounded value comes back over the newer one |
| `EchoExact.DeletedNameReturnsExactly` | src/server.cpp:584-619 | after a delete, in every interleaving in which nothing more is about the name: once it is settled the name is stored if and only if a value for it was on its way at the delete |
| `Echo.DeletedNameReturns` | src/server.cpp:584-619 | one such run, after which everything has settled and the deleted name is in the store |
| `ThreadPool.ThreadPool.SubmitInside` | src/thread_pool.cpp:25-37 | the locked part of a submit: the descriptor is queued, or closed after stop |
| `ThreadPool.ThreadPool.NotifyOne` | src/thread_pool.cpp:25-37 | the notify wakes one sleeper or nobody |
| `ThreadPool.ThreadPool.WorkerLooks` | src/thread_pool.cpp:64-87 | a worker with the lock takes the front, goes to sleep, or leaves |
| `ThreadPool.ThreadPool.HandlerDone` | src/thread_pool.cpp:64-87 | the handler's return sends the worker back for the lock |
| `ThreadPool.ThreadPool.ShutdownInside` | src/thread_pool.cpp:39-62 | the stop flag is set under the lock |
| `ThreadPool.ThreadPool.NotifyAll` | src/thread_pool.cpp:39-62 | every sleeper is woken before the joins |
| `ThreadPool.SubmissionsAreTheGiven` | src/thread_pool.cpp:25-37 | in every interleaving submission i is the i-th descriptor given to submit, and keeps it |
| `ThreadPool.SubmissionIsInOnePlace` | src/thread_pool.cpp:25-87 | in every interleaving each descriptor given to submit is in the queue, with one worker, or was handled or closed, exactly one of these and once |
| `ThreadPool.TakenInOrder` | src/thread_pool.cpp:64-87 | a worker takes the oldest descriptor that has not been taken |
| `ThreadPool.NoLostWakeUp` | src/thread_pool.cpp:25-87 | while a worker sleeps there are at least as many notifies due and workers about to look as descriptors queued; with none due some worker is neither asleep nor gone; once shutdown joins nobody sleeps |
| `ThreadPool.OneNotifyEach` | src/thread_pool.cpp:25-37 | in every interleaving each descriptor put in the queue is notified about once |
| `ThreadPool.WorkDecreases` | src/thread_pool.cpp:39-87 | after stop is set every step but a new submit makes a measure smaller |
| `ThreadPool.SomethingMoves` | src/thread_pool.cpp:39-87 | after stop is set, until shutdown has joined every worker, some step is possible |
| `ThreadPool.ShutdownReturns` | src/thread_pool.cpp:39-62 | every run after stop is set without new submits is bounded by the measure, and ends with shutdown returned, an empty queue and every descriptor that was given to submit handled or closed exactly once |
| `ThreadPool.ShutdownCanFinish` | src/thread_pool.cpp:39-87 | from every reachable state the threads can move so that shutdown is called and returns |
| `PublishPool.MqttClient.PublishLocked` | src/mqtt.cpp:129-147 | queued, or turned away and counted when the queue is full |
| `PublishPool.MqttClient.AwaitOutcome` | src/mqtt.cpp:149-160 | the outcome of a done job, or a time-out |
| `PublishPool.MqttClient.ConnectTried` | src/mqtt.cpp:322-336 | success raises the flag and resets the back-off; failure waits |
| `PublishPool.MqttClient.BackOffOver` | src/mqtt.cpp:331-335 | the back-off doubles up to thirty seconds |
| `PublishPool.MqttClient.TakeJob` | src/mqtt.cpp:338-361 | leave, look again, or take the front of the queue |
| `PublishPool.MqttClient.PublishMessageAnswered` | src/mqtt.cpp:371-402 | refused and counted, handed off at QoS 0 and counted, or waiting for its acknowledgement |
| `PublishPool.MqttClient.CompletionAnswered` | src/mqtt.cpp:403-427 | acknowledged or not, and counted |
| `PublishPool.MqttClient.ReportOutcome` | src/mqtt.cpp:429-434 | the outcome is written and the job is done |
| `PublishPool.MqttClient.OnConnectionLost` | src/mqtt.cpp:437-446 | the flag goes down at any time |
| `PublishPool.MqttClient.DrainQueue` | src/mqtt.cpp:85-95 | every queued job is done as failed and the queue is empty |
| `PublishPool.FailQueued` | src/mqtt.cpp:87-94 | the loop fails exactly the queued jobs |
| `PublishPool.JobIsInOnePlace` | src/mqtt.cpp:60-160 | in every interleaving each accepted job is in exactly one of queue, one connection, done; the queue is in order and within its bound |
| `PublishPool.TakenInOrder` | src/mqtt.cpp:338-361 | jobs are taken in the order they were accepted |
| `PublishPool.OutcomeIsFinal` | src/mqtt.cpp:85-95 | once a job is done its record never changes |
| `PublishPool.ResultsAreTruthful` | src/mqtt.cpp:129-160 | Ok only if that call's own message was handed off or acknowledged, Failed only if it was refused or never tried, QueueFull only if it was never queued |
| `PublishOutcomes.OutcomesAreTheAnswers` | src/mqtt.cpp:371-435 | in every interleaving the outcome of a done job is Ok exactly if the last answer about it was an acknowledgement or, at QoS 0, that Paho took it; Timeout exactly if none came in time; Failed exactly if Paho refused it or stop cleared it |
| `PublishOutcomes.OutcomesAreExact` | src/mqtt.cpp:371-435 | the same by the attempt on record |
| `PublishOutcomes.ReturnsAreExact` | src/mqtt.cpp:149-160 | a publish that returns with its job done tells its caller exactly that about the caller's own message, one that returns before Timeout |
| `PublishOutcomes.JobsCarryTheMessages` | src/mqtt.cpp:129-147 | call k is about the k-th message given to publish, and so is its job |
| `PublishOutcomes.RejectedWhenFull` | src/mqtt.cpp:137-146 | a publish is turned away exactly when the queue is full, and queued behind the others otherwise |
| `PublishOutcomes.FailureDropsConnection` | src/mqtt.cpp:371-446 | a connection that failed to publish is given up before the failure is reported, and a connection's flag goes down only then, when it is lost or when its worker leaves |
| `PublishPool.CountersAddUp` | src/mqtt.cpp:371-435 | each counter is the number of attempts that ended so; accepted = finished + cleared + held + queued |
| `PublishPool.StopFinishesJobs` | src/mqtt.cpp:60-96 | when stop has returned every job accepted before it cleared the queue is done; all are if and only if none was accepted later |
| `PoolStops.WorkDecreases` | src/mqtt.cpp:60-96 | once stop has cleared the flag every step makes a measure smaller, but for new calls of publish and lost connections |
| `PoolStops.StopReturns` | src/mqtt.cpp:60-96 | a run after that in which nothing comes from outside is bounded by the measure, and ends with every connection's worker joined, no publish waiting and every job accepted before the drain done |
| `PublishPool.ConnectionDiscipline` | src/mqtt.cpp:315-369 | at most one job is taken while the flag is down, and the wait after the k-th failed connect in a row is min(2^(k-1), 30) seconds for every k |
| `PublishPool.ConnectionHistory` | src/mqtt.cpp:315-446 | only the connection's own worker raises the flag, jobs taken with it down are counted, failures grow by one per wait and are reset by a success |
| `LostConnection.TakesWithConnectionDown` | src/mqtt.cpp:338-361 | in every interleaving a worker takes a job with its connection down if and only if the connection was lost after the worker last looked at the flag |
| `LostConnection.JobTakenWithConnectionDown` | src/mqtt.cpp:346-358 | a run of eight steps that ends so |
| `HandOff.HandOffQueue.Arrive` | src/mqtt.cpp:448-466 | a message is counted before the lock is taken; the webhook ignores it when no longer running |
| `HandOff.HandOffQueue.EnqueueLocked` | src/mqtt.cpp:467-478 | queued, or dropped when the queue is full |
| `HandOff.HandOffQueue.Enqueue` | src/webhook.cpp:48-64 | both halves of the webhook's enqueue |
| `HandOff.HandOffQueue.TakeMessage` | src/webhook.cpp:72-95 | the worker takes the front or leaves |
| `HandOff.HandOffQueue.MessageHandled` | src/webhook.cpp:96-116 | delivered or failed is counted |
| `HandOff.HandledInOrder` | src/mqtt.cpp:162-187 | for both queues: what is handled is a subsequence of what arrived, every message is in exactly one place, the bound holds, and received = handled + in hand + queued + not yet queued + dropped + ignored |
| `HandOff.ArrivalsAreKept` | src/mqtt.cpp:448-482 | in every interleaving message i is the i-th that arrived; it is dropped exactly when the queue is full, ignored exactly after stop by a queue that looks, and queued behind the others otherwise; the worker can go on as long as there is a message, and returns only after stop |
| `StopRace.StopHangsExactly` | src/mqtt.cpp:60-79 | after any run up to the notify of stop(): it can wait for ever if and only if the worker tested its condition before the flag was cleared and was not asleep yet at the notify; it then does, if no earlier message's notify is due; otherwise every run without new messages is finite and ends with the worker joined |
| `StopRace.StopHangs` | src/webhook.cpp:35-46 | the run of five steps after which stop() waits for ever |
| `StopRace.MessageEndsTheWait` | src/mqtt.cpp:162-190 | in such a wait a new message and its notify let stop() return |
| `StopRace.MessagesAreConserved` | src/mqtt.cpp:162-190 | in every interleaving each message put in the queue is in it, with the worker or handled, and is notified about once |
| `Topic.SplitLevels` | src/mqtt_topic.cpp:15-33 | the loop returns the levels |
| `Topic.JoinSplit` | src/mqtt_topic.cpp:15-33 | joining the levels of a text gives the text |
| `Topic.SplitJoin` | src/mqtt_topic.cpp:15-33 | splitting joined levels gives the levels, empty ones included |
| `Topic.TopicMatchesFilter` | src/mqtt_topic.cpp:35-77 | the loop with two indices decides the recursive match |
| `Topic.MatchesIsSubstitution` | src/mqtt_topic.cpp:35-77 | a filter matches if and only if one level for each plus and any levels for a final hash make it the topic, and a filter whose first level is a plus or a hash does not match a topic that starts with a dollar (section 4.7.2 of MQTT 3.1.1) |
| `Topic.TopicMatchesAny` | src/mqtt_topic.cpp:79-89 | whether some filter of the list matches |
| `Placeholders.ReplaceAllWithFreshValues` | src/event_placeholders.cpp:96-106 | one pass is leftmost replacement with one generator call for each occurrence; it ends because the text behind the position shrinks |
| `Placeholders.SubstituteEventPlaceholders` | src/event_placeholders.cpp:110-133 | the result is that of the twelve passes in their order |
| `Placeholders.TokenShape` | src/event_placeholders.cpp:114-130 | every token starts with NS, and only TIMESTAMP_NS has a second place where one could start |
| `Placeholders.PrefixFree` | src/event_placeholders.cpp:114-130 | no two tokens start at the same place |
| `RandomValues.RandomHex` | src/event_placeholders.cpp:22-36 | the loop writes two digits for each byte of the device |
| `RandomValues.HexValuesFit` | src/event_placeholders.cpp:114-117 | the text has as many hexadecimal digits as the name of the token says, and its bytes can be read again |
| `RandomValues.RandomUuidV4` | src/event_placeholders.cpp:40-65 | the loop writes the sixteen bytes with version and variant set and the dashes in place |
| `RandomValues.UuidFits` | src/event_placeholders.cpp:38-65 | whatever the device gives, the text is laid out as a version 4 UUID (section 4.4 of RFC 4122) |
| `Placeholders.NextPass` | src/event_placeholders.cpp:110-133 | over a payload in which the earlier tokens are substituted, a pass for which the payload is safe substitutes its own token and nothing else |
| `PlaceholderHazards.SimultaneousExactlyWhenSafe` | src/event_placeholders.cpp:110-133 | the twelve passes equal one left-to-right substitution for all values the generators may return if and only if the payload is safe |
| `PlaceholderHazards.UnsafeDiffers` | src/event_placeholders.cpp:110-133 | for every unsafe payload there are values with which the results differ |
| `PlaceholderHazards.GapIsUnsafe` | src/event_placeholders.cpp:114-117 | every cut-off hexadecimal token in front of an earlier pass's token is unsafe |
| `PlaceholderHazards.OverlapIsUnsafe` | src/event_placeholders.cpp:114-126 | every earlier token on the last two letters of TIMESTAMP_NS is unsafe |
| `HttpText.DecodePercent` | src/http.cpp:25-76 | the loop decodes as the recursive description, or fails when that does |
| `HttpText.DecodesExactly` | src/http.cpp:25-76 | a text is decoded to s if and only if it encodes s: each byte as itself, as an escape in either case (section 2.1 of RFC 3986) or, for a space, as a plus; NUL and raw control bytes have no encoding |
| `HttpText.EscapesDecode` | src/http.cpp:50-68 | every escape of two digits in either case gives its byte, and NUL or any other character in the place of a digit makes the decoding fail |
| `HttpText.RawSpaceIsDecoded` | src/http.cpp:69-72 | a raw space is decoded to itself, though the comment calls it invalid |
| `HttpText.PercentRoundTrip` | src/http.cpp:25-76 | every NUL-free byte string has such an encoding, free of the separators of a request |
| `HttpText.TrimSpacesIs` | src/http.cpp:78-87 | trimming takes exactly the blanks at both ends |
| `HttpText.DigitsAreALength` | src/http.cpp:251-260 | the decimal text of a length within the range of `long` is read as that length |
| `HttpRequests.ParseRequestLine` | src/http.cpp:185-214 | method and target, or failure |
| `HttpRequests.TargetHasNoSpace` | src/http.cpp:185-214 | the target of an accepted request line holds no space |
| `HttpRequests.ParseHeaders` | src/http.cpp:224-283 | the header loop applies the lines in order up to the blank line |
| `HttpRequests.ReadQuery` | src/http.cpp:299-322 | the pairs in order, empty ones skipped, failure on a bad encoding |
| `HttpRequests.ParseTarget` | src/http.cpp:290-322 | path and query of the target |
| `HttpRequests.ParseHttpRequest` | src/http.cpp:174-325 | the whole parser: the request and what is left over, or failure |
| `RequestExact.RequestLineExactly` | src/http.cpp:185-214 | a line is accepted exactly if it is a method in capitals, a space, a target that starts with a slash and holds no space, a space, and HTTP/1.1 or HTTP/1.0 |
| `RequestExact.FieldsExactly` | src/http.cpp:241-280 | seven header names are recognised, each in any case |
| `RequestExact.SaysChunkedExactly` | src/http.cpp:262-268 | a transfer coding counts as chunked exactly if the word is anywhere in it, in any case |
| `RequestExact.HeadersAreLines` | src/http.cpp:224-283 | the headers are the lines up to the blank line, applied in order; text behind the last line end says nothing |
| `RequestExact.ClearedForgets` | src/http.cpp:216-222 | what a request held before is gone when it is parsed, but for qos and retain |
| `RequestExact.LengthExactly` | src/http.cpp:251-261 | a length is white space, a sign and decimal digits up to the end or a NUL, within 64 bits and not negative |
| `RequestExact.ReadPairsExactly` | src/http.cpp:299-322 | a query is read exactly as the pieces between its ampersands, split at the first equals sign and decoded, and fails exactly if one cannot be decoded |
| `RequestExact.ReadTargetExactly` | src/http.cpp:290-322 | a target is the path in front of its first question mark and the query behind it, both decoded |
| `RequestText.PairsRead` | src/http.cpp:299-322 | a query in any encoding is read as its pairs in order |
| `RequestText.HeaderRead` | src/http.cpp:235-281 | a header line in any case and with any blanks sets the field of its name to its value |
| `RequestText.AppliedIsDescribed` | src/http.cpp:224-283 | headers taken one by one leave the last value of each field; they are refused if and only if some Content-Length is malformed |
| `RequestText.RequestRoundTrip` | src/http.cpp:174-325 | parsing any written request gives back method, path, query, headers and exactly the bytes behind the blank line (section 3 of RFC 7230), and refuses it if and only if a Content-Length is malformed |
| `RequestText.EncodedRoundTrip` | src/http.cpp:174-325 | every NUL-free path from the root and every list of NUL-free pairs has a request that is read back as them |
| `RequestText.StandardHeadersRead` | src/http.cpp:241-280 | each recognised header reaches its own field |
| `RequestText.ChunkedHeaderRead` | src/http.cpp:262-268 | a transfer coding that says chunked is noticed |
| `RequestText.MessageHead` | src/http.cpp:157-162 | the head of a written request ends exactly where its body starts |
| `Framing.Connection.ReadUntilGoal` | src/http.cpp:97-155 | the read loop over the pieces that recv returns |
| `Framing.Connection.Handle` | src/server.cpp:764-838 | reading, parsing, refusing and assembling one request |
| `Framing.HeadDecides` | src/http.cpp:174-325 | whatever comes with the head changes only what is left over |
| `Framing.HeadRead` | src/http.cpp:157-162 | the head read stops at the piece that completes the head, and is too large if and only if it has more than the limit by then |
| `Framing.RoomForAPiece` | src/http.cpp:97-155 | with room for one more piece behind the head that never happens |
| `Framing.NoHeadIsRefused` | src/http.cpp:157-162 | bytes without the end of a head are refused if and only if there are more than the limit, and dropped otherwise |
| `Framing.BodyRead` | src/http.cpp:164-172 | the body read succeeds if and only if a piece ends where the body ends, and then has exactly the body |
| `Framing.ServedExactlyWhen` | src/server.cpp:764-838 | for every way of cutting the bytes into pieces: the head is too large if and only if it is by the piece that completes it; otherwise the request is served as if it had come whole, or dropped exactly when bytes behind its body come with a later piece that completes it |
| `Serving.AnsweredByItsFields` | src/server.cpp:764-838 | for every way of cutting the bytes of a request whose head is read: malformed exactly if it does not parse, refused for its coding exactly if chunked, refused for its size exactly if not chunked and announcing more than the limit, and otherwise routed with exactly the announced bytes behind its head, or dropped exactly if they do not arrive with the head and no piece ends where they end |
| `Framing.ExtraBytesDecide` | src/server.cpp:809-832 | a request with a body and bytes behind it, within the limits: served if it comes as one piece, dropped if it is cut behind the head |
| `Framing.ExtraBytesHappen` | src/server.cpp:809-832 | for all limits that leave room for it there is such a request |
| `Framing.ExactBodyIsServed` | src/server.cpp:809-832 | with no byte behind the announced body the pieces never matter and nothing is reported as too large |
| `Framing.WrittenRequestIsServed` | src/server.cpp:764-838 | a written request, cut in any pieces, reaches the router with its fields and its body |
| `WebhookJson.BuildWebhookJson` | src/webhook_json.cpp:11-26 | the text is that of the envelope |
| `WebhookJson.EnvelopeReadsBack` | src/webhook_json.cpp:11-26 | for all topics and payloads the tokenizer reads the envelope as exactly its four pairs in order, and unescaping gives topic and payload back |
| `WebhookJson.EnvelopeHasNoControl` | src/webhook_json.cpp:11-26 | the envelope holds no byte below 0x20 |
| `MetricNames.NormalizeMetricName` | src/metrics.cpp:54-70 | the loop and the digit guard give the normalized name |
| `MetricNames.CollideIff` | src/metrics.cpp:54-70 | two topics collide if and only if their sanitized texts are equal, or one is an underscore in front of the other and the other starts with a digit |
| `MetricNames.NameIsValid` | src/metrics.cpp:54-70 | behind the prefix stand only letters, digits and underscores, the first no digit; a text that is such a name already is kept |
| `MetricNames.NormalizeAll` | src/metrics.cpp:72-92 | the loop with its map keeps the first entry of each name and reports the others, both in order |
| `MetricNames.SnapshotMetrics` | src/metrics.cpp:72-92 | on a snapshot: kept names are pairwise distinct, every topic's name is among them, each is that of its least topic, and kept + collisions is the number of entries |

## Left out

- Sockets, the accept loop, signals, poll and recv errors, file permissions, the health check: plumbing; only the pieces seen by a read loop and the way a connection ends are kept.
- Paho, libcurl, TLS and httpclient.cpp: foreign calls, each an event with any answer.
- The digits that `format_double` writes and which numbers' texts `strtod` accepts: library behaviour, a parameter.
- Configuration, help text, logging, metric rendering, response headers, status codes, routes, tokens, header-over-query choice: each is settled by reading one branch.
- Constant-time comparison, docker/fortify_shim.cpp, scripts, compose, NGINX, Grafana and Prometheus files.
- UTF-8 validity, surrogate pairs, NaN equality, power loss, randomness, wall-clock values: not decided by this code.
- Wake-ups of a condition variable without a notify in `StopRace`: they could end a wait that otherwise lasts for ever.
- A second caller of stop or shutdown returns at once and is not modelled.
- Overlapping saves: they share one temporary file name (src/state.cpp:102); the persistence results are about saves that do not overlap.
- Which fields a failed parse has already filled in: no caller looks at them.
- Failed publishes and dropped messages in `Echo`: a publish that is not accepted stays pending, and accepted messages all arrive; a message delivered twice counts as one of another publisher.
- PlaceholderHazards.SimultaneousExactlyWhenSafe: constrains a value by its layout only, so "for all values" includes dates that are not in the calendar; a year beyond 9999 is not covered.
- The percent-decoder's `+` for a space is the code's; RFC 3986 does not define it.
