# Verification models

Dafny models of the hardest code in this repository, one module per component, with proofs of what
that code is for. The work server comes first (the work handler, its queue, the HTTP and WebSocket
sessions, the proof-of-work arithmetic, the hexadecimal integers, the Swift hash); the bundled
libraries follow (the configuration parser and writer, the matchers, the
expectations, the simple regular expressions, the printers and the prime tables of the test
framework).

| file | what it models |
|---|---|
| `BipartiteMatching`, `UnorderedMatch` | the augmenting-path search and the verdicts of the unordered container matchers |
| `JobQueue` | the job comparator, the priority queue and its removal by rebuilding |
| `Scheduler*` | the work handler as a protocol of pool threads and request threads around three mutexes, exceptions included |
| `Toml*`, `Utf8` | the configuration format: strings, lines, tree, parser, a grammar apart from the parser, writer and its layout, merge; UTF-8 encoding and validation |
| `SimpleRegex`, `SimpleRegexLanguage` | grammar, language, matcher and anchoring of the simple regular expressions; their meaning by texts and code points |
| `Expectations` | prerequisite graphs, the three worklists over them, calls, sequences |
| `Blake2b`, `Blake2bVectors` | BLAKE2b after RFC 7693, and the Swift code against it; published digests |
| `HexCodec`, `ProofOfWork` | fixed-width integers as bytes and text; search, threshold and reported difficulty |
| `WebServer` | the HTTP pipeline, the WebSocket send queue and the keep-alive timer |
| `Primes` | the three prime tables and the odd trial division |
| `StringLiteral` | printing char arrays as C string literals, and reading them back |
| `Wrappers`, `Arithmetic` | an option type; sequences made of parts; facts about products and quotients |

Objects that the code updates in place are classes whose methods are proved against functions of
their state; the laws are lemmas about those functions. Protocols (`Scheduler`, `HttpPipeline`,
`WebSocket`) are state machines over their individual steps, and their laws hold for every run.

## Where the code does not do what it promises

- UTF-8 escapes: the three-byte branch of the parser keeps five bits where six are needed, so bit 11 of the
  code point is lost. U+0800 to U+0FFF give bytes that are not UTF-8, other values with that bit set
  silently become another character (`Utf8.EmitCorrectExactly`, `Utf8.EmitAcceptedExactly`,
  `Utf8.EmitsOtherScalar`). The validator itself is right (`Utf8.AcceptedExactly`).
- Control characters: the writer does not pad its `\u` escapes to four digits, so strings with control
  characters other than \b \t \n \f \r never survive (`TomlText.RoundTripExactly`).
- Keys and strings of a configuration: a tree comes back from its text if and only if its keys are not
  empty, its keys and strings have no other control characters, and no empty table is skipped
  (`TomlExact.RoundTripExactly`).
- Configuration: the base parser in `parse_base_and_override_files` is constructed but its `parse` is never
  called, so overrides that set a key or open a closed table twice are accepted
  (`TomlMerge.UnvalidatedExactly`, `TomlOverrides.SetTwiceAccepted`). An override that opens a table takes
  the keys that the file has before its first header into that table. Reading gives the file under the
  overrides if and only if no path is a table on one side and a value on the other and each of these keys
  fits, which it always does when the overrides open no table or the file starts with a header
  (`TomlMerge.ReadConfigExactly`, `TomlMerge.MergeFileExactly`). Of the clashes, with overrides that open no
  table, a value over a table of the file is refused, and a table over a value of the file silently loses
  that value (`TomlMerge.ClashExactly`).
- Work handler: an exception between acquiring and releasing a device leaks the device. "No available
  devices" can be thrown later on, without another exception, if and only if a device was leaked
  (`SchedulerLeak.LeakExactly`); one exception is enough for any number of devices and request threads
  (`SchedulerLeak.ThrowsExactly`). The comment that a free device is always found holds in all runs without
  such an exception (`SchedulerRuns.RunsAreSafe`).
- Work handler: a request is answered twice if and only if its pool task throws after the reply
  (`SchedulerExceptions.AnsweredTwiceExactly`); never more often. One exception is enough for any number of
  devices and request threads (`SchedulerReplies.RepliesExactly`).
- Work queue: it is not "a FIFO queue within each priority level" as soon as there are a device, two request
  threads and room for two jobs: ids are given before the queue is locked, and a thread can overtake another
  in between (`SchedulerFifo.FifoExactly`).
- Full regex matches are not anchored when the pattern ends in an escaped '$', because the anchoring takes
  it for an anchor (`SimpleRegex.FullMatchExactly`).
- The Swift hash treats a message whose length is a positive multiple of 128 as having one more, empty,
  block (`Blake2b.SameStateExactly`).
- The hybrid prime table answers p = -1 differently with and without the precalculated table
  (`PrimeTables.HybridIndependentExactly`).
- A printed NUL followed by an octal digit is read back as one character (`StringLiteral.RoundTripExactly`).
- The WebSocket send queue stalls if and only if a write completes with an error while other messages are
  queued (`WebSocket.SendRuns`), for which one failure is enough (`WebSocket.FailuresExactly`); from then on
  nothing is written any more (`WebSocket.StalledForGood`).

## Model

| member | source | states |
|---|---|---|
| BipartiteMatching.MaxBipartiteMatchState.TryAugment | deps/googletest/googlemock/src/gmock-matchers.cc:181-207 | the recursive search, with left and right inconsistent between its assignments: success adds one unit of flow from the root and respects every dead region, failure changes nothing and leaves all neighbours seen and exhausted |
| BipartiteMatching.MaxBipartiteMatchState.Compute | deps/googletest/googlemock/src/gmock-matchers.cc:129-163 | one search per left node ends in a maximum matching |
| BipartiteMatching.FindMaxBipartiteMatching | deps/googletest/googlemock/src/gmock-matchers.cc:227-229 | for every matrix: distinct lefts, distinct rights, edges only, and no other matching is larger |
| BipartiteMatching.CertificateMaximum | deps/googletest/googlemock/src/gmock-matchers.cc:137-143 | why searching once is enough: the dead region and the live lefts form a vertex cover of the size of the flow, so nothing can be larger |
| BipartiteMatching.MatchingBounded | deps/googletest/googlemock/src/gmock-matchers.cc:137-143 | weak duality: no matching exceeds that cover |
| BipartiteMatching.FlowAtLeastCover | deps/googletest/googlemock/src/gmock-matchers.cc:137-143 | the flow is as large as the cover |
| UnorderedMatch.MaximumDecides | deps/googletest/googlemock/src/gmock-matchers.cc:419-458 | a maximum matching fills a side if and only if an injection along edges from that side exists |
| UnorderedMatch.FindPairing | deps/googletest/googlemock/src/gmock-matchers.cc:419-458 | accepts if and only if, for a superset, there is an injection of the matchers into the elements along edges; for a subset, one of the elements into the matchers; for an exact match, both |
| UnorderedMatch.VerifyMatchMatrix | deps/googletest/googlemock/src/gmock-matchers.cc:369-417 | true if and only if no node that must be matched is isolated; never rejects what a pairing would accept |
| UnorderedMatch.NeverRejectsPairing | deps/googletest/googlemock/src/gmock-matchers.cc:369-417 | an acceptable matrix has no isolated node |
| UnorderedMatch.MatchAndExplain | deps/googletest/googlemock/include/gmock/gmock-matchers.h:3250-3272 | the short cuts before the pairing search do not change the verdict |
| UnorderedMatch.ExactNeedsEqualSizes | deps/googletest/googlemock/include/gmock/gmock-matchers.h:3250-3272 | an exact match needs as many elements as matchers |
| JobQueue.DrainSorted | src/workserver/work_handler.hpp:97-107 | draining lists exactly the queued jobs, by falling priority and by rising id within one |
| JobQueue.DrainAfterRemoval | src/workserver/work_handler.hpp:183-207 | filtering the queue filters the drain order and changes nothing else in it |
| JobQueue.WorkQueue.RemoveJob | src/workserver/work_handler.hpp:183-207 | rebuilding the queue removes exactly the jobs of the root, tells whether there were any, and keeps the drain order of the rest |
| JobQueue.WorkQueue.PopJob | src/workserver/work_handler.hpp:210-220 | takes the job of the highest priority, of these the one with the lowest id, or nothing from an empty queue |
| QueueRuns.AscendingIsFifo | src/workserver/work_handler.hpp:97-107 | with ids ascending in push order, pops within a priority are FIFO in every interleaving of pushes, pops and removals |
| QueueRuns.FifoExactly | src/workserver/work_handler.hpp:97-107 | all interleavings of given pushes are FIFO within each priority if and only if the ids ascend within each priority |
| QueueRuns.DescendingBreaksFifo | src/workserver/work_handler.hpp:97-107 | descending ids within a priority break FIFO in some run |
| SchedulerSafety.KeepsExclusive | src/workserver/work_handler.cpp:49-58 | every step keeps each mutex held by at most one thread |
| SchedulerSafety.DevicesScanned | src/workserver/work_handler.hpp:227-235 | moving the scan past a busy device keeps "at most n - h threads at or past index h, and one more for every device leaked before h" |
| SchedulerSafety.KeepsDevices | src/workserver/work_handler.hpp:136-146 | every step, exceptions included, keeps: a device held is busy and held once, and the counting bound up to leaked devices; the devices that are busy but not held grow by the one an exception takes from its thread, and by nothing else |
| SchedulerSafety.ScansStayInside | src/workserver/work_handler.cpp:221-222 | while nothing is leaked, no scan is past the last device |
| RequestLedger.KeepsBalance | src/workserver/work_handler.cpp:134-420 | every step, exceptions included, keeps each request in exactly one place, unanswered until its place is an answered one, and then answered once, or twice if an exception struck after the reply |
| JobBook.KeepsPartition | src/workserver/work_handler.cpp:224-245 | every step, exceptions included, keeps accepted jobs partitioned into queued, in progress, completed, removed and lost to an exception, with distinct ids, and forgets none |
| SchedulerCompletion.RingExactly | src/workserver/work_handler.cpp:410-413 | in every run no job is completed twice, the completed jobs are those of that class, and the ring holds the latest 128 of them in order of completion |
| SchedulerRuns.KeepsCovered | src/workserver/work_handler.cpp:208-231 | every step, exceptions included, keeps: queued jobs never exceed unstarted pool tasks plus submitters between push and post, also across cancels and clears |
| SchedulerRuns.KeepsInvariant | src/workserver/work_handler.cpp:221-245 | all of these together are inductive, exceptions included |
| SchedulerRuns.InitialInvariant | src/workserver/work_handler.cpp:23-41 | and hold initially for any number of devices and request threads |
| SchedulerRuns.NeverRunsOff | src/workserver/work_handler.hpp:227-235 | "No available devices" is not thrown while nothing is leaked |
| SchedulerRuns.RunsKeepInvariant | src/workserver/work_handler.cpp:221-245 | every run, whatever the interleaving and the exceptions, keeps the invariant, and leaks exactly the devices that exceptions took from their threads |
| SchedulerRuns.RunsAreSafe | src/workserver/work_handler.cpp:221-245 | in every run whose exceptions take no device, no scan runs off the end |
| SchedulerRuns.ShownOnce | src/workserver/work_handler.cpp:49-111 | a queue snapshot lists no job id twice, within or across its three lists |
| SchedulerRuns.WorkerKeepsSnapshots | src/workserver/work_handler.cpp:410-413 | no pool thread changes the active set or the completed ring while a snapshot is read |
| SchedulerSnapshots.ShownExactly | src/workserver/work_handler.cpp:49-111 | in every run with exceptions and other threads in between: the snapshot shown has exactly the jobs that were queued when the queue was copied, those then worked on (and those that exceptions left in the active set), and the latest 128 completed ones in order of completion |
| SchedulerSnapshots.EverySnapshotIsCopied | src/workserver/work_handler.cpp:49-111 | every snapshot of every run comes about that way, by the thread that copied the queue |
| SchedulerSnapshots.SubmittedExactly | src/workserver/work_handler.cpp:180-215 | whatever other threads do in between, a request queues a job with its own priority and root and the id that was next, if and only if there is room when the queue is locked |
| SchedulerSnapshots.CancelledExactly | src/workserver/work_handler.hpp:183-207 | whatever other threads do in between, cancelling takes the jobs of its root out of the queue, marks them removed and changes no other job |
| SchedulerSnapshots.ClearedExactly | src/workserver/work_handler.cpp:113-132 | clearing empties the queue and marks exactly what was in it as removed |
| SchedulerProgress.LockOrder | src/workserver/work_handler.cpp:51-53 | a thread waits only for a mutex later in the order than any it holds |
| SchedulerProgress.NoDeadlock | src/workserver/work_handler.cpp:224-244 | while a thread is busy or a pool task waits, some thread can take a step without a new request or an exception, whatever happened before |
| SchedulerProgress.StepShrinksBacklog | src/workserver/work_handler.cpp:223-413 | every step that is no new request works the backlog off |
| SchedulerProgress.BacklogBoundsRuns | src/workserver/work_handler.cpp:223-413 | so a handler left alone stops within the backlog |
| SchedulerProgress.RestIsSettled | src/workserver/work_handler.cpp:405-425 | at rest: nothing queued, every accepted job completed, removed or lost to an exception, only lost jobs active, exactly the leaked devices busy, every request answered |
| SchedulerExceptions.ThrowExactly | src/workserver/work_handler.cpp:233-420 | an exception can strike from the acquisition of the device to the second of the last two locks, and then answers the request once more, loses the job, and leaves the device busy and the active set as it is |
| SchedulerExceptions.AnsweredTwiceExactly | src/workserver/work_handler.cpp:404-420 | in every run a request is answered at most twice, and twice if and only if its pool task threw after the reply |
| SchedulerExceptions.AnsweredOnceExactly | src/workserver/work_handler.cpp:404-420 | every request is answered at most once if and only if nothing throws after a reply |
| SchedulerReplies.RepliesExactly | src/workserver/work_handler.cpp:404-420 | for any number of devices, request threads and places: every request is answered at most once in all runs with up to k exceptions if and only if k is zero, or one of the three is |
| SchedulerExceptions.LeftAloneEverythingIsAnswered | src/workserver/work_handler.cpp:134-425 | whatever happened before and whatever throws: without new requests the handler stops within its backlog, and then every request is answered (twice exactly for throws after the reply), every job no exception struck is completed or removed, and a device is busy if and only if an exception took it |
| SchedulerLeak.LeakExactly | src/workserver/work_handler.cpp:233-425 | after any run with any exceptions: "No available devices" can be thrown without a further exception if and only if an exception took a device from its thread |
| SchedulerLeak.StateRunsOffExactly | src/workserver/work_handler.cpp:221-235 | the same for any state satisfying the invariant: if and only if a device is busy that no thread has |
| SchedulerLeak.ThrowsExactly | src/workserver/work_handler.cpp:233-425 | for any number of devices, request threads and places: no scan runs off in all runs with up to k exceptions if and only if k is zero, or one of the three is and no job is ever worked on |
| SchedulerFifo.RunTracks | src/workserver/work_handler.cpp:208-231 | what is queued after a run of the handler is what the run of its pushes, pops, removals and clearings leaves |
| SchedulerFifo.FifoExactly | src/workserver/work_handler.hpp:41-44 | in every run of the handler jobs of equal priority leave in the order in which they were queued, if and only if there is no device, at most one request thread, or room for one job; with and without exceptions |
| Utf8.IsValidUTF8 | deps/googletest/googletest/src/gtest-printers.cc:380-415 | the loop accepts exactly the concatenations of encodings of Unicode scalar values (section 4 of RFC 3629) |
| Utf8.AcceptedExactly | deps/googletest/googletest/src/gtest-printers.cc:380-415 | the same for its specification, both directions |
| Utf8.EncodingUnique | deps/googletest/googletest/src/gtest-printers.cc:380-415 | an encoding decodes in one way only |
| Utf8.EmitCorrectExactly | deps/cpptoml/include/cpptoml.h:2637-2725 | the escape encoder is right for a scalar value if and only if its bit 11 is not lost |
| Utf8.EmitAcceptedExactly | deps/cpptoml/include/cpptoml.h:2637-2725 | what it emits is valid UTF-8 if and only if the value is outside U+0800 to U+0FFF |
| Utf8.EmittableExactly | deps/cpptoml/include/cpptoml.h:2637-2725 | which valid strings escapes can produce |
| Utf8.EmitsOtherScalar | deps/cpptoml/include/cpptoml.h:2637-2725 | the other mangled values become another character |
| Utf8.MangledWitness | deps/cpptoml/include/cpptoml.h:2637-2725 | U+0800 as a concrete case |
| TomlText.EscapeString | deps/cpptoml/include/cpptoml.h:3587-3633 | the appending loop escapes every character once, in order |
| TomlText.StringLiteral | deps/cpptoml/include/cpptoml.h:2564-2588 | the literal loop reads what the recursive reader reads, with the same failures; what that is, for any text, is `TomlGrammar.VerbatimRead` and `TomlGrammar.PiecesRead` |
| TomlText.CleanRoundTrip | deps/cpptoml/include/cpptoml.h:2564-2635 | reading an escaped string gives the string back, whatever follows the closing quote |
| TomlText.ControlLost | deps/cpptoml/include/cpptoml.h:3587-3633 | a string with any other control character never comes back: what is read, if anything, is lighter by length plus control characters |
| TomlText.RereadBefore | deps/cpptoml/include/cpptoml.h:2564-2588 | what any string is read back as does not depend on what follows the closing quote |
| TomlText.RoundTripExactly | deps/cpptoml/include/cpptoml.h:3587-3633 | a string survives if and only if its control characters are among \b \t \n \f \r |
| TomlTree.ExecConcat | deps/cpptoml/include/cpptoml.h:1931-1958 | carrying out lines one after the other composes |
| TomlParser.ReadThenExec | deps/cpptoml/include/cpptoml.h:1931-1958 | parsing line by line is reading all lines, then carrying them out |
| TomlParser.FirstLineConcat | deps/cpptoml/include/cpptoml.h:1870-1905 | text that ends in a newline keeps its lines whatever is appended |
| TomlParser.ReadConcat | deps/cpptoml/include/cpptoml.h:1931-1958 | a complete text and what follows it can be read apart, and are readable together if and only if both are |
| TomlParser.Parser.Run | deps/cpptoml/include/cpptoml.h:1931-1958 | the parser object, updating its tree line by line, comes to the outcome of the whole text; what its lines say is `TomlGrammar.LineExactly` |
| TomlGrammar.LineExactly | deps/cpptoml/include/cpptoml.h:1931-1958 | for every line: it is read as blank, as a header or as an assignment if and only if it says so by a grammar of blanks, comments, dotted keys, quoted and bare parts and values that does not mention the parser |
| TomlGrammar.LineEndExactly | deps/cpptoml/include/cpptoml.h:1870-1905 | lines end at a newline, at a carriage return with one, and at the end of the input; a lone carriage return belongs to the line |
| TomlGrammar.VerbatimRead | deps/cpptoml/include/cpptoml.h:2564-2588 | a string between single quotes is read verbatim, backslashes included, whatever follows |
| TomlGrammar.VerbatimShape | deps/cpptoml/include/cpptoml.h:2564-2588 | and nothing else is read between single quotes |
| TomlGrammar.PiecesRead | deps/cpptoml/include/cpptoml.h:2590-2716 | a string between double quotes is read piece by piece: plain characters, the seven letter escapes, and \u or \U with 4 or 8 hexadecimal digits for the code point, refused unless it is a Unicode scalar value |
| TomlGrammar.PiecesShape | deps/cpptoml/include/cpptoml.h:2590-2716 | every string that is read between double quotes is made of such pieces |
| TomlGrammar.KeyRead | deps/cpptoml/include/cpptoml.h:2226-2318 | dotted keys of bare and quoted parts, with blanks around them, are read part by part |
| TomlGrammar.NumberMagnitude | deps/cpptoml/include/cpptoml.h:2727-2880 | digits with single underscores between them, after an optional sign, are read as their decimal value if it fits 64 bits, and refused otherwise |
| TomlGrammar.NatTextOnly | deps/cpptoml/include/cpptoml.h:2857-2880 | the decimal value of digits is the number they are the decimal text of |
| TomlGrammar.ValueRead | deps/cpptoml/include/cpptoml.h:2320-2345 | a value is read up to the blanks and the comment after it |
| TomlMerge.AssignKinds | deps/cpptoml/include/cpptoml.h:2176-2224 | what an assignment without replacement does to every path of the tree |
| TomlMerge.ReplaceKinds | deps/cpptoml/include/cpptoml.h:2176-2224 | what a replacing assignment does to every path of the tree |
| TomlMerge.OpenKinds | deps/cpptoml/include/cpptoml.h:1984-2073 | what a table header does to every path of the tree |
| TomlMerge.MergeExactly | deps/cpptoml/include/cpptoml.h:3308-3324 | for overrides that end in any table: merging under `ignore` gives the override's value where there is one and elsewhere what the file says when read into that table, losing none, if and only if no path is a table in one and a value in the other |
| TomlMerge.MergeFileExactly | deps/cpptoml/include/cpptoml.h:3308-3324 | it gives the override's value where there is one and the file's elsewhere if and only if, besides, each key before the file's first header is held at the root by the overrides, or put there by another of these keys with its value, and where it goes the overrides have something or the file has its value; so always when the overrides end at the root or there are no such keys |
| TomlMerge.ReadConfigExactly | src/workserver/config.hpp:240-262 | the same from the texts the server reads, for all overrides and files; what either is refused for, the configuration is refused for |
| TomlMerge.AcceptedExactly | deps/cpptoml/include/cpptoml.h:3308-3324 | for overrides that end in any table: merging is accepted if and only if no path is a value in the overrides and a table in the file read into that table; then the overrides are all kept and the file adds what it has elsewhere |
| TomlMerge.ClashExactly | src/workserver/config.hpp:240-262 | the same from the texts, for overrides that end at the root: which clashes are refused, and which silently lose the file's value |
| TomlMerge.UnvalidatedExactly | deps/cpptoml/include/cpptoml.h:3308-3324 | the overrides of an accepted configuration would be refused on their own if and only if one of their lines sets a key or opens a closed table again |
| TomlMerge.OverridesInOrder | src/workserver/config.hpp:244-249 | for every list of overrides the text parsed is each of them with a line end, in the order given, and an empty line |
| TomlMerge.OverridesRead | src/workserver/config.hpp:244-249 | for every list: they are readable if and only if each is, and then the lines are those of the first, of the second and so on |
| TomlOverrides.SetTwiceAccepted | src/workserver/config.hpp:240-262 | any key set twice by the overrides is accepted, the first value winning, though a strict reading refuses the same text |
| TomlWriter.KeysSorted | deps/cpptoml/include/cpptoml.h:3476-3541 | tables are written in strictly increasing key order, each key once |
| TomlWriter.Print | deps/cpptoml/include/cpptoml.h:3476-3541 | the writer object, with its stream flag and path stack, prints the specified text and restores its path |
| TomlWriter.Writer.VisitTable | deps/cpptoml/include/cpptoml.h:3476-3541 | the same for one table at any path |
| TomlLayout.EverythingShown | deps/cpptoml/include/cpptoml.h:3507-3538 | for every tree, each value stands in the text after its documentation as a comment, behind one tab for every table it is in but the root, and so does the header of each table that gets one |
| TomlLayout.CommentExactly | deps/cpptoml/include/cpptoml.h:3515-3522 | documentation is written line by line, each with a number sign |
| TomlLayout.KeyExactly | deps/cpptoml/include/cpptoml.h:3741-3763 | a key stands without quotes if and only if it is made of letters, digits, underscores and hyphens |
| TomlLayout.ControlExactly | deps/cpptoml/include/cpptoml.h:3620-3626 | the other control characters are escaped with one or two lower-case digits of their code, not four |
| TomlReading.HeaderRead | deps/cpptoml/include/cpptoml.h:3692-3739 | what a written table header is read as, for every path, empty and unclean parts included |
| TomlReading.AssignRead | deps/cpptoml/include/cpptoml.h:3741-3763 | what a written key and value are read as, for every key and value |
| TomlReading.NumberRead | deps/cpptoml/include/cpptoml.h:2727-2880 | an integer is read back from its decimal text if and only if it fits 64 bits |
| TomlReading.PathRead | deps/cpptoml/include/cpptoml.h:2230-2258 | a dotted path is read part by part, and refused if and only if a part is |
| TomlLines.CommentReads | deps/cpptoml/include/cpptoml.h:3741-3763 | attached documentation, line breaks included, never adds a line that means anything |
| TomlRebuild.ExecTable | deps/cpptoml/include/cpptoml.h:1984-2073 | the lines of a table, carried out where nothing was before, build the kept part of that table there |
| TomlRoundTrip.TableAdded | deps/cpptoml/include/cpptoml.h:3476-3541 | the text of a table, at any path and after any text, says its header, its values and its tables as they are read back |
| TomlRoundTrip.WrittenSays | deps/cpptoml/include/cpptoml.h:3476-3541 | for every tree, whatever its keys and strings, the written text says the tree's lines as they are read back, and is unreadable if and only if one of them is |
| TomlRoundTrip.RoundTrip | deps/cpptoml/include/cpptoml.h:3476-3541 | parsing the writer's output gives the tree back, apart from tables without any value when those are skipped, for every documentation |
| TomlExact.RoundTripExactly | deps/cpptoml/include/cpptoml.h:3476-3541 | for every tree: parsing the written text gives the same tree if and only if keys are non-empty, keys and strings have no control characters but \b \t \n \f \r, integers fit, and empty tables are written or there are none |
| TomlExact.Origin | deps/cpptoml/include/cpptoml.h:3476-3541 | whatever parsing a written tree gives, each part of it is a part of the tree as it is read back |
| TomlExact.OntoItselfIsClean | deps/cpptoml/include/cpptoml.h:3587-3633 | reading back cannot permute a finite set of paths unless it changes none of them |
| TomlRoundTrip.SecondTrip | deps/cpptoml/include/cpptoml.h:3476-3541 | a second trip through text changes nothing any more |
| TomlRebuild.KeptExactly | deps/cpptoml/include/cpptoml.h:3476-3492 | skipping drops nothing if and only if there is no empty table |
| SimpleRegex.ValidateRegex | deps/googletest/googletest/src/gtest-port.cc:827-879 | the loop accepts exactly the expressions of the grammar, and refuses null |
| SimpleRegex.RegexExactly | deps/googletest/googletest/src/gtest-port.cc:827-879 | accepted expressions are exactly the renderings of well-formed syntax trees |
| SimpleRegex.PrefixSplits | deps/googletest/googletest/src/gtest-port.cc:887-909 | backtracking over the repetition count decides prefix membership |
| SimpleRegex.MatchRepetitionAndRegexAtHead | deps/googletest/googletest/src/gtest-port.cc:887-909 | succeeds exactly when a prefix is in the language of the repeated atom and the rest |
| SimpleRegex.MatchRegexAtHead | deps/googletest/googletest/src/gtest-port.cc:914-940 | succeeds exactly when a prefix (after '$': the whole string) is in the language; the mutual recursion terminates |
| SimpleRegex.MatchRegexAnywhere | deps/googletest/googletest/src/gtest-port.cc:950-962 | succeeds exactly when the expression occurs somewhere, respecting both anchors |
| SimpleRegex.FullMatchMeans | deps/googletest/googletest/src/gtest-port.cc:983-1014 | what the anchored pattern decides |
| SimpleRegex.FullMatchExactly | deps/googletest/googletest/src/gtest-port.cc:983-1014 | a full match decides membership of every string if and only if the pattern does not end in an escaped '$' |
| SimpleRegex.RE.constructor | deps/googletest/googletest/src/gtest-port.cc:983-1014 | valid if and only if the expression is; the anchored pattern is filled in |
| SimpleRegex.RE.FullMatch | deps/googletest/googletest/src/gtest-port.cc:972-974 | whole-string membership, prefix membership after an escaped '$' at the end |
| SimpleRegex.RE.PartialMatch | deps/googletest/googletest/src/gtest-port.cc:978-980 | occurrence of the expression in the string |
| SimpleRegexLanguage.AtomTextExactly | deps/googletest/googletest/src/gtest-port.cc:776-799 | which one or two characters are an atom, by code points |
| SimpleRegexLanguage.CoversExactly | deps/googletest/googletest/src/gtest-port.cc:803-817 | which characters an atom matches, by code points: the dot all but newline, the classes and their complements, the letter escapes one each, anything else itself |
| SimpleRegexLanguage.ShapeExactly | deps/googletest/googletest/src/gtest-port.cc:827-879 | an expression is empty, an end anchor, or an atom with a quantifier or none and an expression |
| SimpleRegexLanguage.FirstAtomLaws | deps/googletest/googletest/src/gtest-port.cc:887-940 | on the texts of expressions: what a first atom without a quantifier, or with ?, * or +, adds to the language of the rest, one character at a time |
| SimpleRegexLanguage.AtomLanguage | deps/googletest/googletest/src/gtest-port.cc:803-817 | an atom alone denotes exactly the one-character strings it covers |
| SimpleRegexLanguage.OccursExactly | deps/googletest/googletest/src/gtest-port.cc:950-962 | an expression occurs in a string if and only if a substring is in its language, at the start after ^ and up to the end before $ |
| Expectations.Expectation.AllPrerequisitesAreSatisfied | deps/googletest/googlemock/src/gmock-spec-builders.cc:132-152 | on every acyclic graph the worklist ends, without a visited set, and answers true if and only if everything behind the expectation is satisfied |
| Expectations.Expectation.FindUnsatisfiedPrerequisites | deps/googletest/googlemock/src/gmock-spec-builders.cc:155-182 | adds exactly the unsatisfied prerequisites reachable through satisfied ones that were never called |
| Expectations.Expectation.RetireAllPreRequisites | deps/googletest/googlemock/src/gmock-spec-builders.cc:108-130 | retires exactly what lies behind, and keeps "behind a retired one all are retired", early return included |
| Expectations.Expectation.GetActionForArguments | deps/googletest/googlemock/include/gmock/gmock-spec-builders.h:1197-1223 | a call is counted; it is excessive if and only if the count had reached the maximum; unless excessive it retires what lies behind, and the expectation itself if and only if it retires on saturation and has now reached its maximum; `Sound` is kept |
| Expectations.FunctionMocker.FindMatchingExpectationLocked | deps/googletest/googlemock/include/gmock/gmock-spec-builders.h:1726-1742 | the latest expectation that is not retired, matches, and has everything behind it satisfied |
| Expectations.FunctionMocker.FindAndCall | deps/googletest/googlemock/include/gmock/gmock-spec-builders.h:1692-1714 | a call goes to the latest expectation that handles it; it alone is counted; unless excessive, exactly what lies behind it is retired, and it if and only if it retires on saturation and has reached its maximum; `Sound` is kept, and so is that every such expectation at its maximum is retired |
| Expectations.SpentTakesNoCall | deps/googletest/googlemock/include/gmock/gmock-spec-builders.h:1216-1218 | an expectation that retires on saturation and has reached its maximum is never chosen for a further call |
| Expectations.StartsSound | deps/googletest/googlemock/include/gmock/gmock-spec-builders.h:854-880 | the invariant holds before the first call |
| Expectations.CallKeepsSound | deps/googletest/googlemock/include/gmock/gmock-spec-builders.h:1197-1223 | retired ones stay satisfied and have only retired ones behind them, and so do those called within their limit |
| Expectations.BlamesSomeone | deps/googletest/googlemock/src/gmock-spec-builders.cc:167-172 | after any calls, the explanation names some prerequisite if and only if one is unsatisfied: stopping at called expectations is justified |
| Expectations.CalledInOrder | deps/googletest/googlemock/include/gmock/gmock-spec-builders.h:1101-1111 | once an expectation was called within its limit, everything behind it is satisfied and retired for good |
| PrerequisiteGraph.BlameExactly | deps/googletest/googlemock/src/gmock-spec-builders.cc:155-182 | someone is blamed if and only if something behind is unsatisfied |
| PrerequisiteGraph.BlameCovers | deps/googletest/googlemock/src/gmock-spec-builders.cc:155-182 | every unsatisfied prerequisite is blamed or lies behind one that is |
| PrerequisiteGraph.PopsShrink | deps/googletest/googlemock/src/gmock-spec-builders.cc:136-150 | why the worklist ends: the number of paths from it shrinks with every pop |
| PrerequisiteGraph.BehindLeast | deps/googletest/googlemock/src/gmock-spec-builders.cc:132-152 | what lies behind a node is the least closed set |
| PrerequisiteGraph.AddKeepsAcyclicExactly | deps/googletest/googlemock/src/gmock-spec-builders.cc:857-865 | adding the last expectation as a prerequisite keeps the graph acyclic if and only if the new one was not already before it |
| PrerequisiteGraph.FreshBehindNone | deps/googletest/googlemock/src/gmock-spec-builders.cc:857-865 | which always holds for an expectation nobody waits for yet |
| Expectations.Sequence.AddExpectation | deps/googletest/googlemock/src/gmock-spec-builders.cc:857-865 | links the expectation behind the last one, if that is another, keeps the graph acyclic, and keeps `Sound` if and only if it comes in time, as for one that was neither called nor retired |
| Expectations.LinkedSoundExactly | deps/googletest/googlemock/src/gmock-spec-builders.cc:857-865 | a new link keeps the invariant if and only if the last one is retired, or the new one was neither retired nor called within its limit |
| Blake2b.Mix | lib/m3-nano-pow/Sources/NanoPoW/Blake2b.swift:34-43 | the in-place mixing is the function of section 3.1 of RFC 7693 on four distinct words |
| Blake2b.Load64 | lib/m3-nano-pow/Sources/NanoPoW/Blake2b.swift:45-51 | little-endian load of eight bytes |
| Blake2bSpec.LoadToBytes | lib/m3-nano-pow/Sources/NanoPoW/Blake2b.swift:45-51 | loading undoes the little-endian output of words |
| Blake2b.CompressBlock | lib/m3-nano-pow/Sources/NanoPoW/Blake2b.swift:53-84 | the in-place compression is the function F of section 3.2, whose counter is 128 bits wide |
| Blake2b.HashData | lib/m3-nano-pow/Sources/NanoPoW/Blake2b.swift:86-113 | the slicing loop computes BLAKE2b (section 3.3) for every message that is empty or no multiple of 128 long, with the output length clamped to 1..64 |
| Blake2b.SameState | lib/m3-nano-pow/Sources/NanoPoW/Blake2b.swift:94-104 | for such a message it chains the blocks of the definition, whatever the compression function |
| Blake2b.SameStateExactly | lib/m3-nano-pow/Sources/NanoPoW/Blake2b.swift:94-104 | it does so for all compression functions if and only if the message is empty or no multiple of 128 long |
| Blake2bVectors.AbcDigest | lib/m3-nano-pow/Sources/NanoPoW/Blake2b.swift:53-113 | the digest of "abc" is the one published in Appendix A of RFC 7693 |
| Blake2bVectors.CountingDigest | lib/m3-nano-pow/Sources/NanoPoW/Blake2b.swift:53-113 | the digest of the bytes 0 to 254, two blocks whose words all differ |
| Blake2bVectors.InitializationVector | lib/m3-nano-pow/Sources/NanoPoW/Blake2b.swift:9-14 | the constants are the first 64 fractional bits of the square roots of the first eight primes |
| Blake2bVectors.LengthInParameters | lib/m3-nano-pow/Sources/NanoPoW/Blake2b.swift:87-89 | two output lengths start from states that differ by the difference of the lengths in the first word |
| Blake2bVectors.CounterInVector | lib/m3-nano-pow/Sources/NanoPoW/Blake2b.swift:62-67 | the work vector holds the state, the counter and whether the block is the last |
| HexCodec.NumberOfBytes | src/workserver/util.hpp:27-38 | a number in range is recovered from its bytes |
| HexCodec.BytesOfNumber | src/workserver/util.hpp:27-38 | bytes are recovered from their number |
| HexCodec.DigitsExactly | src/workserver/util.hpp:48-75 | what each digit is worth, and that capital letters are printed |
| HexCodec.BigInt.Set | src/workserver/util.hpp:27-31 | the export loop leaves the big-endian bytes of the number |
| HexCodec.BigInt.Number | src/workserver/util.hpp:33-38 | the import loop reads them back |
| HexCodec.BigInt.ToHex | src/workserver/util.hpp:48-54 | exactly two digits per byte, each among 0 to 9 and A to F, of the number's value |
| HexCodec.BigInt.FromHex | src/workserver/util.hpp:56-75 | accepts 1 to 2N characters that the library's extraction reads to the end, so every text of 1 to 2N hexadecimal digits, with its value; a wrong size changes nothing, a wrong format is noticed only after the bytes were set |
| HexCodec.PrintThenRead | src/workserver/util.hpp:48-75 | what one number prints, another of the same width reads back, byte for byte, whatever else the extraction accepts |
| HexCodec.ReadThenPrint | src/workserver/util.hpp:48-75 | reading 1 to 2N digits and printing gives them back padded and in upper case, for every width N |
| ProofOfWork.ByteSwapReverses | src/workserver/work_handler.cpp:303-311 | the masks and shifts reverse the eight bytes, and undo themselves |
| ProofOfWork.AchievedExactly | src/workserver/work_handler.cpp:283-287 | the reported difficulty reaches the requested one if and only if the reversed hash is at most the threshold |
| ProofOfWork.AcceptedReaches | src/workserver/work_handler.cpp:313-318 | accepted work always does; only the threshold itself is refused needlessly; difficulty zero accepts nothing |
| ProofOfWork.ReportedDifficulty | src/workserver/work_handler.cpp:357-359 | the reported difficulty is how often the reversed hash goes into 2^64 - 1, and 2^64 - 1 for hash zero |
| ProofOfWork.AcceptedExactly | src/workserver/work_handler.cpp:283-286 | a hash is accepted if and only if the requested difficulty times one more than it is at most 2^64 - 1 |
| ProofOfWork.WorkAtExactly | src/workserver/work_handler.cpp:319-327 | the values tried count up from the start, and from the last restart value, one for every hundred million attempts |
| ProofOfWork.Search | src/workserver/work_handler.cpp:293-366 | the first work value of the sequence whose reversed hash is small enough for the low 64 bits of the request is found within ten billion attempts, and how often its reversed hash goes into 2^64 - 1 is reported, which is at least those bits; exhausted otherwise |
| ProofOfWork.WorkText | src/workserver/work_handler.cpp:393-398 | sixteen digits, last byte first |
| ProofOfWork.BackwardsHexValue | src/workserver/work_handler.cpp:393-398 | little-endian bytes printed last byte first have the value of the number |
| ProofOfWork.ReportWork | src/workserver/work_handler.cpp:393-398 | the work text read by `from_hex` is the work value found |
| HttpPipeline.KeepsInvariant | src/workserver/webserver.hpp:612-699 | every completion keeps: at most 8 queued, one write outstanding exactly when any is queued, one read exactly when there is room, started responses a prefix of the replies |
| HttpPipeline.RunsKeepOrder | src/workserver/webserver.hpp:446-507 | in every run responses leave in request order (section 6.3.2 of RFC 7230), and at most 8 are queued |
| HttpPipeline.ClosedExactly | src/workserver/webserver.hpp:676-699 | in every run the connection is closed by the first write that asks for it and by nothing else |
| HttpPipeline.AlwaysSomethingOutstanding | src/workserver/webserver.hpp:612-699 | a live connection always has an operation outstanding |
| HttpPipeline.HttpSession.OnRead | src/workserver/webserver.hpp:612-674 | the read handler takes the specified step and keeps the invariant |
| HttpPipeline.HttpSession.OnWrite | src/workserver/webserver.hpp:676-699 | so does the write handler, which may close |
| WebSocket.SendRuns | src/workserver/webserver.hpp:228-259 | in every run: messages are written in the order posted, none is lost; the queue is stalled if and only if some write completed with an error while others were queued; otherwise one write is outstanding exactly when messages are queued |
| WebSocket.FailuresExactly | src/workserver/webserver.hpp:228-259 | the queue never stalls in all runs with up to k failed writes if and only if k is zero |
| WebSocket.StallWitness | src/workserver/webserver.hpp:228-259 | two messages posted and one failed write as a concrete case |
| WebSocket.StalledForGood | src/workserver/webserver.hpp:242-259 | from a stalled queue on, in every run, no write completes or is started and all that is posted is left in the queue |
| WebSocket.SendQueue.WriteResponse | src/workserver/webserver.hpp:228-240 | posting takes the specified step |
| WebSocket.SendQueue.OnWritten | src/workserver/webserver.hpp:242-259 | so does the completion of a write, with or without an error |
| WebSocket.ClosesOnlyTheSilent | src/workserver/webserver.hpp:289-342 | in every run from the handshake on in which the connection is closed, the last activity was at least 15 seconds before, and at least 30 if the handshake was completed |
| WebSocket.SilentIsClosed | src/workserver/webserver.hpp:289-332 | in a run without activity, whatever pings and early timer events it has, an open connection is closed if and only if the timer goes off at or after the deadline and again 15 seconds later or more |
| WebSocket.SilentSinceActivity | src/workserver/webserver.hpp:289-342 | after its last activity an open connection is closed if and only if the timer goes off 15 seconds later or more, and again 15 seconds after that or more |
| WebSocket.PingedIsClosed | src/workserver/webserver.hpp:289-332 | once pinged, if and only if the timer goes off at or after the deadline |
| WebSocket.KeepAliveTimer.OnTimer | src/workserver/webserver.hpp:289-332 | the timer handler takes the specified step and keeps the deadline invariant |
| PrimeNumbers.SquareRootSuffices | deps/googletest/googletest/samples/prime_tables.h:55-64 | dividing up to the square root decides primality |
| PrimeNumbers.PrimeBeyond | deps/googletest/googletest/samples/prime_tables.h:66-72 | Euclid: there is a prime beyond any number, so the search for the next one ends |
| PrimeTables.OnTheFlyPrimeTable.IsPrime | deps/googletest/googletest/samples/prime_tables.h:55-64 | trial division decides primality for every integer |
| PrimeTables.OnTheFlyPrimeTable.GetNextPrime | deps/googletest/googletest/samples/prime_tables.h:66-72 | the least prime beyond p, or -1 for negative p; terminates |
| PrimeTables.PreCalculatedPrimeTable.CalculatePrimesUpTo | deps/googletest/googletest/samples/prime_tables.h:98-117 | the in-place sieve, stepping over even candidates and starting at squares, marks exactly the primes |
| PrimeTables.CompositeAddsNothing | deps/googletest/googletest/samples/prime_tables.h:104-107 | skipping a crossed-out candidate loses nothing |
| PrimeTables.SurvivorsArePrime | deps/googletest/googletest/samples/prime_tables.h:98-117 | what survives the divisors up to the root is prime, and conversely |
| PrimeTables.PreCalculatedPrimeTable.IsPrime | deps/googletest/googletest/samples/prime_tables.h:83-85 | primality within the table, false outside |
| PrimeTables.PreCalculatedPrimeTable.GetNextPrime | deps/googletest/googletest/samples/prime_tables.h:87-93 | the least prime beyond p within the table, -1 if and only if there is none |
| PrimeTables.HybridPrimeTable.IsPrime | deps/googletest/googletest/samples/sample8_unittest.cc:63-68 | equals primality for every configuration |
| PrimeTables.HybridPrimeTable.GetNextPrime | deps/googletest/googletest/samples/sample8_unittest.cc:70-76 | the least prime beyond p for p >= 0, in every configuration |
| PrimeTables.HybridIndependentExactly | deps/googletest/googletest/samples/sample8_unittest.cc:70-76 | the answer is independent of the configuration if and only if p >= 0 |
| PrimeTables.IsPrimeByOddDivision | deps/googletest/googletest/samples/sample1.cc:45-66 | odd trial division with the overflow-free root test decides primality |
| StringLiteral.PrintCharsAsString | deps/googletest/googletest/src/gtest-printers.cc:267-289 | the printing loop, breaking the literal after a hex escape; the format reports a hex escape if and only if there is one |
| StringLiteral.EscapedExactly | deps/googletest/googletest/src/gtest-printers.cc:129-208 | for every byte: printable characters but quote and backslash stand for themselves, ten bytes have letter escapes, the rest one or two capital hexadecimal digits |
| StringLiteral.PrintedExactly | deps/googletest/googletest/src/gtest-printers.cc:267-289 | the text is that of every byte in order between quotes, broken if and only if a hexadecimal digit follows a hexadecimal escape |
| StringLiteral.ReadOne | deps/googletest/googletest/src/gtest-printers.cc:275-280 | every character but NUL is read back whatever follows, thanks to that break |
| StringLiteral.PrintThenRead | deps/googletest/googletest/src/gtest-printers.cc:267-289 | what the printed text reads as, for every array |
| StringLiteral.RoundTripExactly | deps/googletest/googletest/src/gtest-printers.cc:267-289 | the original comes back if and only if no NUL is followed by an octal digit, and is shorter otherwise |

## Left out

- `MatchMatrix::NextGraph`, match explanations and descriptions: no further property hangs on them.
- Matching: vectors of flags are sequences in the matrix and arrays in the search state.
- JobQueue: `std::priority_queue` is known by its interface only, not as a heap; job ids are unbounded, so the wrap of the 32-bit id counter is not modelled.
- Scheduler: shutdown and `std::exit`, the mock-work branch, the `work_validate` stub, the JSON texts, and which job a reply belongs to (a pool task pops the top job, not the job of the request that posted it) are not modelled; the search itself is `ProofOfWork.Search`. A mutex is held by the thread whose program point lies between its lock and its unlock.
- Scheduler: an exception inside a pool task is one step (`Throw`), possible from the moment the device is acquired to the second of the last two locks; exceptions before (in the first lock or the pop) and exceptions thrown by the response handler itself are not modelled. After an exception past work_handler.cpp:243 the entry left in `active_jobs` refers to a job that is gone; the model keeps the job's value there.
- Toml: multi-line strings, floats, other number bases, dates and times, arrays, inline tables and table arrays are read as `Unmodelled` (`NotModelled`), never as an error; tables are values, so sharing of table pointers is not captured; the parser's iterators are the rest of the line; the writer's stream and its line-end flag are one field.
- Toml: the digits of `std::stoll` are read as a decimal number in the 64-bit range; characters are bytes, a Dafny char standing for each.
- TomlRoundTrip.RoundTrip: keys are non-empty and, like strings, free of control characters other than \b \t \n \f \r; `TomlExact.RoundTripExactly` shows that no other tree comes back.
- SimpleRegex: the POSIX back end, error messages and their positions; strings are those size_t can index, as the code demands.
- Expectations: cardinalities are the built-in bounds `Between(min, max)`, not user-defined ones; actions, argument matchers (a set of matching expectations stands for them), locking and the text of explanations are left out; the prerequisite set is a sequence without duplicates, and no result depends on its order.
- Blake2b: the message is shorter than 2^64 bytes, so the trapping 64-bit counter does not overflow; that the real compression function also gives a different digest for multiples of 128 is not proved, only that the block chain differs.
- HexCodec: the stream extraction of the big-integer library is a parameter, known only to read hexadecimal digits in full and to stay in range; which signs, prefixes such as 0x, and other texts it accepts is left open.
- ProofOfWork: `to_multiplier` and `from_multiplier` (floating point), logging, and the hash itself, which is a parameter; random restarts are a parameter.
- WebSocket.SendRuns: the write is handed a local copy of the message that goes out of scope when `write_queued_messages` returns (webserver.hpp:242-247), while the write may be outstanding; the model takes what is written to be the message at the front of the queue, and covers the bookkeeping of the queue only.
- WebServer: sockets, upgrades, asynchronous replies, read errors, routing and file serving; times are whole seconds.
- Primes: integers are unbounded, so the overflow of `i*i` near the 32-bit limit is not modelled; a table asked for p < -1 would be read before its start, which the precondition excludes.
- StringLiteral: wide characters, trigraphs and the message about a missing terminating NUL.
- The web UI, installer, logging library, death-test process code, file paths, cardinality descriptions and the sample queue: easy members only.
