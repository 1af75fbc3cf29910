# Sedes: verified models of its protocols and codecs

Sedes is a local-first workspace for coding agents. This project models, in Dafny 4.11, the parts of it whose
correctness depends on a whole run or on two pieces of code agreeing, and proves what those parts are for:

- the server-sent event decoder and its reconnection (`EventStream`, `EventReplay`, `EventWire`, `FetchEventSource`);
- the byte stream over a WebSocket (`ByteCarrier`, `CarrierHistory`, `WebSocketByteStream`);
- canonical JSON and structural equality, over values and over object graphs (`JsonText`, `CanonicalJson`, `KeyOrder`,
  `JsonReader`, `ObjectGraph`, `GraphFaults`);
- thread references embedded in messages (`CodeFences`, `FenceText`, `ThreadReferences`, `ReferenceSplit`,
  `FencedBlocks`, `ReferenceMessages`, `ReferenceWire`);
- the option tree and the requirement analysis of the dynamic command line (`OptionTree`, `OptionRequirement`);
- the MCP request table (`McpServer`, `McpHistory`), starting backends behind the configuration queue
  (`BackendStartup`, `BackendLife`, `BackendEffects`, `BackendDelay`, `BackendProgress`, `ConfigurationQueue`), and
  acquiring a thread runtime against a deadline (`RuntimeLease`, `LeaseOutcome`);
- page-height feedback (`PageSizing`), schema reviews (`SchemaDelta`), download names and headers
  (`DownloadNames`, `NameText`, `ContentDisposition`).

Concurrent code is a system of steps over values, in which timers, sockets, providers and clients may act in any
order; a theorem about `Run` holds for every interleaving. Where the program mutates an object there is also a class
with the same fields and a method for every step, and an object driven through any series of steps is proved to be
where `Run` says (`Serve`, `Load`).

A second layer fixes what the steps mean in the outside world, so that two pieces of code that agree on the wrong
thing do not pass: statements over code units, limits and status codes written out, or over the history of a run, which
do not name the functions that compute them (`EventWire`, `CarrierHistory`, `JsonReader`, `KeyOrder`, `GraphFaults`,
`FenceText`, `FencedBlocks`, `ReferenceWire`, `McpHistory`, `BackendLife`, `LeaseOutcome`, `NameText`).

Verify the whole project with `dafny verify dfyconfig.toml`.

## What the proofs found

- **Nested thread references.** `JSON.stringify` leaves U+2028 and U+2029 unescaped, and the multiline patterns of
  `codeFenceRanges` treat both as line ends. A title that holds U+2028 followed by three backticks therefore opens a
  code fence inside the outer block, and the inner block is left in the body. `NestedRoundTrip` gives the result in
  both cases; `FenceTitleLeavesOpen` is the example; `OrdinaryTitlesAreSafe` says that titles without the two
  separators never do this.
- **Stop during a publication.** Lifecycle commands are admitted into the repository without waiting for the queue
  (src/server/configuration-admin/configuration-repository.ts:178-199). One that comes before an attempt's turn always
  wins (`CommandSupersedes`), also while the attempt is still being reserved (`CommandDuringReservation`). One that
  comes between the turn and the end of the publication does not: the attempt takes effect although the repository says
  stopped (`StopDuringPublication`). What took effect matched the saved configuration at its turn, and still does at the
  end exactly if no command came in between (`PublicationIsCurrent`).
- **Requirement analysis.** Along a path that crosses a union of unions the function alone can call a needed part
  optional (`NestedUnionIsNotOffered`). A path is reported required exactly when every conforming value has it and no
  union of unions is on the way (`RequiredExactly`). The paths for which options are offered never cross one
  (`OfferedPathIsClear`), so the help is exact about "required" and safe about "optional" (`OfferedRequiredExactly`,
  `OfferedOptionalIsSafe`).
- **Page height.** A page whose height jumps can make the feedback oscillate forever (`JumpyOscillates`). For every page
  the accepted height becomes constant exactly if some round comes to rest (`SettlesExactly`), and a page that answers
  small viewport changes with small ones always gets there (`LoopConverges`).
- **Lease.** If a timer could fire between two microtasks, a runtime would be released and also handed to the caller
  (`InterruptedIsReleasedTwice`); the proof of exactly-once uses that it cannot.

## Model

| member | source | states |
|---|---|---|
| EventStream.FieldOfLine | src/client/api/FetchEventSource.ts:138-142 | a line `name: value` or `name:value` is taken apart into exactly that name and value, and a line without colon is a name |
| EventStream.FeedConcat | src/client/api/FetchEventSource.ts:155-199 | decoding a text that arrives in two parts, cut anywhere but inside a code point (also between CR and LF), leaves the decoder in the state that the whole text does |
| EventStream.ChunkInvariance | src/client/api/FetchEventSource.ts:155-199 | the same for any number of pieces, empty ones included |
| EventStream.FeedGrows | src/client/api/FetchEventSource.ts:125-154 | events are only ever appended |
| EventStream.StopIsPrefix | src/client/api/FetchEventSource.ts:155-199 | stopping at any point leaves a prefix of the events of the whole text |
| EventStream.DecoderRefinesStandard | src/client/api/FetchEventSource.ts:86-222 | however the text is cut, events, last event id, reconnection time and overflow verdict are those of a batch reading that splits all lines first and follows section 9.2.6 of the WHATWG HTML Standard, with the size limit |
| EventStream.LineSimulates | src/client/api/FetchEventSource.ts:125-154 | one line takes the decoder and the standard's buffers to states that still correspond |
| EventStream.DispatchSimulates | src/client/api/FetchEventSource.ts:126-136 | a blank line dispatches the standard's event: data joined by line feeds, no event without data, the id committed only here |
| EventReplay.FeedItem | src/client/api/FetchEventSource.ts:125-199 | a whole frame of the log, a frame without an id, or a comment, with any line ending, dispatches exactly its event (with its own id, or the id before it) or nothing, or is too large; also when the LF of its last CR LF has not arrived |
| EventReplay.CutItems | src/client/api/FetchEventSource.ts:155-199 | what a server sends, cut at any position, delivers a whole number of these |
| EventReplay.ConnectionAdvances | src/client/api/FetchEventSource.ts:46-84 | one connection, with heartbeats and frames without an id among the frames of the log, moves the page from the first k frames to the first m, m at least k, and a complete one to the end of the log |
| EventReplay.PutAllLogs | src/server/events/thread-sse.ts:59-59 | frames without an id and comments add nothing to the events of the log |
| EventReplay.ResumeSkips | src/client/api/FetchEventSource.ts:49-49 | the id that the client sends identifies exactly the frames it has not seen |
| EventReplay.ResumeIsExactlyOnce | src/client/api/FetchEventSource.ts:46-154 | over any series of connections cut at arbitrary points, the events of the log that were dispatched over all connections together are a prefix of the log, with no gap and no duplicate |
| EventWire.DataLine | src/client/api/FetchEventSource.ts:138-143 | the units of `data: v`, for every one-line v and every line ending, add v to the data, if the event has room |
| EventWire.EventLine | src/client/api/FetchEventSource.ts:144-144 | the units of `event: v` set the kind and nothing else |
| EventWire.IdLine | src/client/api/FetchEventSource.ts:145-145 | the units of `id: v` set the pending id and nothing else, and nothing at all if v contains the unit 0 |
| EventWire.RetryLine | src/client/api/FetchEventSource.ts:146-150 | `retry:` with the digits of any number n, zeros in front included, sets the delay to n, but at least 250 and at most 30,000 |
| EventWire.RetryIgnored | src/client/api/FetchEventSource.ts:146-150 | any other value of `retry` changes nothing |
| EventWire.DigitsCover | src/client/api/FetchEventSource.ts:147-147 | every text of digits is such a writing of a number |
| EventWire.OtherLine | src/client/api/FetchEventSource.ts:142-151 | a field with any other name changes nothing |
| EventWire.CommentLine | src/client/api/FetchEventSource.ts:137-137 | a line that starts with a colon changes nothing |
| EventWire.BlankLine | src/client/api/FetchEventSource.ts:126-136 | an empty line commits the pending id and, if there is data, dispatches it without its last line feed, with the kind that was set, or `message` |
| EventWire.IdFrameIsRead | src/client/api/FetchEventSource.ts:125-199 | a whole frame, told in code units, dispatches one event with exactly its kind, data and id, and keeps the id for the next request |
| EventWire.PlainFrameIsRead | src/server/events/thread-sse.ts:59-59 | a frame without id, such as `event: thread-live`, dispatches its kind and data with the id before it, which stays |
| EventWire.FramesAreWritten | src/server/events/thread-sse.ts:59-59 | what the replay theorems take as written by a server is those frames, unit for unit |
| EventWire.FitsByText | src/client/api/FetchEventSource.ts:155-199 | a frame fits exactly if its text has at most 36 Mi characters, each line ending counted once |
| FetchEventSource.Source.Close | src/client/api/FetchEventSource.ts:40-44 | closing ends the source and leaves the decoder alone |
| FetchEventSource.Source.ConsumeLine | src/client/api/FetchEventSource.ts:125-154 | the mutable fields follow the decoder's line step |
| FetchEventSource.Source.ConsumeText | src/client/api/FetchEventSource.ts:155-199 | the nested loops feed the decoder with the part they consumed, which ends at a code point; all of it unless closed or too large |
| FetchEventSource.Source.Read | src/client/api/FetchEventSource.ts:86-222 | reading a response body refines the batch reading, and a prefix of its events when closed meanwhile |
| FetchEventSource.Source.Connect | src/client/api/FetchEventSource.ts:46-84 | the request carries the last event id; a retry is set exactly when `onerror` was called, did not close, and the status was none of 204, 401 and 403; only a 2xx answer other than 204 with a body of the right type is read; closing during the request, from `onopen`, in the body or from `onerror` ends it, and an unread response changes nothing |
| ByteCarrier.StepKeeps | src/internal/websocket-byte-stream.ts:19-112 | every handler, iterator and writer step keeps the invariant of both directions |
| ByteCarrier.WireIntegrity | src/internal/websocket-byte-stream.ts:71-112 | in every run the wire is the completed writes in admission order and at most one partial write; a write that failed `not_sent` left no byte, one that failed `sent_outcome_unknown` ended the stream |
| ByteCarrier.EndFreezesWire | src/internal/websocket-byte-stream.ts:84-111 | after the end no byte follows, whatever happens |
| ByteCarrier.WritesAreBounded | src/internal/websocket-byte-stream.ts:77-83 | the counts of retained bytes and writers are exact and within the admission limits in every run |
| ByteCarrier.ReceiveIntegrity | src/internal/websocket-byte-stream.ts:30-69 | in every run yielded bytes then queued bytes are the accepted bytes until the consumer exits, the queue's count is exact and capped, a consumer that sleeps has nothing queued and no end to see, and a paused live socket has a quarter of the cap queued for a consumer that is awake |
| ByteCarrier.Drain | src/internal/websocket-byte-stream.ts:51-69 | a consumer that keeps asking receives every accepted byte |
| ByteCarrier.UndisturbedWrite | src/internal/websocket-byte-stream.ts:84-109 | on an open link the chunks reassemble the write exactly |
| ByteCarrier.SentIsCompletedThenPartial | src/internal/websocket-byte-stream.ts:104-110 | what the settled writes put on the wire is the completed ones followed by at most one partial one |
| CarrierHistory.AcceptedExactly | src/internal/websocket-byte-stream.ts:30-69 | in every run the accepted bytes are the payloads, in order, of exactly the messages that came while the stream was live, binary, of at most 64 KiB and within 4 MiB of queue; the yielded bytes are the chunks handed over, oldest first |
| CarrierHistory.EndsExactly | src/internal/websocket-byte-stream.ts:19-47 | in every run the stream has ended exactly if some step was one that ends it: a message that breaks a limit, the end of the socket, a write timeout, or a chunk that cannot follow the one before |
| CarrierHistory.PausesAndWakes | src/internal/websocket-byte-stream.ts:38-68 | in every reached state a message that fills the queue to 2 MiB pauses the socket, a chunk that leaves less than 1 MiB resumes it, and a sleeping consumer is woken exactly by a message that is kept or by the end |
| CarrierHistory.SendsExactly | src/internal/websocket-byte-stream.ts:71-103 | in every run exactly the writes with fewer than 32 waiting, of at most 100,728,840 bytes and 104,923,144 in all, on an open stream, are admitted, and the wire is, in order, the chunks of at most 64 KiB that the turns on a usable link let go |
| CarrierHistory.AnswersExactly | src/internal/websocket-byte-stream.ts:84-110 | a write is answered when all of it is out, and else when the link fails it: `not_sent` if nothing of it is on the wire, `sent_outcome_unknown` if something may be |
| WebSocketByteStream.Stream.OnMessage | src/internal/websocket-byte-stream.ts:30-42 | the handler's field updates are the message step, limits and pause included |
| WebSocketByteStream.Stream.Iterate | src/internal/websocket-byte-stream.ts:51-69 | the generator's loop is the consumer step and yields the oldest chunk |
| WebSocketByteStream.Stream.Write | src/internal/websocket-byte-stream.ts:71-84 | admission accepts exactly within the limits and keeps a copy of the caller's array |
| WebSocketByteStream.Stream.SendChunk | src/internal/websocket-byte-stream.ts:84-111 | one round of the chunk loop is the writer step with its verdict |
| WebSocketByteStream.Serve | src/internal/websocket-byte-stream.ts:19-112 | a stream object driven through any steps, its writes from real arrays, satisfies wire integrity, the admission bounds and receive integrity, and has accepted, yielded, admitted, sent and ended exactly as the history of its steps says |
| WebSocketByteStream.WriteThenReuse | src/internal/websocket-byte-stream.ts:80-84 | overwriting the buffer after the call changes nothing of what was admitted |
| JsonText.QuoteRoundTrip | src/server/canonical-json.ts:72-74 | a written string, followed by anything, is read back with exactly that remainder (section 7 of RFC 8259) |
| JsonText.QuoteInjective | src/server/canonical-json.ts:72-74 | equal texts that start with written strings hold equal strings and equal remainders |
| JsonText.EscapeShape | src/shared/thread-references.ts:41-48 | a written string has no control character and is at most six times as long |
| CanonicalJson.SameIsMeaning | src/shared/agent-tool-policy.ts:14-27 | `sameJsonValue` decides equality of trees with unordered objects; its one-sided key test is enough because both sides have as many keys |
| CanonicalJson.IncludedAndSameSize | src/shared/agent-tool-policy.ts:20-26 | a map inside another of the same size equals it, which makes the test symmetric |
| CanonicalJson.CanonicalKeeps | src/server/canonical-json.ts:17-64 | canonicalizing keeps the meaning and gives sorted objects without negative zero, all the way down |
| CanonicalJson.FormIsUnique | src/server/canonical-json.ts:50-61 | a canonical form is determined by its meaning |
| CanonicalJson.CanonicalIdempotent | src/server/canonical-json.ts:17-64 | canonicalizing again changes nothing |
| CanonicalJson.PrintInjective | src/server/canonical-json.ts:72-74 | printed canonical values are self-delimiting: equal texts hold equal values |
| CanonicalJson.DeterministicIsSame | src/server/canonical-json.ts:72-74 | two values have the same deterministic text exactly when `sameJsonValue` holds, exactly when they are equal as unordered trees |
| KeyOrder.LexExactly | src/server/canonical-json.ts:50-50 | the order of keys is that of the first unit in which they differ, a beginning coming first |
| KeyOrder.IndexExactly | src/server/canonical-json.ts:49-60 | a key is enumerated as an index exactly if it is the decimal digits of a number up to 4,294,967,294 (section 10.1.11.1 of ECMA-262) |
| KeyOrder.IndicesByNumber | src/server/canonical-json.ts:49-60 | index keys are written in the order of their numbers |
| KeyOrder.OthersByUnits | src/server/canonical-json.ts:50-60 | after them the others by code units |
| JsonReader.ReadsBack | src/server/canonical-json.ts:72-74 | a JSON reader that does not know the printer reads the text of every canonical value, with anything behind it that may follow a value, as that value and exactly that rest |
| JsonReader.DeterministicReads | src/server/canonical-json.ts:72-74 | it reads the deterministic text of every value as a value of the same meaning, with nothing left over |
| JsonReader.NumbersAreWritten | src/server/canonical-json.ts:29-34 | both zeros are written `0`, any other number by its own text |
| JsonReader.QuotedUnit | src/server/canonical-json.ts:72-74 | the text of every one-unit string, unit by unit: seven short escapes, four hexadecimal digits for other controls and lone surrogates, and else the unit (section 25.5.2 of ECMA-262) |
| JsonReader.EscapeConcat | src/server/canonical-json.ts:72-74 | longer strings are written piece by piece, if no surrogate pair is cut, and a surrogate pair as it is |
| CanonicalJson.SamePolicyRevisionIsMeaning | src/shared/agent-tool-policy.ts:4-11 | two policies are the same revision exactly when they agree on everything but the member `runtimeAvailability` |
| ObjectGraph.FailsExactly | src/server/canonical-json.ts:38-64 | on every finite object graph the walk fails exactly when a cycle or an object that is not JSON can be reached |
| ObjectGraph.FailureHasPath | src/server/canonical-json.ts:38-42 | a failure has a witness path from the root |
| ObjectGraph.PathFails | src/server/canonical-json.ts:38-42 | and each such path makes the walk fail |
| ObjectGraph.OnlyCyclesFail | src/server/canonical-json.ts:38-42 | over JSON containers the only fault is the cycle |
| GraphFaults.FaultHasPath | src/server/canonical-json.ts:29-54 | whatever error is thrown, there is a path to an object that shows exactly that fault |
| GraphFaults.LeafFault | src/server/canonical-json.ts:29-37 | non-finite numbers and values that are not JSON have their own errors |
| GraphFaults.ItemsFault | src/server/canonical-json.ts:43-47 | an array fails with the fault of its first failing item |
| GraphFaults.PropertiesFault | src/server/canonical-json.ts:50-60 | an object fails with the fault of its first failing property, an accessor being one |
| ObjectGraph.WalkUnfolds | src/server/canonical-json.ts:43-61 | a successful walk unfolds shared objects into the tree that the graph denotes |
| ObjectGraph.UnfoldsOnce | src/server/canonical-json.ts:43-61 | a graph denotes at most one tree |
| ObjectGraph.GraphTextsAgree | src/server/canonical-json.ts:38-74 | two graphs print alike exactly when the trees they denote are the same JSON value |
| ObjectGraph.Canonicalizer.Canonicalize | src/server/canonical-json.ts:17-65 | with the shared ancestor set updated in place: succeeds or fails as the walk, gives the canonical tree, and restores the set on success and on failure |
| ObjectGraph.Canonicalizer.CanonicalizeItems | src/server/canonical-json.ts:43-47 | the same for the items of an array, in order |
| ObjectGraph.Canonicalizer.CanonicalizeProperties | src/server/canonical-json.ts:48-61 | the same for the loop over an object's properties |
| CodeFences.CodeFenceRanges | src/shared/thread-references.ts:20-33 | the loop computes the fence ranges defined line by line |
| CodeFences.RangesOrdered | src/shared/thread-references.ts:20-33 | the ranges are non-empty, sorted and disjoint for every text |
| CodeFences.InFenceIsOpen | src/shared/thread-references.ts:20-33 | a line that is no marker lies in a range exactly when the lines before it leave a fence open |
| CodeFences.PointerAgrees | src/shared/thread-references.ts:74-75 | the forward-only pointer answers as a search through all ranges would, because offsets grow and ranges are disjoint |
| FenceText.ClosedFence | src/shared/thread-references.ts:20-33 | a line of n >= 3 backticks or tildes after at most three spaces, lines none of which closes it, and a line of at least n of the same character with only blanks behind it, give one range from the first to the end of the last, and what follows is read with no fence open |
| FenceText.OpenFence | src/shared/thread-references.ts:31-31 | if no later line closes it, the range goes to the end of the text |
| FenceText.OrdinaryLine | src/shared/thread-references.ts:23-25 | a line that opens no fence gives no range |
| FenceText.ClosingShape | src/shared/thread-references.ts:26-26 | a fence line closes exactly if it has the same character, at least the length, and only blanks behind: a shorter, a different or a non-blank one does not |
| ThreadReferences.RecognizeExactly | src/shared/thread-references.ts:70-73 | a line is accepted as a block exactly when it is the print of a valid list of references |
| ThreadReferences.BlockFits | src/shared/thread-references.ts:5-18 | every valid list prints as one line within the length limit, however its titles are escaped |
| ReferenceSplit.MergeKeeps | src/shared/thread-references.ts:76-78 | merging keeps ids in place, appends new ones, and the later title wins |
| ReferenceSplit.SplitConserves | src/shared/thread-references.ts:56-85 | the text is exactly the kept pieces and the removed blocks in order: nothing else is deleted, changed or moved |
| ReferenceSplit.SplitBounded | src/shared/thread-references.ts:76-78 | at most 16 references, with unique ids |
| ReferenceSplit.DropIsBlock | src/shared/thread-references.ts:66-79 | what is removed is a canonical block at the start of the text or after two line feeds, outside every fence, that keeps the total within 16 |
| ReferenceSplit.DecideBlock | src/shared/thread-references.ts:66-79 | a canonical block that starts a paragraph and fits is removed exactly when no fence is open before it |
| ReferenceSplit.PlainText | src/shared/thread-references.ts:60-83 | a text in which no line is the header is returned as it is, also when the header text is inside a line |
| ReferenceSplit.RoundTrip | src/shared/thread-references.ts:41-85 | splitting a formatted message gives exactly the body and the references, for every body in which no line is the header |
| ReferenceSplit.NestedRoundTrip | src/shared/thread-references.ts:41-85 | two nested formats split into the body and the merged references exactly when the outer block leaves no fence open, and otherwise into what stays |
| ReferenceMessages.HeaderIsLine | src/shared/thread-references.ts:6-7 | the header that the program uses satisfies what the proofs ask of a header |
| ReferenceMessages.SplitThreadReferenceText | src/shared/thread-references.ts:56-85 | the loop with its moving fence pointer and its reference map computes the split |
| ReferenceMessages.CollectedIsValid | src/shared/thread-references.ts:76-84 | what a split collects can be formatted again |
| ReferenceMessages.ReplaceKeepsReferences | src/shared/thread-references.ts:87-89 | replacing the body never fails, gives the new body and keeps the references in order |
| ReferenceMessages.OrdinaryTitlesAreSafe | src/shared/thread-references.ts:41-48 | titles without U+2028 and U+2029 leave no fence open |
| ReferenceMessages.FenceTitleLeavesOpen | src/shared/thread-references.ts:20-48 | a title of U+2028 and three backticks does |
| FencedBlocks.BlockInText | src/shared/thread-references.ts:56-85 | in every text that ends a paragraph and has no other header line, a block is removed exactly if no fence is open before it, with its references in order |
| FencedBlocks.BlockAfterClosedFence | src/shared/thread-references.ts:20-85 | after a fence that has been closed, told line by line, the block is removed and its references are returned |
| FencedBlocks.BlockInOpenFence | src/shared/thread-references.ts:20-85 | after a fence that no line has closed, everything stays |
| ReferenceWire.HeaderUnits | src/shared/thread-references.ts:6-7 | the header, in code units |
| ReferenceWire.BlockIsJson | src/shared/thread-references.ts:41-48 | the JSON reader finds in a block exactly the list under `threadReferences`, each with `threadId` and then `title` |
| ReferenceWire.BlockLimits | src/shared/thread-references.ts:9-18 | one to sixteen references, titles of 1 to 512 units, and no id twice |
| ReferenceWire.IdExactly | src/shared/thread-references.ts:9-12 | of five groups of 8, 4, 4, 4 and 12 units, an id is what is hexadecimal with version 1 to 8 and variant 8 to b, or all zeros, or all f |
| ReferenceWire.IdHasGroups | src/shared/thread-references.ts:9-12 | every id is five such groups with dashes |
| OptionTree.JoinInjective | src/cli/sedes-dynamic-tool-command.ts:177-177 | paths joined with NUL are equal only if the paths are |
| OptionTree.KeysDecide | src/cli/sedes-dynamic-tool-command.ts:177-187 | the string test on joined paths decides exactly whether one path is a proper prefix of the other |
| OptionTree.SetRepresents | src/cli/sedes-dynamic-tool-command.ts:384-403 | writing at a path that conflicts with none succeeds and adds exactly that assignment to the tree |
| OptionTree.RepresentedOnce | src/cli/sedes-dynamic-tool-command.ts:384-403 | an assignment has one tree: nothing else is in it |
| OptionTree.GetNothing | src/cli/sedes-dynamic-tool-command.ts:369-382 | reading at an unrelated path finds nothing |
| OptionTree.BuildInput | src/cli/sedes-dynamic-tool-command.ts:174-208 | the loop over the supplied options computes the run, its refusals included |
| OptionTree.WriteNeverConflicts | src/cli/sedes-dynamic-tool-command.ts:196-206 | once an option has passed the test on keys and its value can be added at its path, the write succeeds: the conflict branch of `setAtPath` is never taken |
| OptionTree.RunDecides | src/cli/sedes-dynamic-tool-command.ts:174-208 | a run succeeds exactly when no path is inside another and the options for each path can be put together, and then the tree holds exactly the assigned paths, a prefix antichain |
| OptionTree.AcceptsExactly | src/cli/sedes-dynamic-tool-command.ts:174-208 | the same path by path: values readable, all but the first repeatable, and the first repeatable or a list if more follow |
| OptionTree.FoldExactly | src/cli/sedes-dynamic-tool-command.ts:199-206 | putting the options for one path together one by one gives the one value, or the list of the values in order after the items of a list given whole |
| OptionTree.ReadsBack | src/cli/sedes-dynamic-tool-command.ts:174-208 | each supplied path reads back as its value, or as its values in order |
| OptionTree.OrderDoesNotMatter | src/cli/sedes-dynamic-tool-command.ts:174-208 | any reordering that keeps the order within each path succeeds or fails alike, with the same tree |
| OptionRequirement.RequiredIsPresent | src/cli/sedes-dynamic-tool-command.ts:431-483 | a path reported required is in every conforming value |
| OptionRequirement.DeepExactly | src/cli/sedes-dynamic-tool-command.ts:443-483 | every value conforming to an inhabited schema has a path exactly when the analysis that also looks into unions of unions says so |
| OptionRequirement.WithinIsDeep | src/cli/sedes-dynamic-tool-command.ts:443-483 | the program's analysis is that one along paths that meet no union of unions, and never says required along others |
| OptionRequirement.RequiredExactly | src/cli/sedes-dynamic-tool-command.ts:431-441 | a path is reported required exactly when every conforming value has it and it meets no union of unions |
| OptionRequirement.OptionalIsSafe | src/cli/sedes-dynamic-tool-command.ts:431-483 | along a path that meets no union of unions, deleting what is reported optional from a conforming value leaves a conforming value |
| OptionRequirement.OfferedPathIsClear | src/server/agent-tools/schema/canonical-cli-options.ts:33-81 | no path for which an option is offered meets a union of unions |
| OptionRequirement.OfferedRequiredExactly | src/cli/sedes-dynamic-tool-command.ts:227-232 | an option is listed as required exactly when every conforming value has its path |
| OptionRequirement.OfferedOptionalIsSafe | src/cli/sedes-dynamic-tool-command.ts:227-232 | what is listed as optional can be deleted from every conforming value |
| OptionRequirement.ConditionalExactly | src/cli/sedes-dynamic-tool-command.ts:431-483 | an option is listed as conditional exactly if it is not required and, on some way down its path through the alternatives, its last name is required |
| OptionRequirement.InSomeExactly | src/cli/sedes-dynamic-tool-command.ts:443-483 | what the search through the alternatives finds is exactly such a way |
| OptionRequirement.NestedUnionIsNotOffered | src/server/agent-tools/schema/canonical-cli-options.ts:110-124 | a needed part behind a union of unions is called optional by the function alone, and no option is offered for it |
| PageSizing.FewChanges | src/shared/page-sizing.ts:18-36 | between resets the accepted height changes at most five times, whatever is measured |
| PageSizing.RestartBegins | src/shared/page-sizing.ts:18-36 | a reset forgets the past: it gives what the first measurement would, with the whole budget |
| PageSizing.AcceptedInRange | src/shared/page-sizing.ts:18-36 | accepted heights stay between 1 and 8192, whatever numbers are measured |
| PageSizing.FreezesExactly | src/shared/page-sizing.ts:24-35 | when the viewport changes under a height that is not frozen, it is frozen exactly at the sixth step, or if the page grew or shrank with the viewport and still does not fit; then the height before stays, else the new one is accepted |
| PageSizing.FrozenStays | src/shared/page-sizing.ts:30-30 | a frozen height stays whatever the viewport does |
| PageSizing.RunawayStops | src/shared/page-sizing.ts:18-36 | a page that is always k >= 2 pixels higher than its viewport is frozen at its first height in the feedback loop, and stays there |
| PageSizing.HeightExactly | src/shared/page-sizing.ts:20-21 | a height is rounded up and kept between 1 and 8192, and one that is no finite number is 1 |
| PageSizing.WidthExactly | src/shared/page-sizing.ts:19-19 | a width is rounded to the nearest, halves up, and is at least 1 |
| PageSizing.SettlesExactly | src/shared/page-sizing.ts:18-36 | for every page in the feedback loop the accepted height is eventually constant exactly if in some round it equals the viewport |
| PageSizing.MeasuredIsGentle | src/shared/page-sizing.ts:20-21 | rounding up and clamping keep a page gentle whose real height changes by at most one pixel |
| PageSizing.LoopInvariant | src/shared/page-sizing.ts:18-36 | with a gentle page the feedback loop never resets; it is at rest or has made a step each round |
| PageSizing.LoopConverges | src/shared/page-sizing.ts:18-36 | with a gentle page the accepted height is constant from the sixth value on |
| PageSizing.JumpyOscillates | src/shared/page-sizing.ts:18-36 | the response 10, 11, 20, 21, 10 oscillates forever |
| SchemaDelta.Verify | scripts/codex-probes/reviewed-schema-delta.ts:22-78 | the two loops accept exactly when sizes match, hashes are well formed, and the distinct listed paths are precisely those that differ, with their hashes |
| SchemaDelta.ReplayedDecides | scripts/codex-probes/reviewed-schema-delta.ts:58-77 | replaying the review gives the candidate exactly when the review is exact |
| SchemaDelta.OrderDoesNotMatter | scripts/codex-probes/reviewed-schema-delta.ts:22-78 | the verdict does not depend on the order of the entries |
| SchemaDelta.ReversalIsAccepted | scripts/codex-probes/reviewed-schema-delta.ts:22-78 | the reversed review is accepted for the two trees swapped, exactly when the review is |
| SchemaDelta.HashIsDigest | scripts/codex-probes/reviewed-schema-delta.ts:47-52 | a present hash passes exactly if it is the lower-case hexadecimal writing of 32 bytes |
| McpServer.KeyInjective | src/cli/sedes-mcp-server.ts:513-515 | a number and a string never share a key, nor do two different ids |
| McpServer.DispatchKeeps | src/cli/sedes-mcp-server.ts:167-230 | dispatching one message keeps the invariant: cancelled inside in-flight, the cap, one pending request per slot, own ids |
| McpServer.ReceiveKeeps | src/cli/sedes-mcp-server.ts:104-164 | so does a line, single or batch |
| McpServer.FinishKeeps | src/cli/sedes-mcp-server.ts:213-230 | so does the end of a call, which releases its own slot |
| McpServer.ReachableIsValid | src/cli/sedes-mcp-server.ts:104-230 | every run stays inside the invariant |
| McpServer.RefusedKeepsSlots | src/cli/sedes-mcp-server.ts:195-210 | a refused duplicate or busy request changes no slot and is answered with its own id |
| McpServer.FinishKeepsOthers | src/cli/sedes-mcp-server.ts:226-229 | the end of a call keeps all other slots and cancellations |
| McpServer.IdleIsSettled | src/cli/sedes-mcp-server.ts:133-164 | when no call is in flight nothing is owed |
| McpServer.EveryRequestIsAnswered | src/cli/sedes-mcp-server.ts:104-230 | a request of a settled line has its own answer in exactly one message, unless cancelled in flight or cut off by close (sections 5 and 6 of JSON-RPC 2.0) |
| McpServer.RepliesInOrder | src/cli/sedes-mcp-server.ts:157-163 | a batch's array has exactly one place for each answered message, in the order of the messages, and holds its reply there |
| McpHistory.ArrivesExactly | src/cli/sedes-mcp-server.ts:167-212 | whatever message comes: an id under way gives an invalid-request error, a free one with 16 calls under way a busy error, and any other is admitted; a message that is no request gives an invalid-request error with the id it has; a cancellation marks exactly the call with its id; nothing else changes |
| McpHistory.LineExactly | src/cli/sedes-mcp-server.ts:104-164 | a line that does not parse gives one parse error, an empty batch or one of more than 32 one invalid-request error, and else its messages are dispatched in turn; nothing once closed |
| McpHistory.LineIsAnswered | src/cli/sedes-mcp-server.ts:157-159 | after any number of its messages, each has its answer at arrival |
| McpHistory.EndDecides | src/cli/sedes-mcp-server.ts:213-230 | the end of a call decides that call only: cancelled is silent, a good end is the result, a bad one an error, or silence once closed |
| McpHistory.CallsEnd | src/cli/sedes-mcp-server.ts:213-230 | in every run the first end that comes for a call decides its answer, for good |
| McpHistory.AnsweredExactly | src/cli/sedes-mcp-server.ts:104-230 | in every run from the start, each message of each line has the answer that its arrival and the ends of calls give it |
| McpHistory.LeavesWhenSettled | src/cli/sedes-mcp-server.ts:123-163 | the answers leave as soon as none is pending, once: none for silence, an array for a batch, and else the one reply |
| McpHistory.ClosedExactly | src/cli/sedes-mcp-server.ts:133-137 | the server is closed exactly from the close on |
| McpServer.CloseDrains | src/cli/sedes-mcp-server.ts:133-141 | after close nothing is admitted and each end takes one call away, so what `close` waits for only shrinks |
| McpServer.SedesMcpServer.Close | src/cli/sedes-mcp-server.ts:133-137 | closing is the close step and aborts every call in flight |
| McpServer.SedesMcpServer.DispatchOne | src/cli/sedes-mcp-server.ts:167-212 | the field updates of a dispatch are the dispatch step |
| McpServer.SedesMcpServer.ReceiveLine | src/cli/sedes-mcp-server.ts:104-130 | the handling of a line is the receive step |
| McpServer.SedesMcpServer.EndRequest | src/cli/sedes-mcp-server.ts:213-230 | the end of a call is the finish step |
| McpServer.Serve | src/cli/sedes-mcp-server.ts:104-230 | a server object driven through any steps is where the step system says, within the invariant, and has aborted the cancelled calls, or all of them once closed |
| BackendStartup.DelayIsMonotone | src/server/production-application.ts:907-910 | the delay grows with the failures, from 5 to 60 seconds |
| BackendStartup.StepKeeps | src/server/production-application.ts:895-1068 | every step of saves, commands admitted at any time, reconciliation, explicit starts, stops, completions and turns keeps the invariant |
| BackendStartup.ReachableIsValid | src/server/production-application.ts:879-1068 | so every run stays inside it |
| BackendLife.AttemptLife | src/server/production-application.ts:917-968 | every step moves every attempt exactly as told phase by phase, and cancels it exactly if its backend is removed or it is found not to agree |
| BackendLife.AgreesIsCurrent | src/server/production-application.ts:921-929 | an attempt is current exactly if it is not cancelled, nothing is shut down, and the repository, the definition and the runtime are what it was made from |
| BackendLife.RegistrationLife | src/server/production-application.ts:948-964 | a backend gets an attempt and loses it exactly by the steps named |
| BackendLife.NewAttempt | src/server/production-application.ts:1043-1053 | a new attempt holds what was read before the wait and the environment runtime of now |
| BackendLife.QueueLife | src/server/production-application.ts:973-1068 | who has the queue after each step; an automatic start waits for the delay of its configuration, an explicit start never does |
| BackendLife.DelayLife | src/server/production-application.ts:907-913 | the delay of a backend is made longer and taken away exactly by the steps named, counted from now |
| BackendLife.DelayIsWait | src/server/production-application.ts:910-910 | 5, 10, 20, 40 and then always 60 seconds |
| BackendLife.ClientLife | src/server/production-application.ts:3103-3126 | an explicit start waits for the attempt that is there or the one it made, and is told whether it was superseded when that is over |
| BackendLife.ClockLife | src/server/production-application.ts:987-988 | only a tick moves the clock, and a shutdown is for ever |
| BackendLife.RecordLife | src/server/configuration-admin/configuration-repository.ts:178-199 | only saves and commands change what is saved, each by one revision |
| BackendLife.LoadLife | src/server/production-application.ts:2588-2591 | only a reload changes the definitions, and only a replacement a runtime |
| BackendEffects.TakesEffectOnce | src/server/production-application.ts:930-949 | an attempt took effect exactly if its outcome is applied, once, matching what it was compared with at its turn, and never if it had been cancelled or turned away |
| BackendEffects.AppliedHadItsTurn | src/server/production-application.ts:937-946 | for whatever is applied there is a moment in the run at which it had its turn, registered and current |
| BackendEffects.CommandSupersedes | src/server/configuration-admin/configuration-repository.ts:178-199 | once a command for its backend is admitted, whoever has the queue, no attempt that has not reached its turn takes effect in any continuation |
| BackendEffects.CommandDuringReservation | src/server/production-application.ts:1043-1053 | nor does the attempt that a reservation under way will make: it keeps the revision read before the wait |
| BackendEffects.PublicationIsCurrent | src/server/production-application.ts:925-946 | at the end of a publication the repository agrees with the attempt exactly if it did at the turn and no command came in between |
| BackendEffects.PassingIsSaved | src/server/production-application.ts:925-938 | at the turn it agrees |
| BackendEffects.StopDuringPublication | src/server/production-application.ts:937-946 | a stop admitted during the publication comes too late: the attempt takes effect although the repository says stopped |
| BackendEffects.TurnIsReached | src/server/production-application.ts:973-1068 | such a turn is reached from the start |
| BackendEffects.LostStaysLost | src/server/production-application.ts:917-938 | an attempt that is cancelled, turned away or replaced before it took effect, or outdated before its turn, stays so in every continuation |
| BackendEffects.StaleIsNeverPublished | src/server/production-application.ts:937-938 | an attempt that is not registered or not current at its turn never takes effect, however the run goes on |
| BackendEffects.OneAttemptPerBackend | src/server/production-application.ts:983-984 | of two attempts for one backend at most one can still take effect |
| BackendDelay.RetryWaits | src/server/production-application.ts:987-989 | in every run in which nothing clears the delay and no other configuration fails, an automatic start of the failed configuration waits out the delay of that failure |
| BackendProgress.NeverStuck | src/server/production-application.ts:2310-2315 | until every attempt is over and every explicit start is answered, some completion is possible |
| BackendProgress.CompletionsEnd | src/server/production-application.ts:3103-3129 | in whatever order completions come only boundedly many can happen, and when no more can, every attempt is over and every explicit start answered |
| BackendProgress.NobodyHolds | src/server/production-application.ts:3103-3126 | no operation keeps the queue until an attempt ends |
| BackendProgress.HolderIsStuck | src/server/production-application.ts:3120-3126 | one that did would wait forever, whatever happens, because the attempt could not get its turn |
| ConfigurationQueue.Backends.CancelStaleStartups | src/server/production-application.ts:2591-2591 | the loop of a reconciliation cancels exactly the registered attempts that are not current |
| ConfigurationQueue.Serve | src/server/production-application.ts:895-1068 | an object with the program's maps, driven through any steps, is where the step system says, and what took effect is exactly what was applied, once each |
| RuntimeLease.StepKeeps | src/server/normalized-app.ts:532-594 | every event and every microtask keeps the invariant |
| RuntimeLease.ExactlyOnce | src/server/normalized-app.ts:532-594 | in every schedule of acquisition, deadline, cancellation and release, a produced runtime has exactly one owner and is never released twice; once the caller has released, exactly once |
| RuntimeLease.InterruptedIsReleasedTwice | src/server/normalized-app.ts:567-572 | a timer between two microtasks would break this |
| LeaseOutcome.FirstDecides | src/server/normalized-app.ts:532-594 | in every schedule, once no microtask is left, whichever of settlement and deadline or cancellation came first decides: the caller holds the runtime, or failed, and a runtime that comes too late is released by the handler, once |
| LeaseOutcome.ReleaseOnce | src/server/normalized-app.ts:1505-1514 | the first release gives back what the caller holds, and any other changes nothing |
| LeaseOutcome.MicrotasksEnd | src/server/normalized-app.ts:532-594 | each microtask that runs takes more off a weight of the queue than it adds, so they come to an end |
| RuntimeLease.ThreadRuntimeLoad.Release | src/server/normalized-app.ts:1505-1514 | however often it is called, the caller releases once and the handler not at all |
| RuntimeLease.Load | src/server/normalized-app.ts:532-594 | an object with the shared variables, driven through any schedule, leaves a produced runtime with one owner and one release |
| DownloadNames.PageDownloadFileName | src/shared/page-download.ts:13-40 | fails exactly for revisions that are not safe positive integers, and otherwise computes the name |
| DownloadNames.TakeFitting | src/shared/page-download.ts:26-36 | the loop takes the characters that fit |
| DownloadNames.FitIsLongest | src/shared/page-download.ts:29-36 | these are the longest beginning that fits, with lone surrogates replaced |
| DownloadNames.NameIsSafe | src/shared/page-download.ts:6-40 | for every title and safe revision the name has at most 180 UTF-8 bytes and 128 code points, no forbidden character, no lone surrogate, no leading blank or dot, and is no Windows device name |
| DownloadNames.StemShape | src/shared/page-download.ts:37-38 | the stem is never empty and neither starts nor ends with a blank or a dot |
| DownloadNames.GoodTitleIsKept | src/shared/page-download.ts:18-39 | a title that needs no change and fits is kept |
| DownloadNames.RevisionIsReadable | src/shared/page-download.ts:17-39 | names of different revisions differ |
| NameText.NameExactly | src/shared/page-download.ts:13-40 | for every title and revision the name is what the steps give, each told by its result: barred characters to dashes, gaps at both ends gone, `page-` before a device name, the longest beginning within 180 bytes and 128 characters, gaps at the new end gone, `page` for nothing, and `-r` revision `.html`; exactly the revisions below 1 and above 2^53 - 1 fail |
| NameText.TakenExactly | src/shared/page-download.ts:22-24 | a text is reserved exactly if it is a Windows device name in any case, alone or before a dot |
| NameText.TrimsBothEnds | src/shared/page-download.ts:20-20 | trimming takes away the longest gaps at both ends and nothing else |
| NameText.ClassesExactly | src/shared/page-download.ts:19-20 | the two character classes |
| NameText.SizesExactly | src/shared/page-download.ts:32-32 | the size of a character in UTF-8 |
| DownloadNames.Utf8RoundTrip | src/shared/downloads.ts:14-17 | an independent decoder reads the UTF-8 bytes back |
| ContentDisposition.ExtendedIsRead | src/shared/downloads.ts:14-17 | percent-decoding the extended value gives the name's UTF-8 bytes (section 3.2.1 of RFC 8187) |
| ContentDisposition.ExtendedIsPlain | src/shared/downloads.ts:14-17 | the extended value has only attr-chars and escapes, at most three characters for each byte |
| ContentDisposition.ExtendedExactly | src/shared/downloads.ts:14-17 | the extended value shows the UTF-8 bytes of the name one by one: letters, digits and `!-._~` as they are, all others as `%` and two upper-case digits |
| ContentDisposition.HeaderCarriesName | src/shared/downloads.ts:4-19 | the header exists exactly for names without lone surrogates, is printable ASCII, and a reader finds the word `inline` or `attachment`, the fallback and the name in it |
| ContentDisposition.FallbackExactly | src/shared/downloads.ts:8-13 | the fallback is the decomposed name with `_` for everything but printable ASCII without quote and backslash, cut at 180 characters, and `attachment` for nothing |
| ContentDisposition.PageHeaderFits | src/shared/page-download.ts:6-9 | the header of a page download never fails, carries the name and stays below 1,024 characters |
| ContentDisposition.WorkspaceNameFits | src/server/normalized-app.ts:490-499 | a name of at most 608 bytes, so of at most 255, never trips the 2,048-byte check |
| ContentDisposition.WorkspaceRefusesExactly | src/server/normalized-app.ts:490-499 | a workspace download is refused exactly for a lone surrogate in its name and for a header of more than 2,048 characters |

## Left out

- Bytes to text: TextDecoder is outside; text arrives in pieces cut at code points, and a cut sequence at the end may add one replacement character.
- Time in the event source: budgets, yields and timers appear only as points where `close` may be called.
- Server replay: what a server sends of its log is given by the log and the id it is asked for; checkpoints and the event hub are not part of this model. Frames without an id are told from frames of the log by their kind, as the two never share one.
- Numbers in JSON are named by the text that Number::toString gives them, so the digits of that algorithm are not modelled.
- Keys named `__proto__` and inherited property names are outside the canonical JSON and option models; paths hold no NUL.
- Object graphs are finite maps from references to nodes; typed arrays, proxies and getters are not modelled.
- ReferenceMessages.SplitThreadReferenceText: takes the header line as a parameter with the properties that `HeaderIsLine` proves of the real one.
- OptionTree.SetRepresents: nested objects are values, so that writing in place through aliases is not modelled.
- Splitting command-line arguments into options, resolving commands and rendering help (src/cli/sedes-dynamic-tool-command.ts:124-172, 60-118) only look things up.
- OptionRequirement.RequiredExactly: `minProperties` is ignored, as the analysis ignores it, and schemas are inhabited.
- ObjectGraph.Canonicalizer.CanonicalizeItems: arrays have no holes.
- Initialization and tool calls of the MCP server: the answer of a call is an arbitrary outcome.
- BackendStartup.StepKeeps: contribution refresh does not throw, and a reconciliation is a series of steps among which others may come; a document is saved in the queue (src/server/production-application.ts:2878-2880), lifecycle commands at any time.
- BackendDelay.RetryWaits: a failure of another configuration in between replaces the record, as in the code, and ends the promise for the first one.
- Backends that start at once, diagnostics, cleanup proofs and sidecar bindings are not part of the startup model.
- ConfigurationQueue.Serve: the attempts are values in a sequence, so that aliases of an attempt object are not modelled; the early return for a pending cleanup or a stop diagnosis is the absence of the step.
- RuntimeLease.ExactlyOnce: timers and close events run only when the microtask queue is empty, as in Node.js.
- Unicode normalization: the NFC form of a title and the NFKD form of a name are given; the theorems hold for any text in their place.
- DownloadNames.PageDownloadFileName: the revision is an integer; other numbers, which the program refuses, are not represented.
- Sidecar recovery, routing, persistence, probes, scripts and the user interface.
