# FlClash in Dafny

A model of the parts of FlClash where one mistake shows only much later, or only under one interleaving: the editor's
folds and guides, the Core's event pipeline, the IPC byte stream between Core and host, the versioning of routes, the
Android run-intent state machine, the merge of profiles, the watch over request traffic and the scan of probe bodies.
`dafny verify dfyconfig.toml` checks all of it.

## Layout

| files | what they model |
|---|---|
| `EditorText`, `Brackets`, `BracketFolding`, `IndentFolding`, `Folding`, `Guides`, `GuidesAndFolds` | text as characters split into lines at LF; the bracket search; the two fold passes; the fold list; the viewport guides; when guides and folds agree |
| `MessagePipeline`, `PipelineInvariants`, `PipelineTheorems`, `PipelineLaws`, `MessageBatcher` | the three bounded queues, their senders and the batcher as one step machine; what every step keeps; what holds of every run; what becomes of each kind of message and which queue goes first; the batcher's loop itself on queues that are already filled and closed, as a run of that machine |
| `FrameCodec`, `FrameWriter`, `Outbox` | the length-prefixed layout and both readers; the resuming writer and the Core's one connection; the host's outbox and its peers |
| `RouteTracker`, `RouteRuns`, `RouteExits` | the tracker as the program keeps it; every interleaving of refreshes, watch calls and stops; the two exit computations and the check of held routes |
| `RunStateMachine`, `RunStateInvariants`, `RunStateTheorems`, `RunStateLaws`, `ServiceController` | start requests, stop requests and service losses cut at locks and suspension points; what every step keeps; what holds of every run; what each request gets; the host that starts and stops services |
| `YamlGraph`, `AliasInlining`, `MappingLookup`, `LookupOrder`, `LookupEnds`, `MappingSet` | YAML nodes in memory, changed in place; the alias walk; reading a key, whose value that is and when it ends; setting keys |
| `SectionMerge`, `MergeOrder`, `ProfileMerge`, `ProfileEncoding`, `DocumentEnds`, `ProfileBuild` | keys taken over from a profile; when the merge ends; the rules and the whole merge; the sliced output, and which documents have an end; all of it from end to end |
| `RequestTraffic`, `TrafficRuns` | the watch as the program keeps it; every interleaving of announced requests with the runners |
| `ProbeBody` | the early-stopping scan and the Gemini code |

## How it is modelled

- Code that changes objects is a class whose methods change fields (`FrameWriter.Server`, `Outbox.Outbox`,
  `RouteTracker.RouteTracker`, `ServiceController.ServiceController`, `RequestTraffic.RequestTrafficWatch`,
  `YamlGraph.NodeStore`). A method that does what a pure function says is proved equal to it, and the theorems are about
  that function.
- Code that races is a step machine: a state, an `Apply` function that takes one event, and runs of any length. Go
  channel operations, sections under one lock, and the stretches between two Kotlin suspension points are single steps;
  `select` and the scheduler choose freely. An invariant holds in every state of every run, and the theorems follow.
- YAML nodes are references into one map, so sharing, aliases and changes in place are there. What a node means is its
  unfolding to any depth, with aliases followed and anchors forgotten.
- Answers of the outside world (sockets, timers, prompts, services, snapshots of proxies, the totals of a connection,
  the sizes of reads) are parameters or part of an event, and any answer is allowed.
- `RunIntentArbiter` (`android/common/src/main/java/com/follow/clash/common/RunIntentArbiter.kt`) is a list of intents,
  the newest last.

## Where the code falls short of the plain statement

- A section of the profile is lost when its key is first met as the text of a merge key in the overlay: setting takes
  that pair for the section, reading does not. Keys the overlay read through that merge key change too
  (`MappingSet.HijackedSectionIsLost`). It may survive all the same, when another section put in such a place gives it
  back (`SectionMerge.HijackedSectionSurvives`). Exactly when a section survives: `SectionMerge.SectionReadsExactly`,
  and after the whole merge `ProfileMerge.MergedSectionExactly`; what every other key then reads as:
  `MappingSet.PutReads`.
- Looking up a key in a mapping that merges itself need not end (`LookupEnds.SelfMergeNeverEnds`). Exactly when it ends
  for a key that is nowhere to be found: `LookupEnds.AbsentKeyEndsExactly`. The merge asks that its look-ups end and
  nothing more; they do where no mapping merges itself (`MergeOrder.RankedMergesEnd`), and, whatever merges itself, where
  nothing merged has to be read (`MergeOrder.OwnPairsEnd`).
- Unwrapping a group that wraps itself does not end (`RouteExits.SelfWrapNeverEnds`; exactly when it ends:
  `RouteExits.ExitEndsExactly`).
- A document that contains itself has no written form (exactly which documents have an end:
  `DocumentEnds.FiniteExactly`).
- A start from preferences that cannot be loaded leaves its intent standing: nothing runs or is on its way, and a run
  still counts as asked for, so that the next start action is ignored (`RunStateTheorems.CrashedStartStands`; only then
  is the newest start not answered with success: `RunStateLaws.NewestRequestWins`).
- A list of more than 4096 items in reach of a later key, as an inlined alias leaves it, is not written there as it
  stands in the document, because slices are cleared once written; a long list also loses a tag of its own
  (`ProfileEncoding.AliasedLongListIsShared`; exactly when the output is the document: `ProfileEncoding.WrittenAsMeant`).
- The exit read from a chain of names is that of the proxy the table holds under the name, which need not be the node the
  connection used (`RouteExits.ShadowedNameDisagrees`; exactly when the two agree: `RouteExits.ExitsAgreeExactly`).
- A byte order mark after a line's last character makes folds and guides see that line differently
  (`GuidesAndFolds.MarksThatHarm`; exactly which lines: `GuidesAndFolds.SameShapeExactly`; exactly when a guide is the
  clipped fold all the same: `GuidesAndFolds.ColonGuideExactly`).
- A scan for more than 257 bytes may read on although the pattern has arrived (`ProbeBody.LongerPatternsAreMissed`); what
  is read still holds it (`ProbeBody.PatternIsKept`).

## Model

| member | source | states |
|---|---|---|
| EditorText.BeforeLineStart | plugins/rust_api/rust/src/editor/buffer.rs:34-44 | a character is before the start of line l exactly if it lies on an earlier line: line numbers counted at LF and lines cut at LF agree |
| EditorText.LinesBreakOnce | plugins/rust_api/rust/src/editor/buffer.rs:34-44 | only the last character of a line can be LF, as the guides' cut of the line break takes it |
| Brackets.FindForward | plugins/rust_api/rust/src/editor/guides.rs:134-162 | the forward depth count below a limit is the full search restricted to answers below the limit |
| Brackets.FindBackward | plugins/rust_api/rust/src/editor/folds.rs:155-169 | the backward depth count finds the opener the closer is the first return for |
| Brackets.FindMatchingBracket | plugins/rust_api/rust/src/editor/folds.rs:120-172 | the search returns the partner of the bracket at the offset, defined by balance alone, for every text and offset |
| Brackets.LinkedUnique | plugins/rust_api/rust/src/editor/folds.rs:120-172 | a bracket has at most one partner |
| Brackets.PartnersFit | plugins/rust_api/rust/src/editor/folds.rs:120-172 | partners are an opener and the closer that goes with it behind it |
| Brackets.PairsNest | plugins/rust_api/rust/src/editor/folds.rs:120-172 | pairs of one kind never cross |
| Brackets.MatchingIsAnInvolution | plugins/rust_api/rust/src/editor/folds.rs:120-172 | p leads to q exactly if q leads to p, so the two depth counts agree |
| Brackets.OtherKindsChangeNothing | plugins/rust_api/rust/src/editor/folds.rs:29-60 | stray or interleaved brackets of other kinds change no pair of a kind |
| BracketFolding.BracketFolds | plugins/rust_api/rust/src/editor/folds.rs:29-60 | the three-stack pass emits the folds of the matched pairs, one for each closer of an opener on an earlier line, in the order of the closers |
| BracketFolding.CloserTakesTop | plugins/rust_api/rust/src/editor/folds.rs:48-57 | what a closer pops is its partner, and it pops nothing exactly if it has none |
| BracketFolding.StackSound | plugins/rust_api/rust/src/editor/folds.rs:48-57 | every stacked opener is still unclosed |
| BracketFolding.StackComplete | plugins/rust_api/rust/src/editor/folds.rs:48-57 | every unclosed opener is stacked |
| BracketFolding.PairFoldsMeaning | plugins/rust_api/rust/src/editor/folds.rs:29-60 | those folds are exactly the line pairs of matched brackets on different lines, and their end lines never go back |
| IndentFolding.ScanLine | plugins/rust_api/rust/src/editor/folds.rs:99-118 | a line's indent in columns and whether its last content character is a colon; none for a line without content |
| IndentFolding.TabStops | plugins/rust_api/rust/src/editor/folds.rs:99-118 | a space leads one column on and a tab to the next multiple of the tab size |
| IndentFolding.CloseRuns | plugins/rust_api/rust/src/editor/folds.rs:70-76 | popping the deeper and equal lines settles exactly their folds and leaves a strictly increasing stack |
| IndentFolding.CloseAll | plugins/rust_api/rust/src/editor/folds.rs:82-84 | closing what is left at the end settles every remaining line |
| IndentFolding.ClosingIsTheRule | plugins/rust_api/rust/src/editor/folds.rs:88-95 | the fold closed for a line is the one the naive rule gives: up to the last content line of the run of blank or deeper lines, and none when there is no such line |
| IndentFolding.IndentFolds | plugins/rust_api/rust/src/editor/folds.rs:62-86 | the monotone stack refines the naive rule: for every line, the folds listed are exactly those of the rule, and no line has two |
| Folding.FirstEnds | plugins/rust_api/rust/src/editor/folds.rs:9-12 | keeping the first end of a line keeps the smallest, since closers come in line order |
| Folding.SmallerEnds | plugins/rust_api/rust/src/editor/folds.rs:13-17 | after both passes every line has the smallest of its ends |
| Folding.SortedEntries | plugins/rust_api/rust/src/editor/folds.rs:18-25 | the list holds each entry of the map, strictly by start line |
| Folding.PassesListCandidates | plugins/rust_api/rust/src/editor/folds.rs:8-17 | the two passes together list exactly the multi-line bracket pairs and the indent runs |
| Folding.ComputeAll | plugins/rust_api/rust/src/editor/folds.rs:8-27 | the result is the brute-force one: a fold is listed exactly if it is the smallest candidate of its line, strictly by start line, with start before end before the line count |
| Folding.EveryCandidateFolds | plugins/rust_api/rust/src/editor/folds.rs:5-8 | every line with a multi-line bracket pair or an indent run folds, and no farther than that candidate |
| Guides.ContentLen | plugins/rust_api/rust/src/editor/guides.rs:106-115 | of a line, exactly its break is left off: CRLF, LF or nothing |
| Guides.IsBlank | plugins/rust_api/rust/src/editor/guides.rs:117-119 | a line is blank for the guides exactly if all of it is whitespace |
| Guides.LeadingColumns | plugins/rust_api/rust/src/editor/guides.rs:121-132 | the columns counted up to either end of the content are the indent of the whole line |
| Guides.IndentLevels | plugins/rust_api/rust/src/editor/guides.rs:44-45 | the level is the number of whole tab sizes in the columns |
| Guides.RunEnd | plugins/rust_api/rust/src/editor/guides.rs:57-78 | the bounded scan ends where the run ends, or at the horizon exactly if the run is still open there and the document goes on |
| Guides.FindClosingLine | plugins/rust_api/rust/src/editor/guides.rs:49-55 | the line on which the head's bracket closes above the horizon, if it does |
| Guides.LimitedMatch | plugins/rust_api/rust/src/editor/guides.rs:49-55 | a match lies before the start of the horizon line exactly if it lies on a line above the horizon, so that offset is the right limit |
| Guides.PassesOverContent | plugins/rust_api/rust/src/editor/guides.rs:84-93 | the last check is true exactly if some line inside the block has content no deeper than its head |
| Guides.GuideOf | plugins/rust_api/rust/src/editor/guides.rs:27-101 | a line's guide is there exactly if it has a head, a block beyond its line and nothing shallower inside, with that block's end, level and columns |
| Guides.ComputeViewport | plugins/rust_api/rust/src/editor/guides.rs:6-104 | the result holds exactly the guides of the lines from 500 above the viewport to its last line, both kept within the text, top to bottom |
| GuidesAndFolds.ColonGuideExactly | plugins/rust_api/rust/src/editor/guides.rs:57-101 | for any text with any marks: the guide of a line ending in a colon is its clipped fold, there and ending alike, if and only if no mark hides the colon and no line of marks breaks or extends the run |
| GuidesAndFolds.EndsAlikeExactly | plugins/rust_api/rust/src/editor/guides.rs:57-78 | both see the run end alike exactly if no line of marks is shallow inside it or deep right behind it |
| GuidesAndFolds.ColonGuideIsClippedFold | plugins/rust_api/rust/src/editor/guides.rs:57-101 | for a line ending in a colon the guide is the indent fold clipped at the horizon, one past its end or the horizon itself, and none without a fold |
| GuidesAndFolds.NothingPassed | plugins/rust_api/rust/src/editor/guides.rs:84-93 | the last check never rejects the block of an indent run |
| GuidesAndFolds.SameShapeExactly | plugins/rust_api/rust/src/editor/folds.rs:112-117 | folds and guides see a line alike exactly if no byte order mark ends it, or other content does no colon |
| GuidesAndFolds.MarksThatHarm | plugins/rust_api/rust/src/editor/guides.rs:31-42 | two lines with such a mark on which they differ |
| PipelineInvariants.ApplyKeepsInv | core/message.go:69-186 | every operation of a sender, of the batcher and the closing of a queue keeps conservation, order, bounds, batch sizes, the burst bound and the deadline |
| PipelineTheorems.EvictionsAreBounded | core/message.go:41-92 | a message is evicted only by a send to its own queue, at most four by one send, and never by a DNS, request-traffic, loaded, geo-update or route message |
| PipelineTheorems.StateMessagesAreConserved | core/message.go:69-76 | in every run accepted state messages are those delivered or in the batch followed by those queued, in order |
| PipelineTheorems.EveryQueueIsConserved | core/message.go:69-92 | in every run what left a queue is its accepted messages in order without the evicted ones, what is queued is the rest, and that is at most 256 |
| PipelineTheorems.DeliveredAtMostOnce | core/message.go:94-186 | nothing is delivered twice, and nothing whose send did not report success |
| PipelineTheorems.BatchesAreBounded | core/message.go:125-139 | every batch sent has 1 to 32 messages, the one being filled fewer, and the deadline is set exactly while it has any |
| PipelineTheorems.BulkIsNotStarved | core/message.go:150-169 | while bulk messages wait and none is taken, at most 8 priority messages are taken |
| PipelineTheorems.OnlyTheBatcherMoves | core/message.go:94-99 | once every queue is closed only the batcher changes anything; closing again changes nothing |
| PipelineLaws.AcceptedByKind | core/message.go:36-67 | a queue holds messages of its kinds alone: loaded, geo-update and route-changed; log, request, DNS and request-traffic; all others |
| PipelineLaws.YieldersNeverEvict | core/message.go:27-67 | state, DNS and request-traffic messages never make room for themselves |
| PipelineLaws.TrySucceedsExactly | core/message.go:69-92 | a try is taken at the end of its queue exactly if there is room; without it those give up and all others evict |
| PipelineLaws.EvictionTakesOldest | core/message.go:78-92 | an eviction takes the oldest message that still waits, and a send gives up after the fourth |
| PipelineLaws.GivesUpAfterFour | core/message.go:78-92 | no log, request or priority message is given up before it has found its queue full four times |
| PipelineLaws.StateGoesFirst | core/message.go:142-148 | while state messages wait and none is taken, at most one message of another queue is |
| PipelineLaws.PriorityGoesBeforeBulk | core/message.go:150-169 | while priority messages wait, eight of them are taken for each bulk message |
| PipelineTheorems.BatchLowersWork | core/message.go:142-184 | every turn of the loop on closed queues lowers what is left: queued messages and open queues first, then the batch |
| PipelineTheorems.SomePickIsReady | core/message.go:171-183 | the blocking select is never stuck on closed queues |
| PipelineTheorems.DrainingEnds | core/message.go:142-185 | once every queue is closed the loop ends after a bounded number of operations, whatever its selects choose |
| PipelineTheorems.FinishedMeansFlushed | core/message.go:142-185 | when it has ended, everything accepted and not evicted has been sent |
| MessageBatcher.TakeFrom | core/message.go:125-139 | the oldest message moves from the queue to the batch, a full batch is sent, and a closed empty queue becomes nil |
| MessageBatcher.FlushBatch | core/message.go:109-123 | a batch that is not empty is sent after the others |
| MessageBatcher.RunMessageBatcher | core/message.go:94-186 | on filled and closed queues the loop sends the state messages, then priority in bursts of 8 with one bulk message after each, then the rest, each once, in batches of 1 to 32, whatever the deadline does; and those batches are what a whole run of the pipeline's batcher sends |
| FrameCodec.FromToLe | plugins/rust_api/rust/src/ipc/frame.rs:21-29 | the little-endian length comes back |
| FrameCodec.ToFromLe | core/server.go:58-59 | four bytes are the little-endian form of the length they spell |
| FrameCodec.LittleEndian | plugins/rust_api/rust/src/ipc/frame.rs:21-29 | the least significant byte comes first |
| FrameCodec.FrameLayout | plugins/rust_api/rust/src/ipc/frame.rs:16-24 | four bytes of the payload's length, which count the payload alone, and then the payload |
| FrameCodec.OversizedIsRefused | core/server.go:122-136 | a header is refused exactly if it announces more than the limit |
| FrameCodec.Encode | plugins/rust_api/rust/src/ipc/frame.rs:16-24 | a payload up to 64 MiB becomes its frame and a larger one an error |
| FrameCodec.DecodesFrame | plugins/rust_api/rust/src/ipc/frame.rs:14-36 | whatever follows a frame, its payload comes back and the rest is untouched |
| FrameCodec.DecodesOnlyFrames | core/server.go:122-136 | only a whole frame yields a payload |
| FrameCodec.CutFrameYieldsNothing | core/server.go:122-136 | a proper part of a frame yields no payload: the end of the stream in front of a part, and a cut inside one |
| FrameCodec.DecodesStream | plugins/rust_api/rust/src/ipc/frame.rs:16-36 | the frames of any list of payloads decode to that list, and what is left behind them is untouched |
| FrameCodec.ChunkReader.ReadFull | core/server.go:124-134 | filling a buffer takes exactly that many bytes off the stream however it is chunked, fewer only at its end |
| FrameCodec.ChunkReader.ReadFrame | plugins/rust_api/rust/src/ipc/frame.rs:26-36 | one frame read from chunks is what the bytes decode to, errors included |
| FrameCodec.ReadsWhatWasFramed | core/server.go:122-136 | frames written on one side and cut into any chunks are read on the other as the same payloads, and a frame broken off at the end as none |
| FrameWriter.ResumingWriter.Resume | core/server.go:92-97 | a stall is waited out exactly if part of the frame is written, the error is a timeout and a new deadline can be set |
| FrameWriter.ResumingWriter.Write | core/server.go:73-86 | what is counted as written is what is on the wire, under any partial writes, timeouts and errors; a stall in the middle is waited out unless no deadline can be set |
| FrameWriter.ResumingWriter.WriteAll | core/server.go:106-120 | the wire grows by a prefix of the data, all of it if no error is reported |
| FrameWriter.ResumingWriter.WriteFrame | core/server.go:54-66 | the wire grows by a prefix of the frame, by all of it if no error is reported, and by nothing for a payload that is too large |
| FrameWriter.Server.Send | core/server.go:138-169 | a send without error put its frame on the wire whole and once; one that wrote nothing leaves the stream alone; any other drops the connection, and only a broken connection, an empty write, a refused deadline or a stall at a boundary explains it; the live connection always carries whole frames |
| FrameWriter.PartOfFrame | core/server.go:158-168 | a frame cut off behind whole frames is not seen by the peer |
| FrameWriter.Session | core/server.go:138-169 | over any list of sends the peer decodes, in order and never torn, the ones that reported no error, and at most one more that was whole when its failure dropped the connection |
| Outbox.Outbox.constructor | plugins/rust_api/rust/src/ipc/outbox.rs:17-23 | an outbox begins closed and empty |
| Outbox.Outbox.Open | plugins/rust_api/rust/src/ipc/outbox.rs:26-31 | a new peer finds no frame of an earlier one |
| Outbox.Outbox.Close | plugins/rust_api/rust/src/ipc/outbox.rs:33-35 | closing drops what is queued |
| Outbox.Outbox.Push | plugins/rust_api/rust/src/ipc/outbox.rs:37-58 | a frame is refused without a peer or beyond the budget, taken at the end otherwise; bytes stay the sum of the lengths, within 16 MiB unless one frame alone is queued |
| Outbox.Outbox.Pop | plugins/rust_api/rust/src/ipc/outbox.rs:69-74 | the oldest frame leaves the queue with its bytes |
| Outbox.HostSend | plugins/rust_api/rust/src/ipc/outbox.rs:37-58 | a send to a connected peer is taken exactly if nothing waits or the budget takes it |
| Outbox.WriteNext | plugins/rust_api/rust/src/ipc/server.rs:183-188 | the writer takes the next frame and either all of it is on the wire or the peer is gone |
| Outbox.ServePeer | plugins/rust_api/rust/src/ipc/server.rs:147-154 | from opening to closing, exactly the bytes of the frames taken for this peer reach it |
| Outbox.PeerDecodesWholeFrames | plugins/rust_api/rust/src/ipc/server.rs:161-188 | a peer decodes exactly the payloads whose frames left whole, a prefix of those accepted for it, and nothing of a torn one |
| Outbox.AcceptedInOrder | plugins/rust_api/rust/src/ipc/outbox.rs:37-58 | what is accepted for a peer is some of what the host sent, in order |
| Outbox.NothingRefused | plugins/rust_api/rust/src/ipc/outbox.rs:45-52 | while all that was sent to a peer fits the budget, nothing is refused, however slowly the peer takes it |
| Outbox.ServePeers | plugins/rust_api/rust/src/ipc/server.rs:128-159 | over any number of peers in turn, with sends between them, each gets what it would get alone and no frame of an earlier one |
| RouteTracker.RouteTracker.constructor | core/route.go:28-41 | the tracker begins without a snapshot, a watch or a poller |
| RouteTracker.RouteTracker.RefreshRouteLocked | core/route.go:93-121 | the snapshot is stored; the version steps exactly if that was asked for or something stored differs, the epoch on a reset; and a step is published, with the stamp it leaves, exactly while the route is watched |
| RouteTracker.RouteTracker.HandleWatchRoute | core/route.go:137-156 | a watch call refreshes, then takes effect unless a later number did, and answers with the stamp it leaves |
| RouteTracker.RouteTracker.StopRouteWatch | core/route.go:160-166 | a stop ends the watch under its own number |
| RouteRuns.StepKeepsInv | core/route.go:93-173 | every step of a refresh, a watch call, a stop or a dispatch keeps the stamps, the order of publishing, the settled flag and the one poller |
| RouteRuns.SameVersionSameRoute | core/route.go:93-113 | in every run, from the first refresh on, two refreshes that leave the same version read the same picks, provider versions and rule sets, as did every one between; versions and epochs never go back and an epoch moves only with a version |
| RouteRuns.VersionStepsExactlyOnMoves | core/route.go:98-113 | the version steps exactly if the refresh was asked to or read something else than the one before |
| RouteRuns.PublishedInOrder | core/route.go:113-127 | versions are published in strict order |
| RouteRuns.PublishedExactly | core/route.go:93-121 | in every run the host has heard exactly the stamps of the refreshes that stepped the version while the route was watched, in order, but for one about to be published |
| RouteRuns.RefreshPublishesExactly | core/route.go:93-127 | such a refresh publishes its stamp before the next one begins, and any other publishes nothing |
| RouteRuns.SameStampNoMove | core/route.go:208-230 | while the stamp a check was answered with is still current, no refresh since has seen a move |
| RouteRuns.LastRequestWins | core/route.go:137-166 | whatever order calls run in, once all have run the watch is as the one dispatched last asked |
| RouteRuns.OnePollerWhileWatched | core/route.go:147-173 | a poller runs exactly while watched, and never two |
| RouteRuns.StopEndsPolling | core/route.go:160-173 | right after a stop nothing is watched and no poller runs, whatever watch calls still wait |
| RouteExits.ExitThrough | core/route.go:247-259 | unwrapping stops at the outermost load balancer, or at the proxy that wraps no other, whenever it meets one |
| RouteExits.ExitEndsPath | core/route.go:247-259 | on a path that unwraps to a leaf that is the outermost load balancer of the path, or the leaf |
| RouteExits.ExitEndsExactly | core/route.go:247-259 | unwrapping ends if and only if the hops lead to such a proxy |
| RouteExits.SelfWrapNeverEnds | core/route.go:247-259 | a group that wraps itself is unwrapped forever |
| RouteExits.ExitOfChains | core/route.go:263-277 | the names are read from the end to the first load balancer, else the first name decides |
| RouteExits.ChainStopsAtNamedExit | core/route.go:263-277 | the chain tells what the table holds under the name of the first hop named like a load balancer, else of the leaf |
| RouteExits.ExitsAgreeExactly | core/route.go:247-277 | on every finite unwrap path and every table, both computations agree if and only if that hop stands, in the table, for the exit of the path |
| RouteExits.ExitsAgree | core/route.go:247-277 | so they agree on every path whose names resolve to its hops up to the exit |
| RouteExits.ExitsAgreeOnKnownHops | core/route.go:247-277 | in particular if every hop is the proxy its name stands for |
| RouteExits.ShadowedNameDisagrees | core/route.go:267-275 | a path on which they differ because a name stands for another proxy |
| RouteExits.CheckRoute | core/route.go:214-228 | one route is held exactly if it has hits and each leaves by its recorded exit, with remembered exits standing for fresh ones |
| RouteExits.HandleCheckRoutes | core/route.go:210-230 | remembering exits across routes decides as if each hit were resolved afresh; an empty route is never held |
| RunStateInvariants.StepKeepsInv | android/app/src/main/kotlin/com/follow/clash/ServiceStateMachine.kt:77-358 | every step of every start, stop and loss, each look at the intents or the runtime being a step of its own, keeps both locks, one transition at a time, a published state somebody will correct, and a service that is wanted or will be stopped |
| RunStateTheorems.RunsKeepInv | android/app/src/main/kotlin/com/follow/clash/ServiceStateMachine.kt:77-358 | every state of every run meets that invariant |
| RunStateTheorems.AtRest | android/app/src/main/kotlin/com/follow/clash/ServiceStateMachine.kt:216-325 | with nothing in flight what is shown is what runs: nothing after a stop or a failed start; after a start something unless lost since or crashed, and it was answered with success if and only if it did not crash |
| RunStateLaws.NewestRequestWins | android/app/src/main/kotlin/com/follow/clash/ServiceStateMachine.kt:216-325 | and with the newest start answered so and nothing lost since, the very service runs and is shown that the options asked for when that start read them |
| RunStateLaws.StartsWhatWasAsked | android/app/src/main/kotlin/com/follow/clash/ServiceStateMachine.kt:238-260 | in every state of every run: a newest start answered with success has the service of the option it read |
| RunStateLaws.AnsweredExactly | android/app/src/main/kotlin/com/follow/clash/ServiceStateMachine.kt:216-260 | a start that has ended was answered with success if and only if nothing turned it down: no refused or cancelled prompt, no crash, no newer request when it looked, options there, the host up |
| RunStateLaws.FailedOrSuperseded | android/app/src/main/kotlin/com/follow/clash/ServiceStateMachine.kt:228-236 | a start that gave up is answered as failed if it was the newest request then, and as superseded if it was not |
| RunStateLaws.TransitionsAreShown | android/app/src/main/kotlin/com/follow/clash/ServiceStateMachine.kt:296-316 | while a request has the host start the service the state is starting, and stopping while one has it stopped |
| RunStateLaws.OnlyOwnIntentIsDropped | android/app/src/main/kotlin/com/follow/clash/ServiceStateMachine.kt:82-93 | an intent is dropped by its own start alone, or by a loss observed under it |
| RunStateLaws.LossDropsIntent | android/app/src/main/kotlin/com/follow/clash/ServiceStateMachine.kt:78-93 | a loss that finds no service drops the intent it was observed under exactly if that is still the newest |
| RunStateLaws.StopClosesPrompt | android/app/src/main/kotlin/com/follow/clash/ServiceStateMachine.kt:277-286 | a stop that found itself the newest closes the open prompt, and its start is turned down |
| RunStateLaws.OnePromptAtATime | android/app/src/main/kotlin/com/follow/clash/ServiceStateMachine.kt:216-225 | never two VPN prompts at once |
| RunStateTheorems.CrashedStartStands | android/app/src/main/kotlin/com/follow/clash/ServiceStateMachine.kt:147-160 | a start that crashes there leaves its intent standing with nothing running |
| RunStateTheorems.NoServiceIsLeftUnasked | android/app/src/main/kotlin/com/follow/clash/ServiceStateMachine.kt:228-293 | at every moment, if a service runs that nobody asks for, something in flight is going to stop it |
| RunStateTheorems.OneTransitionAtATime | android/app/src/main/kotlin/com/follow/clash/ServiceStateMachine.kt:249-316 | never two transitions at once |
| RunStateTheorems.SomeTaskCanMove | android/app/src/main/kotlin/com/follow/clash/ServiceStateMachine.kt:216-293 | the two locks cannot deadlock |
| RunStateTheorems.MovesAreBounded | android/app/src/main/kotlin/com/follow/clash/ServiceStateMachine.kt:216-316 | without new requests everything in flight ends after a bounded number of steps |
| RunStateTheorems.MovesEndQuiescent | android/app/src/main/kotlin/com/follow/clash/ServiceStateMachine.kt:216-316 | and when no step is left, nothing is in flight |
| ServiceController.ServiceController.Start | android/app/src/main/kotlin/com/follow/clash/ServiceController.kt:73-115 | a start that reports success leaves a run of the service asked for, keeping the time of a run that goes on; one that fails leaves no run, no binding and closed listeners, and no service that did not run before unless its clean-up failed; it succeeds exactly if the service is reached and starts; both outcomes are what the state machine assumes of its host |
| ServiceController.ServiceController.Stop | android/app/src/main/kotlin/com/follow/clash/ServiceController.kt:117-141 | a stop ends the run and unbinds, and leaves no service running but one that neither its own stop nor the system ended, whether or not a service is bound |
| ServiceController.ServiceController.Release | android/app/src/main/kotlin/com/follow/clash/ServiceController.kt:39-49 | letting go of a run unbinds the service and closes the listeners |
| ServiceController.ServiceController.TearDownServices | android/app/src/main/kotlin/com/follow/clash/ServiceController.kt:122-141 | both services are asked to stop, whatever fails, and nothing is bound |
| ServiceController.ServiceController.HandleServiceDisconnected | android/app/src/main/kotlin/com/follow/clash/ServiceController.kt:143-161 | a disconnection ends the run exactly if it comes from the current binding |
| YamlGraph.ResolveAlias | core/profile_base.go:242-247 | following aliases ends at the node they stand for |
| AliasInlining.InliningKeepsMeaning | core/profile_base.go:339-357 | replacing aliases by their nodes and dropping anchors changes the unfolding of no node, to no depth |
| AliasInlining.WalkGoesDown | core/profile_base.go:342-355 | each child has fewer anchors ahead, or less structure between anchors |
| AliasInlining.Walk | core/profile_base.go:342-355 | a walk finishes its node and every node it visits: no anchor, no alias among the children, and the children finished too |
| AliasInlining.InlineAliases | core/profile_base.go:337-357 | on every graph whose cycles pass through anchored nodes the walk ends, no alias and no anchor is left in reach, and every node means what it meant |
| MappingLookup.MappingValue | core/profile_base.go:177-206 | whenever the look-up ends, on mappings that merge themselves too: the value of a key is that of the first pair of this name, else the first the merged mappings give in their order, at any depth |
| MappingLookup.MoreFuel | core/profile_base.go:177-206 | that value does not depend on how many nested look-ups are allowed |
| MappingLookup.OwnPairEnds | core/profile_base.go:177-190 | a key of the mapping's own is found whatever it merges |
| LookupOrder.OwnPairIsFirst | core/profile_base.go:179-190 | the value of a key of the mapping's own is that of the first pair of this name |
| LookupOrder.FirstItemWins | core/profile_base.go:191-205 | else that of the first item, in the order of the merge keys and of the items of each, that stands for a mapping with the key |
| LookupOrder.MergedValueExactly | core/profile_base.go:191-205 | a merged key has a value if and only if it is that of such an item |
| LookupOrder.LaterItemLoses | core/profile_base.go:193-203 | and never that of an item behind one that gives another |
| LookupEnds.SelfMergeNeverEnds | core/profile_base.go:191-205 | in a mapping that merges itself and has nothing else no look-up ends |
| LookupEnds.AbsentKeyEndsExactly | core/profile_base.go:191-205 | looking for a key that is nowhere to be found ends if and only if no mapping met on the way merges itself, even by way of others |
| LookupEnds.AllEndExactly | core/profile_base.go:191-205 | all look-ups of such a key end if and only if one rank goes down with every merge |
| LookupEnds.RankedEnds | core/profile_base.go:177-206 | where no mapping merges itself the look-up of every key ends |
| MappingSet.SetMappingValue | core/profile_base.go:208-220 | the first pair of this text gets the value, or a new pair at the end |
| MappingSet.SetReadsBack | core/profile_base.go:177-220 | a key that was set reads as set, unless its text is first met as a merge key |
| MappingSet.SetReadsBackExactly | core/profile_base.go:177-220 | for a value that nothing merged gives the key yet, it reads as set if and only if that is not so |
| MappingSet.HijackedSectionIsLost | core/profile_base.go:185-214 | an overlay in which a section is lost this way, and with it a key the merge key gave |
| MappingSet.OthersAfterSet | core/profile_base.go:177-220 | what every other key then reads as, and whether reading it ends, a hijacked set included: the same as if the value had only taken the place of that merge value |
| MappingSet.PutReads | core/profile_base.go:177-220 | after any number of keys were set: those not first met as merge keys read as set, and everything else as if the values of the others had only taken the places of merge values |
| MappingSet.SetKeepsOthers | core/profile_base.go:177-220 | every other key reads as before, and its look-up ends as before, through merge keys too, unless the set took the place of a merge value and the key has no pair of its own |
| MappingSet.ReadsElsewhere | core/profile_base.go:177-206 | a mapping that does not merge the changed one reads as before |
| ProfileMerge.AppendRules | core/profile_base.go:222-240 | the rules are the added ones followed by the profile's; it fails exactly if both have something and one of them is no list |
| ProfileMerge.DocumentMapping | core/profile_base.go:163-175 | a document's top mapping, an empty one for an empty document, and none exactly if something else is on top |
| SectionMerge.TakeKeys | core/profile_base.go:145-149 | each key the profile has becomes a pair of the overlay with the profile's value, or takes the place of the merge key's value it is first met as; every other pair and every name stays |
| SectionMerge.MergedReads | core/profile_base.go:145-149 | where nothing is so met, each of these keys reads as put, and everything else as in the overlay, through merge keys too |
| SectionMerge.OwnPairReads | core/profile_base.go:145-149 | whatever happens to other keys, one that is not so met reads as the profile's, and a pair the profile does not bring reads as before |
| SectionMerge.SectionReadsExactly | core/profile_base.go:145-220 | a section the profile has reads as in the profile if and only if its key is not first met as the text of a merge key, or the overlay with the profile's sections in the places of such merge values gives that node for the key |
| SectionMerge.HijackedSectionSurvivesExactly | core/profile_base.go:145-220 | the latter said of the two documents alone, where the overlay does not merge itself: it has no pair of the key, and the nodes it merges, with the sections in their places, give that node first |
| SectionMerge.HijackedSectionSurvives | core/profile_base.go:145-220 | two documents with which both sections are so met and one gives the other back |
| MergeOrder.RankedMergesEnd | core/profile_base.go:145-150 | all look-ups of the merge end where no mapping merges itself |
| MergeOrder.OwnPairsEnd | core/profile_base.go:145-150 | and, whatever merges itself, where the profile has its sections and both have rules of their own |
| MergeOrder.PutIsAcyclic | core/profile_base.go:208-220 | setting keys to what is below the mapping makes no document contain itself |
| ProfileMerge.MergeMappings | core/profile_base.go:121-161 | the whole merge, of any two documents on which its look-ups end: failure exactly on rules that cannot be put together; every key as put, or as the overlay gives it with what was hijacked in the places of merge values; sections from the profile, rules of both in order and the rest of the overlay where nothing is hijacked; no other node changed, and no document made to contain itself |
| ProfileMerge.KeysRead | core/profile_base.go:145-156 | what every single key reads as after the merge, and when reading it ends |
| ProfileMerge.MergedSectionExactly | core/profile_base.go:145-156 | the exact condition under which a section survives the whole merge, told from the two documents |
| ProfileMerge.CleanMerge | core/profile_base.go:145-156 | where nothing is hijacked: each section as in the profile, the rules of both in order, every other key as in the overlay |
| ProfileEncoding.EncodeSlices | core/profile_base.go:284-315 | the slices of a long list are together the list, each item once and in order, for every length, and none is empty or over 4096 items |
| ProfileEncoding.EncodePair | core/profile_base.go:295-315 | one pair is written and drained |
| ProfileEncoding.EncodeConfigMapping | core/profile_base.go:294-318 | each key goes out once, in order, with its value as it reads when its turn comes |
| ProfileEncoding.WrittenAsMeant | core/profile_base.go:288-318 | that is the value in the document, for every pair and to every depth, if and only if no list over 4096 items is in reach of a later pair and none has a tag of its own |
| ProfileEncoding.SharedListIsLost | core/profile_base.go:308-315 | a long list in reach of a later pair is missing there |
| ProfileEncoding.AliasedLongListIsShared | core/profile_base.go:294-318 | two keys of one list are such a document |
| ProfileEncoding.InlinedIsTidy | core/profile_base.go:268-277 | what the alias walk leaves is a document the output is about, unless it contains itself |
| DocumentEnds.FiniteExactly | core/profile_base.go:268-318 | what a node stands for has an end if and only if nothing it contains contains itself, aliases followed |
| ProfileBuild.WriteDocument | core/profile_base.go:268-277 | a document is written as its pairs stand for, aliases followed, if no long list is shared between keys and none has a tag |
| ProfileBuild.BuildProfile | core/profile_base.go:77-93 | merge, walk and output together: what is written reads as the merged mapping, and each section of the profile in it as it stood in the profile |
| RequestTraffic.RequestTrafficWatch.Add | core/request_traffic.go:43-56 | a request is watched from its opening totals on, and a runner is owed exactly if none runs |
| RequestTraffic.RequestTrafficWatch.Read | core/request_traffic.go:64-75 | the first pass counts the closed requests and lists once each what moved |
| RequestTraffic.RequestTrafficWatch.Store | core/request_traffic.go:76-82 | after a report was taken every request has the totals read |
| RequestTraffic.RequestTrafficWatch.Drop | core/request_traffic.go:83-87 | closed requests go once reported or out of retries |
| RequestTraffic.RequestTrafficWatch.Collect | core/request_traffic.go:58-90 | one tick does all that, and runs on exactly if something is still watched |
| TrafficRuns.StepKeepsInv | core/request_traffic.go:43-125 | every announcement, tick and clearing keeps the stored totals, the bound on retries and the one runner |
| TrafficRuns.StoredIsLastTold | core/request_traffic.go:58-90 | in every run the stored totals are those of the last report taken, or the opening ones |
| TrafficRuns.ReportsExactlyNews | core/request_traffic.go:64-75 | a collect reports a request exactly if what it reads differs from what the host last heard of it |
| TrafficRuns.LastReportIsComplete | core/request_traffic.go:76-87 | after a report was taken the host knows the totals that collect read, of the requests it let go too |
| TrafficRuns.SurvivesFirstCollect | core/request_traffic.go:27-30 | a request survives its first collect whatever that sees |
| TrafficRuns.ClosedIsLetGo | core/request_traffic.go:14-15 | once seen closed a request survives at most 5 collects, so the sixth lets it go |
| TrafficRuns.LetGoExactly | core/request_traffic.go:66-87 | a collect lets go of a request exactly if it was seen closed and its report was taken or the retries are used up |
| TrafficRuns.OneRunnerWhileWatching | core/request_traffic.go:99-125 | the watch says it runs exactly if one runner lives and something is watched, and there are never two |
| ProbeBody.ReadProbeBody | core/probe.go:357-379 | for any sizes of reads, what is returned is the front of the body, within the limit; it ends with the first read whose window makes the scan hit, or is all that the limit, the body and the reads allow |
| ProbeBody.WholeIsLimited | core/probe.go:357-379 | and that is the front of the body up to the limit, its end or what the reads brought |
| ProbeBody.StopsWithThePattern | core/probe.go:357-379 | a pattern of at most 257 bytes is in what was read if and only if it is in the whole limited body, and reading stops with the read that completes it |
| ProbeBody.LongerPatternsAreMissed | core/probe.go:366-371 | a longer pattern that comes in byte by byte is never noticed |
| ProbeBody.PatternIsKept | core/probe.go:357-379 | a pattern of any length is in what was read if and only if it is in the whole limited body |
| ProbeBody.SameCode | core/service_rules.go:67-87 | wherever the Gemini scan stops, the code there is that of the whole body, and no earlier read had it |
| ProbeBody.CodeExactly | core/service_rules.go:67-87 | the code is the three bytes right behind the first marker |
| ProbeBody.GeminiRegion | core/service_rules.go:67-87 | the code the check finds is that of the whole limited page |

## Left out

- mihomo itself, tunnels, proxies and providers: seen only as snapshots, paths and look-up functions.
- Share links, service and region rules other than Gemini's marker, delay tests, TLS, DNS, the UI plugins, the helper service and its installers: easy or foreign.
- Files, JSON, the text of YAML, comments, styles and line numbers: an encoder emits what its nodes stand for; a write error ends the output early and is not modelled. The text of Short-ID retagging (`retagShortIDs`) is left out with it.
- Decryption and parsing of a profile: a merge begins with two parsed documents in one heap, an alias pointing at a node that is no alias. `ProfileBuild` asks that no document contains itself.
- Integer widths: line numbers as i32 and stamps, numbers and counters as uint64 are unbounded; 2^31 lines and 2^64 steps are out of reach. The 32-bit frame length is modelled exactly.
- Real time: timers, deadlines and poll intervals fire at any moment.
- Coroutine cancellation, exceptions thrown by the Core or the Android system inside `ServiceController`, notifications, toasts and logs. A start in the state machine may still throw while its preferences are loaded or its service is started, with any run left behind.
- The early answer of `requestStart` when the run already is as asked (`ServiceStateMachine.kt` lines 124-126): no request is made there, so nothing changes.
- `publish` reads the transition, the runtime and the intent at one moment; the program reads them one after the other under its own monitor.
- `hasEventListener`: a send that nobody hears returns at once and touches no queue.
- The kinds of end-of-stream errors on either side of the IPC stream: an end between frames, inside one and before a payload are told apart, their names are not.
- The socket of the host, who may connect, and the events it emits: peers come one after the other, writes are cut off anywhere.
- ProfileMerge.MergeMappings: takes the two top mappings; no node of the profile's document is the overlay's top mapping or one of its entries, as with two parsed documents; stated where its look-ups end.
- Outbox.WriteNext: takes a frame and writes it in one step; sends that land while it writes are taken to come before or after, since they only add to the queue.
- RouteExits.ExitThrough: is stated where unwrapping ends; where it does not is said by `RouteExits.ExitEndsExactly`.
- MappingLookup.MappingValue: is stated where the look-up ends.
- RouteExits.HandleCheckRoutes: `resolveExit` is one function for the whole check; that nothing moved meanwhile is what the stamp tells.
- RouteRuns.SameStampNoMove: speaks of moves that some refresh saw; a move that no refresh has read yet is not in any stamp.
- IndentFolding.IndentFolds: lines are values, the rope and its locks are left out.
