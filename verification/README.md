# Verification of the stateful cores

This project models six stateful parts of the repository in Dafny 4.11 and proves what they keep: the
streaming parser that turns model output into text, shell commands and code; the protocol by which
requests share model slots; the resumable download manager; the scanners that detect, repair and
extract JSON; the agent's tool and cancellation steps; and the algorithms that choose what to remove,
what to download and what to cache.

`dafny verify dfyconfig.toml` checks everything.

| file | what it models |
|---|---|
| `ToolEmulation.dfy` | fence lines and the batch parser: one step on a configuration, draining, feeding, flushing |
| `ChunkInvariance.dfy` | chunks do not matter up to 256 KiB, and exactly when they do beyond; no text lost or doubled |
| `RecognisedLines.dfy` | which lines of a text are taken for more than text, said of the text alone |
| `PieceMeaning.dfy` | why each piece of a stream became text, a command or code |
| `ActionMeaning.dfy` | what the parser emits, as the only reading of the text in lines and blocks |
| `StreamingParser.dfy` | `StreamingEmulatorParser` as a class, proved to be the batch parser |
| `ModelSlots.dfy` | the slot protocol as interleaved atomic steps over any number of tasks and slots |
| `ModelLoss.dfy` | when a loaded model is lost before its request can generate |
| `RequestRuns.dfy` | why a request ends without generating, and which locks it takes on the way |
| `DownloadTransfer.dfy` | the retry and resume loop over a disk and a server that may answer anything, with a log of the answers |
| `DownloadManager.dfy` | the status map as a class, and every interleaving of calls and background tasks over it |
| `StrandedDownloads.dfy` | entries that block their model for ever, and what leads to them |
| `ModelDownloads.dfy` | the tasks of `management.rs` and `hf_models.rs` that write entries past the manager |
| `JsonRepair.dfy` | the truncation detector, the repairer and the control-character escaper |
| `JsonStrings.dfy` | what the text of a JSON string stands for (RFC 8259, section 7), and that escaping keeps it |
| `ToolArguments.dfy` | unwrapping and parsing tool-call arguments |
| `StructuredSummary.dfy` | the brace-balanced object finder and the candidates of a compaction response |
| `CandidateOrder.dfy` | which candidates there are and in which order they are tried |
| `AgentLoop.dfy`, `Cancellation.dfy` | the turn, its requests, and what a cancellation answers |
| `ToolOperation.dfy` | which requests the tools step answers, and with what |
| `AgentMachine.dfy` | the steps and runs of the state machine, with a token that may be cancelled between any two checks |
| `InferenceEnds.dfy` | what an inference leaves in the conversation, however it ends |
| `CompactionWindow.dfy` | middle-out removal of tool responses and the retry ladder |
| `ModelVariants.dfy`, `VariantTwins.dfy` | advertised and resolved model variants, and where they differ |
| `CacheBreakpoints.dfy` | prompt-cache breakpoints |
| `NameOrder.dfy`, `FiniteSets.dfy`, `Wrappers.dfy` | the order of names and sorting, counting in sets, what all modules share |

A class stands for a Rust object that is updated in place; a method with a loop stands for a Rust
function with one, and is proved equal to a function or to a relation about which the lemmas then
speak. What the Markdown library, `serde_json`, the file names, the network and the scheduler decide
is a parameter, an arbitrary function, or an arbitrary choice, so every statement holds for all of
their answers.

## What the code does not keep

Each of these is a promise that fails on a concrete input, given by a lemma, together with the exact
condition under which it holds.

- Chunking matters beyond 256 KiB: a text given as one chunk loses the Markdown context before any of
  it is read (`ChunkInvariance.LongTextsDependOnTheirChunks`). The actions agree with those of one
  chunk exactly when no complete line before the cut is a top-level `$` line or, in code mode, a
  top-level execute fence, as far as the parse budget reaches
  (`RecognisedLines.ChunksMatterExactlyWhenALineIsRecognised`).
- A cancelled run can end with a tool request that nobody answers: when the cancellation lands after
  the last check of the inference (`AgentMachine.LateCancellationLeavesARequestOpen`), in a tools step
  that leaves the requests of other tools (`AgentMachine.CancelledToolsLeaveARequestOpen`), or while
  the inference lists the tools (`AgentMachine.CancelledListingLeavesARequestOpen`). It does so
  exactly in these cases, if an id is open there, and in an operation with the default `cancel`
  (`AgentMachine.CancelledRunLeavesAnIdOpenExactlyWhen`); between which checks the cancellation then
  landed is said by `AgentMachine.OnlyTheLastGapIsBlind` and
  `AgentMachine.SeenExactlyWhenCancelledInside`.
- The tools step can be taken twice in a row (`AgentMachine.ToolsStepCanBeTakenTwice`): exactly when
  the cancellation lands while the second step lists the tools and a request is still pending
  (`AgentMachine.ToolsStepTwiceExactlyWhen`).
- A directory that cannot be created leaves an entry that blocks its model for ever
  (`StrandedDownloads.FailedDirectoryStrands`). An entry gets into that state exactly by such a
  failure, by a reservation that nobody works on, or by cancelling an entry that ended without being
  marked exited (`StrandedDownloads.StrandedExactlyWhen`); the state is exactly that of never being
  freed (`StrandedDownloads.StrandedExactlyWhenNeverFreed`), unless somebody writes the entry directly
  (`StrandedDownloads.DirectWriteFreesExactlyWhen`).
- Two tasks can download one model at the same time (`ModelDownloads.TwoDownloadsOfOneModel`): a model
  has at most one task exactly when no reservation falls between `complete` or `fail` and the last
  mark of a task (`ModelDownloads.OneTaskExactlyWhenNoneInTheGap`).
- A request that has loaded its model can lose it before it generates, to an eviction or to another
  request's load (`ModelLoss.EvictionTakesTheModel`, `ModelLoss.AnotherLoadTakesTheModel`). It
  generates exactly when every unloading or eviction of its slot in between is followed by another
  load into it (`ModelLoss.GeneratesExactlyWhen`). Any request that ends has generated, unless its client
  was gone, its load failed, or its slot held no model when it locked it to generate
  (`RequestRuns.EndsWithoutGeneratingExactlyWhen`).
- Shards advertised as a complete set are refused when their names do not sort as their numbers do
  (`VariantTwins.CompleteShardsCanBeRefused`, `ModelVariants.AdvertisedResolvesExactlyWhen`).
- With tags that differ in case only, what is resolved can be another file than the one advertised
  (`VariantTwins.TwinIsResolvedInstead`, `VariantTwins.SingleTwinIsResolvedInstead`); a single file is
  resolved as advertised exactly when it is the plainest of them, and shards exactly when no other tag
  has a single file or shards that are not behind theirs
  (`VariantTwins.SingleResolvesAsAdvertisedExactlyWhen`,
  `VariantTwins.ShardsResolveAsAdvertisedExactlyWhen`).
- Removing 100 percent of the tool responses keeps the last one when their number is odd
  (`CompactionWindow.OneResponseStays`), although the error at `summarize.rs:171-173` then says that all
  were removed (`CompactionWindow.HundredPercentDropsAllExactlyWhenEven`,
  `CompactionWindow.ExhaustedPromptHoldsToolResponsesExactlyWhenOdd`).
- Escaping control characters can give a meaning to a text that has none
  (`JsonStrings.EscapingCanGiveAMeaning`): exactly when a backslash stands before a raw control
  character in it and nothing else is wrong with it (`JsonStrings.EscapingKeepsTheMeaningExactlyWhen`).

## Model

| member | source | states |
|---|---|---|
| ToolEmulation.ExecuteFenceLenIsSound | crates/indra-local-inference/src/tool_emulation.rs:154-171 | an opening length `n` is answered only for lines of the CommonMark 4.5 shape with `n >= 3` backticks and the info string `execute_typescript` |
| ToolEmulation.ExecuteFenceLenIsComplete | crates/indra-local-inference/src/tool_emulation.rs:154-171 | and for every such line |
| ToolEmulation.IsClosingFenceIsSound | crates/indra-local-inference/src/tool_emulation.rs:173-188 | an accepted closing line has at most three spaces, at least the minimum of backticks and only blanks after them |
| ToolEmulation.IsClosingFenceIsComplete | crates/indra-local-inference/src/tool_emulation.rs:173-188 | and every such line is accepted |
| ToolEmulation.ClosingFenceRange | crates/indra-local-inference/src/tool_emulation.rs:235-270 | the loop over a moving line start finds what the recursive search finds |
| ToolEmulation.ClosingFenceIsFirst | crates/indra-local-inference/src/tool_emulation.rs:235-270 | the range found starts at a line start, its line closes, and no earlier line does |
| ToolEmulation.ClosingFenceExtends | crates/indra-local-inference/src/tool_emulation.rs:241-268 | a closing line found while text is still to come stays the one found when more text arrives |
| ChunkInvariance.StepExtends | crates/indra-local-inference/src/tool_emulation.rs:336-402 | a turn of the loop does the same when more text follows in the buffer |
| ChunkInvariance.FeedAllIsBatch | crates/indra-local-inference/src/tool_emulation.rs:331-405 | feeding chunks is parsing the whole text at once, the context being dropped at the last chunk boundary within 256 KiB |
| ChunkInvariance.StreamIsBatch | crates/indra-local-inference/src/tool_emulation.rs:284-405 | the same for a fresh parser with any grammar |
| ChunkInvariance.ChunksDoNotMatter | crates/indra-local-inference/src/tool_emulation.rs:284-467 | up to 256 KiB, the actions of all chunks and the flush are those of the text given as one chunk |
| RecognisedLines.PlainExactlyWhenNoneRecognised | crates/indra-local-inference/src/tool_emulation.rs:359-400 | a text is text throughout if and only if none of its complete lines is, at its place and within the bytes left of the parse budget, an execute fence in code mode or a `$` line |
| RecognisedLines.ChunksMatterExactlyWhenALineIsRecognised | crates/indra-local-inference/src/tool_emulation.rs:284-304 | beyond 256 KiB, the actions are those of one chunk if and only if no complete line before the cut is so recognised |
| ChunkInvariance.LongTextsDependOnTheirChunks | crates/indra-local-inference/src/tool_emulation.rs:284-295 | a text for which they are not |
| ChunkInvariance.NothingLostNothingDoubled | crates/indra-local-inference/src/tool_emulation.rs:331-467 | the pieces of a stream, end to end, are the text fed, for every text and chunking |
| ChunkInvariance.DrainWithoutContext | crates/indra-local-inference/src/tool_emulation.rs:325-329 | draining without the context, outside a block, gives text only and stays there |
| ChunkInvariance.WithoutContextEverythingIsText | crates/indra-local-inference/src/tool_emulation.rs:325-405 | once the context is gone outside a block, everything that follows, flush included, is verbatim text |
| ChunkInvariance.OneLongChunkIsText | crates/indra-local-inference/src/tool_emulation.rs:284-295 | more than 256 KiB in one chunk comes back as text |
| PieceMeaning.EveryPieceIsJustified | crates/indra-local-inference/src/tool_emulation.rs:336-467 | in every stream a command is a `$` line at a top-level paragraph, a fence opens only in code mode at a top-level execute fence, code is what precedes the first closing line, at the end of the stream all of the rest if there is none, and text is one line; each judged on all the text before it |
| PieceMeaning.TextIsWhatIsNotRecognised | crates/indra-local-inference/src/tool_emulation.rs:359-400 | as long as the context lasts, the converse too: a line that is text is neither a top-level execute fence in code mode nor a `$` line at a top-level paragraph |
| PieceMeaning.LastLineIsTextExactlyWhen | crates/indra-local-inference/src/tool_emulation.rs:407-466 | a last line without line end is text if and only if it is neither, context and budget lasting |
| ActionMeaning.FencesOfTheParser | crates/indra-local-inference/src/tool_emulation.rs:154-188 | a line opens a block exactly if it has at most three spaces, a run of three or more backticks and `execute_typescript` between blanks, and closes one exactly if it has at least as many backticks and nothing but blanks |
| ActionMeaning.StreamIsRead | crates/indra-local-inference/src/tool_emulation.rs:273-467 | what a stream emits is a reading of its text: a closed block that is not blank gives one `ExecuteCode` of the lines in it without the last line end, a block open at the end one of its trimmed rest, a recognised `$` line one `ShellCommand` of what follows, trimmed, if that is not empty, an opening line nothing, and every other line `Text` of itself; a line is recognised by the two Markdown predicates on all text up to it, within 1 MiB of bytes asked and up to the cut |
| ActionMeaning.CutIsACut | crates/indra-local-inference/src/tool_emulation.rs:284-295 | the cut is the last end of a chunk within 262144 bytes |
| ActionMeaning.OneReading | crates/indra-local-inference/src/tool_emulation.rs:331-467 | a text has one reading only, so nothing else can be emitted |
| ActionMeaning.ChunkIsRead | crates/indra-local-inference/src/tool_emulation.rs:331-405 | from any state of the parser on, a chunk gives the reading of what is taken from the buffer |
| ActionMeaning.FlushIsRead | crates/indra-local-inference/src/tool_emulation.rs:407-466 | and a flush that of all that is left, to its end |
| StreamingParser.StreamingEmulatorParser.constructor | crates/indra-local-inference/src/tool_emulation.rs:273-282 | a fresh parser is the initial configuration |
| StreamingParser.StreamingEmulatorParser.AppendMarkdownContext | crates/indra-local-inference/src/tool_emulation.rs:284-294 | the context survives exactly while all that was received fits 256 KiB, and then is all of it |
| StreamingParser.StreamingEmulatorParser.ConsumeMarkdownParseBudget | crates/indra-local-inference/src/tool_emulation.rs:296-304 | bytes are granted exactly within the budget, a refusal disables the context, and what was granted plus what is left never exceeds 1 MiB |
| StreamingParser.StreamingEmulatorParser.DisableMarkdownEmulation | crates/indra-local-inference/src/tool_emulation.rs:325-329 | only the context and the budget are dropped |
| StreamingParser.StreamingEmulatorParser.MarkdownMatches | crates/indra-local-inference/src/tool_emulation.rs:306-323 | the predicate is asked about the prefix of all text received, within the budget |
| StreamingParser.StreamingEmulatorParser.Turn | crates/indra-local-inference/src/tool_emulation.rs:336-402 | one turn of the loop is one step of the batch parser; what it takes from the buffer and emits is one stretch of a reading of the text |
| StreamingParser.StreamingEmulatorParser.CloseBlock | crates/indra-local-inference/src/tool_emulation.rs:338-358 | the block consumed is the lines up to the first closing line and that line; emitted is one `ExecuteCode` of the former without the last line end, or nothing if that is blank |
| StreamingParser.StreamingEmulatorParser.ProcessLine | crates/indra-local-inference/src/tool_emulation.rs:359-400 | a line becomes a fence, a command or text as in the batch parser |
| StreamingParser.StreamingEmulatorParser.ProcessChunk | crates/indra-local-inference/src/tool_emulation.rs:331-405 | the actions are the reading of what is taken from the buffer, no complete line and no closed block stays behind, and the new state is that of the batch parser |
| StreamingParser.StreamingEmulatorParser.Flush | crates/indra-local-inference/src/tool_emulation.rs:407-466 | the actions are the reading of all that is left, a block still open giving its trimmed rest, and the parser is fresh again |
| StreamingParser.ParseChunks | crates/indra-local-inference/src/tool_emulation.rs:273-467 | a new parser fed any chunks and flushed emits the one reading of the whole text, with the context up to the last chunk end within 256 KiB; up to that size, the actions are those of the text given as one chunk |
| ModelSlots.RunKeepsInvAlways | crates/indra-local-inference/src/lib.rs:155-168 | every state of every run of any tasks over any slots satisfies the invariant of locks, slots and waiting |
| ModelSlots.OneModelAtATime | crates/indra-local-inference/src/lib.rs:855-965 | at most one slot is loaded, at most one is loading, and a loading one is loaded into by the holder of the cold-load lock |
| ModelSlots.LoadsAlone | crates/indra-local-inference/src/lib.rs:894-915 | while the backend loads, every other slot is empty |
| ModelSlots.InnerLoadingBranchIsUnreachable | crates/indra-local-inference/src/lib.rs:867-878 | under the cold-load lock the own slot is never `Loading` |
| ModelSlots.NotEmptiedWhileGenerating | crates/indra-local-inference/src/lib.rs:983-991 | whatever any task does, the slot of a generating task stays loaded |
| ModelSlots.WaitForIsAcyclic | crates/indra-local-inference/src/lib.rs:855-965 | whoever waits for another has a higher rank, so waiting has no cycle |
| ModelSlots.NoSlotLockWhileWaitingForCold | crates/indra-local-inference/src/lib.rs:864-868 | no slot lock is held while waiting for the cold-load lock |
| ModelSlots.NoWakeupIsLost | crates/indra-local-inference/src/lib.rs:859-863 | an un-notified waiter waits for a slot still loading, with its loader alive, although line 899 empties loaded slots without notifying |
| ModelSlots.LeavingLoadingNotifies | crates/indra-local-inference/src/lib.rs:886-960 | the step in which a slot stops loading notifies every waiter of it |
| ModelSlots.NoDeadlock | crates/indra-local-inference/src/lib.rs:855-991 | as long as a task is unfinished, some task can take a step |
| ModelLoss.ModelComesAndGoes | crates/indra-local-inference/src/lib.rs:894-960 | a slot loses its model exactly in a step that unloads or evicts it, and gets one exactly in the step that stores it |
| ModelLoss.LosesItsModelExactlyWhen | crates/indra-local-inference/src/lib.rs:220-242 | while a request waits for the lock to generate, a step takes its model away if and only if it unloads or evicts that slot |
| ModelLoss.LoadedLaterExactlyWhen | crates/indra-local-inference/src/lib.rs:855-991 | in every run, a slot that was loaded is loaded later if and only if each emptying in between is followed by a storing |
| ModelLoss.GeneratesExactlyWhen | crates/indra-local-inference/src/lib.rs:955-991 | a request that stored its model and comes to lock its slot generates if and only if each emptying of the slot in between is followed by a storing; otherwise it ends |
| RequestRuns.EndsWithoutGeneratingExactlyWhen | crates/indra-local-inference/src/lib.rs:855-991 | in every run, a request that has ended did not generate if and only if one of its steps found the client gone as it announced the load, the load failing, or no model in the slot as it locked it to generate |
| RequestRuns.NextLockTaken | crates/indra-local-inference/src/lib.rs:855-991 | a request whose first look, or look under the cold lock, finds its slot loaded next locks it to generate; one that finds it loading looks again; one that finds it empty looks again under the cold lock, and then loads or gives up; after a storing it locks the slot to generate |
| RequestRuns.FirstStepIsCheck | crates/indra-local-inference/src/lib.rs:855-857 | the first step of a request is a look at its slot |
| RequestRuns.WaitsForTheLoad | crates/indra-local-inference/src/lib.rs:859-863 | a request that finds its slot loading takes its next step only after the slot has left that state |
| ModelLoss.EvictionTakesTheModel | crates/indra-local-inference/src/lib.rs:220-242 | a run from the empty runtime in which a request loads its model, an eviction takes it, and the request ends without generating |
| ModelLoss.AnotherLoadTakesTheModel | crates/indra-local-inference/src/lib.rs:894-901 | a run in which another request's load takes it |
| DownloadTransfer.Remote.Get | crates/indra-download-manager/src/lib.rs:474-505 | any answer; 416 only to a Range request; an honest server answers 206 and 200 as RFC 9110 says |
| DownloadTransfer.ReceiveBody | crates/indra-download-manager/src/lib.rs:573-631 | what a completed stream appended is the concatenation of its chunks, and file and running total grow by as much |
| DownloadTransfer.Attempt | crates/indra-download-manager/src/lib.rs:474-653 | one request is lost for good exactly if it is refused or a look finds the cancellation, and to be tried again exactly if it fails for now; after a 416 the file is complete exactly if it has the size announced; whatever has arrived is kept behind what was there, unless the server starts over, and from an honest server it stays a prefix of the file |
| DownloadTransfer.Prepare | crates/indra-download-manager/src/lib.rs:439-466 | the file is complete at once exactly if it has the size that the server announces; an oversized one is dropped and uncounted, any other kept |
| DownloadTransfer.Transfer | crates/indra-download-manager/src/lib.rs:468-654 | the loop of attempts: the same condition for failure, and the running total moves with the file |
| DownloadTransfer.DownloadOneFile | crates/indra-download-manager/src/lib.rs:425-658 | over the log of its answers and looks: it fails if and only if a look found the download cancelled, an answer had an error status other than 408, 416, 429 and 5xx, or exactly 11 answers failed for now, so an honest server with fewer gives the file; at most 22 requests, only this file touched, running total equal to the bytes on disk; from an honest server and a partial file that was a prefix, success leaves exactly the server's file and failure at most a prefix of it |
| DownloadTransfer.PreScan | crates/indra-download-manager/src/lib.rs:381-394 | the initial total is the bytes held for every file |
| DownloadTransfer.DownloadFilesSequentially | crates/indra-download-manager/src/lib.rs:380-422 | finished files are left alone, files fetched are the server's, and on success the total is the bytes held and every file is there; a failure has one of the three causes of a file |
| DownloadTransfer.TotalWithout | crates/indra-download-manager/src/lib.rs:460-466 | changing one file changes the total by what changed in it, so nothing that is subtracted saturates |
| DownloadTransfer.TotalOfFinished | crates/indra-download-manager/src/lib.rs:380-421 | the total of finished files is the sum of their sizes |
| DownloadManager.Manager.SetProgress | crates/indra-download-manager/src/lib.rs:120-124 | the entry is the one given, whatever was there |
| DownloadManager.Manager.ReserveDownload | crates/indra-download-manager/src/lib.rs:126-142 | reserves exactly when there is no entry that is downloading or cancelled without being exited; then the entry is the one given, and no other entry changes |
| DownloadManager.Manager.UpdateProgress | crates/indra-download-manager/src/lib.rs:144-150 | an entry that is there is replaced by its update, none is made, and no other entry changes |
| DownloadManager.Inserted | crates/indra-download-manager/src/lib.rs:132-142 | an insertion touches no other model, and afterwards the model is blocked exactly if it was or the new entry blocks |
| DownloadManager.WithCancelled | crates/indra-download-manager/src/lib.rs:152-164 | after a cancellation a model is blocked exactly as long as its entry is not marked exited; no other model is touched |
| DownloadManager.WithFailure | crates/indra-download-manager/src/lib.rs:297-305 | a reported failure frees the model, keeps a cancelled entry cancelled and touches no other model |
| DownloadManager.Cleared | crates/indra-download-manager/src/lib.rs:660-671 | clearing never changes whether a model is blocked |
| DownloadManager.Manager.StartDownload | crates/indra-download-manager/src/lib.rs:221-252 | starts under the same condition, with an entry that is downloading, not exited and without an error |
| DownloadManager.Manager.CancelDownload | crates/indra-download-manager/src/lib.rs:152-164 | an entry keeps all but its status, which becomes cancelled; reports whether there is one |
| DownloadManager.Manager.ReportSuccess | crates/indra-download-manager/src/lib.rs:277-285 | an entry becomes completed and exited and keeps its error; none is made, and no other entry changes |
| DownloadManager.Manager.ReportFailure | crates/indra-download-manager/src/lib.rs:297-305 | an entry becomes exited with the error given, cancelled if it was and failed if not; no other entry changes |
| DownloadManager.Manager.ClearCompleted | crates/indra-download-manager/src/lib.rs:660-671 | removes the entry exactly if it is exited and not downloading, and changes no other |
| DownloadManager.RunKeepsInv | crates/indra-download-manager/src/lib.rs:126-311 | every state of every interleaving keeps the entries of live downloads, one per model |
| DownloadManager.AtMostOneDownloadPerModel | crates/indra-download-manager/src/lib.rs:221-308 | a model has at most one live download, and its entry is there, not exited, and downloading or cancelled |
| DownloadManager.LiveEntryIsLeftAlone | crates/indra-download-manager/src/lib.rs:276-308 | no move removes or restarts the entry of a live download, and a cancelled one never ends failed |
| DownloadManager.FailureLeavesExactlyWhatItFailedToRemove | crates/indra-download-manager/src/lib.rs:291-306 | when a failure is reported, a partial file of the download is there if and only if its removal failed |
| DownloadManager.NoPartialFileWithoutDownload | crates/indra-download-manager/src/lib.rs:267-308 | and none comes back before the model is downloaded again |
| StrandedDownloads.FailedDirectoryStrands | crates/indra-download-manager/src/lib.rs:254-261 | the run of three states: started, and a directory that cannot be created leaves a blocking entry without a download |
| StrandedDownloads.StrandedExactlyWhenNeverFreed | crates/indra-download-manager/src/lib.rs:126-311 | an entry is in that state if and only if it blocks its model whatever is called and whatever the tasks do; every other entry can be freed |
| StrandedDownloads.MoveStrandsExactlyWhen | crates/indra-download-manager/src/lib.rs:126-261 | a move strands a model exactly if it is a failure of its directory, a reservation that is accepted and blocks, or a cancellation of an entry that ended without being exited |
| StrandedDownloads.StrandedExactlyWhen | crates/indra-download-manager/src/lib.rs:126-311 | in every run, an entry is stranded if and only if it was from the start or one of these moves came |
| StrandedDownloads.DirectWriteFreesExactlyWhen | crates/indra-download-manager/src/lib.rs:120-150 | a direct write ends it if and only if the written entry is exited or does not block |
| StrandedDownloads.StrandedForever | crates/indra-download-manager/src/lib.rs:126-164 | it stays so through every further move |
| ModelDownloads.ActKeepsOneTask | crates/indra-local-inference/src/management.rs:136-182 | from a state with at most one task for the model, an act leads to a second one if and only if it is a reservation accepted between `complete` or `fail` and the last mark; before that a task's entry blocks the model |
| ModelDownloads.OneTaskExactlyWhenNoneInTheGap | crates/indra-local-inference/src/hf_models.rs:2651-2676 | in every run, a model has at most one task in every state if and only if no reservation falls into that gap |
| ModelDownloads.TwoDownloadsOfOneModel | crates/indra-local-inference/src/management.rs:662-666 | a run in which the last mark of a finished task lets a third one in beside the second |
| JsonRepair.LooksTruncated | crates/indra-provider-types/src/json.rs:129-167 | the loop on the trimmed text answers whether the text has a mismatched closer or owes anything |
| JsonRepair.TruncatedIgnoresTrailingWhitespace | crates/indra-provider-types/src/json.rs:130-133 | trailing white space does not change the answer |
| JsonRepair.RepairTruncatedJson | crates/indra-provider-types/src/json.rs:29-75 | the loop appends exactly what the scan of the text owes |
| JsonRepair.RepairLeavesCompleteTexts | crates/indra-provider-types/src/json.rs:29-75 | a text that is not truncated is returned as it is |
| JsonRepair.RepairCompletesUnlessMismatched | crates/indra-provider-types/src/json.rs:29-75 | the repaired text is not truncated if and only if the text has no mismatched closer |
| JsonRepair.RepairAppendsTheLeast | crates/indra-provider-types/src/json.rs:63-72 | no completion of the text is shorter than the repaired text |
| JsonRepair.MismatchIsForever | crates/indra-provider-types/src/json.rs:155-161 | no suffix makes a mismatched text complete |
| JsonRepair.JsonEscapeControlCharsInString | crates/indra-provider-types/src/json.rs:91-121 | the loop escapes each character on its own |
| JsonRepair.EscapeKeepsScan | crates/indra-provider-types/src/json.rs:91-121 | escaping changes neither what the scan ends in nor whether a closer mismatches |
| JsonRepair.EscapingCommutesWithRepair | crates/indra-provider-types/src/json.rs:13-24 | repairing the escaped text appends the suffix that repairing the text appends |
| JsonRepair.EscapedHasNoControlChars | crates/indra-provider-types/src/json.rs:94-110 | an escaped text has no control character |
| ToolArguments.WrappedTextIsPartOfTheArguments | crates/indra-provider-types/src/json.rs:216-247 | unwrapping a fence or a tag only cuts text off at both ends |
| JsonStrings.EscapedTextMeans | crates/indra-provider-types/src/json.rs:77-121 | what any text stands for under RFC 8259 section 7 after escaping, also one that stood for nothing |
| JsonStrings.EscapingKeepsTheMeaningExactlyWhen | crates/indra-provider-types/src/json.rs:77-121 | text that stands for something stands for the same after escaping; escaping changes the meaning if and only if a backslash stands before a raw control character and nothing else is wrong |
| JsonStrings.EscapedControlDecodes | crates/indra-provider-types/src/json.rs:94-110 | the escape written for a control character stands for that character |
| ToolArguments.FencedTextIsUnwrapped | crates/indra-provider-types/src/json.rs:219-226 | any text in a fence marked `json`, `JSON` or not at all, with white space around, is unwrapped to itself, trimmed |
| ToolArguments.TaggedTextIsUnwrapped | crates/indra-provider-types/src/json.rs:228-244 | so is any text between an opening tag, with blanks and attributes or without, and the closing tag of its name |
| ToolArguments.UnwrapDoubleEncodedObject | crates/indra-provider-types/src/json.rs:249-264 | with `t0` the trimmed text of a string and each next the trimmed string that the one before parses to: if one of the first three parses to an object the result is that object, and otherwise the value itself |
| ToolArguments.OneUnwrapping | crates/indra-provider-types/src/json.rs:249-264 | which leaves one result for every value |
| ToolArguments.ArgumentsAreRead | crates/indra-provider-types/src/json.rs:270-297 | an empty text gives the empty object; any other the value of the first that parses, so unwrapped, of: the arguments, the text in their wrapper, its escaped form if it is complete, the escaped form of the arguments if they are complete; and none if none does |
| ToolArguments.UnwrappingIsSettled | crates/indra-provider-types/src/json.rs:249-264 | only a string is replaced, only by an object, and unwrapping again changes nothing |
| ToolArguments.SafelyParsingCompleteText | crates/indra-provider-types/src/json.rs:9-27 | on a complete text the first of the text and its escaped form that parses is taken; repairing never comes into play |
| ToolArguments.NoInventedClosers | crates/indra-provider-types/src/json.rs:270-297 | every value accepted is, before unwrapping, the strict parse of the arguments, of the unwrapped text, or of the escaped form of a complete one of these, in this order |
| ToolArguments.TruncatedArgumentsAreRefused | crates/indra-provider-types/src/json.rs:283-296 | arguments cut off, also inside their wrapper, are refused |
| StructuredSummary.LeadingObject | crates/indra-context-management/src/structured.rs:255-290 | the loop finds what the recursive scan finds, and its depth never underflows |
| StructuredSummary.LeadingIsExact | crates/indra-context-management/src/structured.rs:255-290 | `p` is found if and only if it is at the start and its nesting returns to zero at its end and nowhere before |
| StructuredSummary.ObjectsArePrefixFree | crates/indra-context-management/src/structured.rs:276-285 | no object is a proper prefix of another |
| StructuredSummary.LeadingIgnoresContinuation | crates/indra-context-management/src/structured.rs:255-290 | an object found is found again before any continuation |
| StructuredSummary.JsonCandidates | crates/indra-context-management/src/structured.rs:216-240 | the candidates are collected from the last cut to the first, then the whole text, without equal neighbours |
| StructuredSummary.MatchIndicesAreAll | crates/indra-context-management/src/structured.rs:219-222 | every occurrence of a pattern that does not overlap itself is among its matches |
| StructuredSummary.SameCountMeansAll | crates/indra-context-management/src/structured.rs:229-235 | a stretch with as many terminators as follow its cut contains every one of them |
| StructuredSummary.CandidatesAreNotFromTheScratchpad | crates/indra-context-management/src/structured.rs:228-236 | a candidate of a cut is an object behind it, and each terminator of the text is wholly before or wholly inside it |
| StructuredSummary.NoCandidateBeforeATerminator | crates/indra-context-management/src/structured.rs:216-236 | the same for every candidate of a text with a terminator, the whole-text fallback excepted |
| StructuredSummary.CandidatesOfACutExactlyWhen | crates/indra-context-management/src/structured.rs:228-253 | the candidates of a cut are exactly the objects at the cut or right behind a fence that contain every terminator behind the cut |
| StructuredSummary.EveryCandidateIsListed | crates/indra-context-management/src/structured.rs:226-240 | the content of every candidate of every cut is in the list |
| CandidateOrder.CandidatesInOrder | crates/indra-context-management/src/structured.rs:216-253 | the list is, cut by cut from the last to the first, the objects at the cut or behind a fence that contain every later terminator, the last start first; then the object at the start of the text; of all these exactly those whose content differs from the one before |
| AgentLoop.KickoffIsLast | crates/indra-agent/src/operation.rs:20-31 | the turn starts at the last visible user message that is no tool response |
| AgentLoop.ToolResponsesExtendTheTurn | crates/indra-agent/src/operation.rs:20-31 | appending a message that starts no turn only lengthens the turn |
| AgentLoop.AvailableTools | crates/indra-agent/src/tool.rs:233-253 | all tools in order if no name repeats, and an error if and only if one does |
| ToolOperation.RunTools | crates/indra-agent/src/tool.rs:284-370 | the requests answered are those of the turn that are not executed externally, have no response, and are malformed or named by a tool, in order; all of the former two kinds when cancelled while listing. Each gets one response, in order: interrupted if the cancellation was noticed while listing or with a request up to it, else the parse error of a malformed call, else exactly what its tool returned. No turn, or tools that cannot be listed for a request, is an error, and no request means that the step does not apply |
| AgentLoop.PendingAfterAnswers | crates/indra-agent/src/tool.rs:290-303 | after appending answers, exactly the requests not answered stay pending |
| AgentLoop.ToolsStepIsSettled | crates/indra-agent/src/tool.rs:284-370 | after the answers of a tools step the turn is the same turn, no request is pending for its tools, and it would select another one if and only if it is cancelled while listing with a request pending |
| Cancellation.OpenIdsAreExact | crates/indra-agent/src/inference.rs:240-265 | the open ids are the requested minus the answered ones, each once |
| Cancellation.OpenIdsAreInOrder | crates/indra-agent/src/inference.rs:240-265 | and come in the order of their first requests |
| Cancellation.CancellationResponse | crates/indra-agent/src/inference.rs:240-265 | the one-pass scan with two sets answers the open ids in order of first request, and nothing when there are none |
| Cancellation.AnsweringLeavesNoneOpen | crates/indra-agent/src/inference.rs:240-265 | after the response no id is open |
| AgentMachine.TakeStep | crates/indra-agent/src/machine.rs:81-135 | the loop over the operations, with its checks of the token, is the recursive step |
| AgentMachine.RunMachine | crates/indra-agent/src/machine.rs:158-171 | the loop over the steps is the recursive run, which ends when nothing applies or a step yields |
| AgentMachine.RunInference | crates/indra-agent/src/inference.rs:440-520 | the loop over the stream takes the replies that come before the poll that sees the cancellation, and answers what is open then |
| InferenceEnds.InferenceIsThis | crates/indra-agent/src/inference.rs:430-520 | a stream that breaks off leaves all its replies and the error; one cut off by the cancellation the replies before the first poll that sees it and one answer to what is open after them; a whole one all replies, with such an answer if the check right behind it sees the cancellation, or a notice if all is blank and no limit was reached |
| AgentMachine.RunToolsSlot | crates/indra-agent/src/tool.rs:284-370 | a tools step with the token's checks numbered: listing, each request, each call |
| AgentMachine.StepBegunCancelled | crates/indra-agent/src/machine.rs:81-135 | a step begun cancelled yields nothing if and only if no id of the turn is open, and otherwise the one response; without a kickoff it fails |
| AgentMachine.CancelledRunLeavesAnIdOpenExactlyWhen | crates/indra-agent/src/machine.rs:113-171 | in every run of any operations that end with an inference, a run that sees the cancellation ends with an id open if and only if it saw it where its last step leaves one: an id of another tool in a tools step, any id while listing for the inference, or one open after messages that were final already |
| AgentMachine.OnlyTheLastGapIsBlind | crates/indra-agent/src/inference.rs:491-496 | the messages of an inference were final exactly if the cancellation landed between its last check and the one behind the operation |
| AgentMachine.SeenExactlyWhenCancelledInside | crates/indra-agent/src/machine.rs:113-131 | an applied operation saw the cancellation exactly if it landed before the check behind it, and then the step yields |
| AgentMachine.LateCancellationLeavesARequestOpen | crates/indra-agent/src/machine.rs:113-131 | a run with one streamed request and a cancellation after the inference's last check: the request stays open |
| AgentMachine.CancelledToolsLeaveARequestOpen | crates/indra-agent/src/tool.rs:335-357 | a run cancelled during a tools step that does not take the second request |
| AgentMachine.CancelledListingLeavesARequestOpen | crates/indra-agent/src/machine.rs:95-99 | a run cancelled while the inference lists the tools |
| AgentMachine.ToolsStepTwiceExactlyWhen | crates/indra-agent/src/machine.rs:81-171 | of two consecutive steps of a run, with the same tools, the second is the tools step again if and only if the cancellation lands while it lists them and a request is pending |
| AgentMachine.ToolsStepCanBeTakenTwice | crates/indra-agent/src/machine.rs:81-171 | a run in which it is |
| CompactionWindow.ToolIndicesAreAll | crates/indra-context-management/src/summarize.rs:43-48 | the positions of all tool responses, in order |
| CompactionWindow.MiddleOut | crates/indra-context-management/src/summarize.rs:54-67 | walking left and right in turn removes exactly a contiguous window around the middle |
| CompactionWindow.FilterToolResponses | crates/indra-context-management/src/summarize.rs:38-75 | of `n` responses, with `k` the given percentage of `n` rounded down but at least 1, exactly those numbered from `n/2 - (k+1)/2` up to before `n/2 + k/2` go; every other message stays, in order |
| CompactionWindow.WindowSize | crates/indra-context-management/src/summarize.rs:54-67 | for `n` responses and `k` to remove the window holds `min(k, 2 * floor(n / 2))` and ends at `middle + floor(k / 2)` |
| CompactionWindow.WindowsAreNested | crates/indra-context-management/src/summarize.rs:14 | a higher percentage drops all that a lower one drops |
| CompactionWindow.OtherMessagesStay | crates/indra-context-management/src/summarize.rs:69-74 | a message without a tool response is never dropped |
| CompactionWindow.HundredPercentDropsAllExactlyWhenEven | crates/indra-context-management/src/summarize.rs:54-67 | 100 percent drops every response if and only if their number is even |
| CompactionWindow.LastOneStays | crates/indra-context-management/src/summarize.rs:60-66 | with an odd number the last response stays |
| CompactionWindow.Summarize | crates/indra-context-management/src/summarize.rs:124-177 | at most five attempts, prompting without 0, 10, 20, 50 and 100 percent of the responses; only an overflow leads to the next one, and the result is that of the last attempt |
| CompactionWindow.ExhaustedPromptHoldsToolResponsesExactlyWhenOdd | crates/indra-context-management/src/summarize.rs:170-174 | the last prompt of an exhausted ladder still holds a tool response if and only if their number is odd |
| ModelVariants.IsCompleteShardSet | crates/indra-local-inference/src/hf_models.rs:388-405 | the loop with a set of indices answers whether the files are all shards of one total |
| ModelVariants.CompleteSetsHaveEveryIndex | crates/indra-local-inference/src/hf_models.rs:388-405 | a complete set has exactly the indices from 1 to its total |
| ModelVariants.SelectPreferredShardSet | crates/indra-local-inference/src/hf_models.rs:407-427 | in whatever order the sets are visited, the set taken is the one preferred to all others |
| ModelVariants.PreferenceIsTransitive | crates/indra-local-inference/src/hf_models.rs:419-424 | the comparison of shard sets is transitive |
| ModelVariants.PreferenceIsTotal | crates/indra-local-inference/src/hf_models.rs:419-424 | and decides between any two keys |
| ModelVariants.ChoiceIsUnique | crates/indra-local-inference/src/hf_models.rs:695-720 | what is chosen for a quantization depends on the set of its files alone |
| ModelVariants.IsUnambiguous | crates/indra-local-inference/src/hf_models.rs:514-534 | accepted if and only if all files are of one family |
| ModelVariants.SingleVariants | crates/indra-local-inference/src/hf_models.rs:693-721 | sorting and dropping repeated tags leaves one variant for each tag, from its plainest file |
| ModelVariants.ShardVariants | crates/indra-local-inference/src/hf_models.rs:723-745 | one variant for each tag that only shards have, from its preferred set |
| ModelVariants.GroupIntoVariants | crates/indra-local-inference/src/hf_models.rs:652-748 | refused if and only if some tag has two families; otherwise one variant for each listed tag, each the choice among the files of its tag, in the order of rank and size |
| ModelVariants.OneVariantPerTag | crates/indra-local-inference/src/hf_models.rs:652-748 | two listings of the same files advertise the same for a tag |
| ModelVariants.PlainestOf | crates/indra-local-inference/src/hf_models.rs:951-954 | the single file taken has the shortest name, then the first |
| ModelVariants.CheckSequence | crates/indra-local-inference/src/hf_models.rs:978-1015 | the checks on the sorted shards pass if and only if the set is complete and its names sort as its numbers do |
| ModelVariants.ResolveModelSpec | crates/indra-local-inference/src/hf_models.rs:914-1036 | not found, ambiguous or resolved exactly when the matching files say so; resolved are the chosen files, sorted by name, with the sum of their sizes |
| ModelVariants.SequenceExactlyWhenNamesFollowIndices | crates/indra-local-inference/src/hf_models.rs:978-1015 | shards sorted by name stand in sequence if and only if they are complete and names order as indices |
| ModelVariants.AdvertisedIsResolved | crates/indra-local-inference/src/hf_models.rs:914-1036 | a request for an advertised quantization that resolves gets the advertised file name and size, and every shard |
| ModelVariants.AdvertisedResolvesExactlyWhen | crates/indra-local-inference/src/hf_models.rs:978-1015 | it resolves if and only if it is a single file, or a complete set whose names sort as its numbers do |
| VariantTwins.CompleteShardsCanBeRefused | crates/indra-local-inference/src/hf_models.rs:1004-1014 | two shards `m-Q4_K_M-1-of-2.gguf` and `m-Q4_K_M-02-of-2.gguf`: complete, advertised, and refused |
| VariantTwins.SingleResolvesAsAdvertisedExactlyWhen | crates/indra-local-inference/src/hf_models.rs:919-926 | with tags that differ in case, the single file advertised is resolved, with its size, if and only if it is plainer than those of the other tags |
| VariantTwins.ShardsResolveAsAdvertisedExactlyWhen | crates/indra-local-inference/src/hf_models.rs:919-1015 | the shards advertised are resolved, with their size, if and only if no other tag has a single file or a set of shards that is not behind theirs |
| VariantTwins.TwinIsResolvedInstead | crates/indra-local-inference/src/hf_models.rs:301-308 | `Model-quality.gguf` advertised, `Model-Quality.gguf` resolved |
| VariantTwins.SingleTwinIsResolvedInstead | crates/indra-local-inference/src/hf_models.rs:951-954 | a shard advertised, the single file of the other spelling resolved |
| NameOrder.SortBy | crates/indra-local-inference/src/hf_models.rs:695-701 | a rearrangement in which nothing comes before what precedes it |
| CacheBreakpoints.BlankTextsTrimToNothing | crates/indra-provider-types/src/cache_semantics.rs:134-149 | a text is blank exactly when trimming leaves nothing |
| CacheBreakpoints.CacheableExactlyWhen | crates/indra-provider-types/src/cache_semantics.rs:134-149 | a message can hold a breakpoint exactly if its last block, a plain text counting as one, is an image or a text that is not blank |
| CacheBreakpoints.OffsetCountsBlocks | crates/indra-provider-types/src/cache_semantics.rs:106-127 | the offset of a message counts the content blocks, tool calls and reasoning of all messages through it |
| CacheBreakpoints.CumulativeBlockOffsets | crates/indra-provider-types/src/cache_semantics.rs:106-127 | the running total gives the blocks through the end of each message |
| CacheBreakpoints.FindPrimary | crates/indra-provider-types/src/cache_semantics.rs:68-71 | the last cacheable message |
| CacheBreakpoints.FindSecondary | crates/indra-provider-types/src/cache_semantics.rs:76-80 | the last cacheable message before it within the target offset |
| CacheBreakpoints.FindSystem | crates/indra-provider-types/src/cache_semantics.rs:86-91 | the first system message |
| CacheBreakpoints.Payload.MarkLastContentBlock | crates/indra-provider-types/src/cache_semantics.rs:154-178 | only the last block of a cacheable message is marked, and nothing else changes |
| CacheBreakpoints.Payload.ApplyChatPayloadBreakpoints | crates/indra-provider-types/src/cache_semantics.rs:57-102 | exactly these messages get a mark, on their last block and if they are cacheable: the last cacheable one, the last cacheable one at least 20 blocks behind it, and the first system message; of the tools the last one, if it is a function; nothing else changes |
| CacheBreakpoints.MarkingOnlyMarksTheLastBlock | crates/indra-provider-types/src/cache_semantics.rs:154-178 | marking keeps what every block holds and adds a mark to the last one only, if the message is cacheable |
| CacheBreakpoints.MarkingKeepsShapes | crates/indra-provider-types/src/cache_semantics.rs:154-178 | marking changes nothing that the choice of anchors depends on |
| CacheBreakpoints.ApplyingTwiceIsApplyingOnce | crates/indra-provider-types/src/cache_semantics.rs:57-102 | applying the breakpoints again changes nothing |
| CacheBreakpoints.SecondaryIsTheLatestFarEnoughBehind | crates/indra-provider-types/src/cache_semantics.rs:73-83 | the secondary is a cacheable message at least 20 blocks behind the primary, and no later one is |
| CacheBreakpoints.NoSecondaryInShortPayloads | crates/indra-provider-types/src/cache_semantics.rs:76-80 | there is none while the primary's offset is at most 20 |
| CacheBreakpoints.AtMostFourMarks | crates/indra-provider-types/src/cache_semantics.rs:57-102 | a payload without marks gets at most four, those on messages only on cacheable ones |

## Left out

- StreamingParser.StreamingEmulatorParser.ProcessChunk: text is a sequence of UTF-8 bytes, so a slice off a character boundary, which would panic, cannot be expressed; the offsets used are those of line feeds, which are boundaries.
- The Markdown library's two predicates and `str::trim` in the streaming parser: arbitrary functions of (prefix, line start) and of a text.
- `serde_json`: an arbitrary partial function from texts to values; values keep only what the parsing functions look at.
- DownloadTransfer.Disk: failures of the disk other than a partial file that cannot be removed; destinations and partial paths of different files are taken to be distinct, and nobody else writes to them.
- DownloadTransfer.Remote.Head: a size or nothing; redirects, other headers, timeouts and delays between retries do not appear.
- DownloadTransfer.DownloadOneFile: says nothing of the running total after a failure, which the source drops.
- Progress percentages, speed, ETA, `total_bytes`, `get_progress`, `list_progress`, `is_downloading` and the completion callback.
- The map of cancellation channels in `management.rs`: a task can receive a cancellation at any moment before it marks its entry.
- ModelSlots.NoDeadlock: a send on the result channel and a backend call end at some time; the readers `loaded_model_paths` and `loaded_model_ids` hold a slot lock for a moment and change nothing.
- ModelVariants.ResolveModelSpec: what is read from a file name (tag, shard index and total, set key, family, auxiliary or not) is given with the file. Every shard is taken to have a set key; for a name like `00001-of-00002.gguf` at the top of a repository the source has none and panics. The projector that goes with a model, the URLs and the descriptions do not appear, and sizes do not overflow.
- ToolOperation.RunTools: the metadata and ids of messages; `Conversation::push`, `fix_conversation` and `merge_consecutive_messages_for_request`.
- Operations other than the tools and the inference: they may do anything, with the default `cancel`. Effects other than messages, and failures while effects are applied, do not appear. The inference comes last, as `agent.rs:1755-1756` builds it.
- `normalize_tool_call_thinking`, `messages_for_provider`, `add_tools_to_inference_input`, the registration of tools and the emitter.
- CompactionWindow.Summarize: rendering of prompts and summaries, token estimates and usage.
- CacheBreakpoints.Payload: the payload as a typed record; other fields of the JSON values are kept by the source and do not appear, and `CacheSemantics::for_model` is a table.
- Search, cache scan, deletion, MLX support, draft models, sampling settings, the CLI, the desktop user interface and the MCP servers.
