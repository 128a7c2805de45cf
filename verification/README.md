# BetterWright: a verified model of its algorithms and protocols

BetterWright drives a browser for AI agents. This project models the parts of it that are
algorithms and protocols rather than browser plumbing, and proves what they promise.

| module | models |
|---|---|
| DarkBlobs | the flood fill that finds dark components in an image |
| Lanes | per-session job lanes with an exclusive gate |
| WorkerLifecycle | worker generations, the close barrier, and once-only settlement of commands |
| Install | the crash-safe browser installation by directory renames |
| Transcript, AnthropicMessages | the agent loop's transcript, its tracked size, and its mapping to alternating roles |
| ModelSelector | printing and resolving model selectors |
| Redactor | the bucketed secret redactor |
| WebSocketFrames | the frame encoder and the incremental parser (RFC 6455) |
| ChromiumArgs, SwitchMerge | the tokenizer for quoted switches, and merging caller switches into the managed list |
| HangingText, LineReader | hanging-indent wrapping, and the shared line reader of the console |
| CookieSync | the cookie normalizer and the worker's check of the same batch |
| FrameScan | the credential frame scan under a time budget, with late results |

Objects whose methods update fields are classes here, and loops are loops; protocols are state
machines whose steps the class methods are proved to take. The clock, the network, the disk, the
model, the tools and the browser are nondeterministic: a failure, a crash or an arbitrary answer
may come at every step.

Five results a reader of the code might not expect:

- `src/cli-io.ts:6-7` says lines are handed out in arrival order. If no read is issued while a
  capture has deferred lines, they are, and earlier reads get earlier lines
  (`LineReader.NoSkipKeepsBothOrders`). A read issued then is served by the next line, before the
  deferred ones (`LineReader.SkippingReadBreaksOrder`, `OutOfOrderRun`), or, if the capture is
  released first, after a later read, which gets an older line (`LineReader.ReadsOutOfOrderRun`).
  `LineReader.RunInOrderIff` and `RunReadsInOrderIff` say exactly which runs keep each order.
- The pong of the probe puts the payload length in one byte. It is a well-formed pong exactly up to
  125 bytes (`WebSocketFrames.PongParsesIffShort`), the limit section 5.5 of RFC 6455 puts on pings.
- A timeout closes its worker with pending commands preserved, so other commands on that worker
  are not settled by its exit (`WorkerLifecycle.ExitSettlesIff`, `TimeoutStrandsOthers`), but only
  by their own timers or aborts (`WorkerLifecycle.OutlivesThroughRun`). These do settle them
  (`WorkerLifecycle.EveryHelpingRunSettles`).
- The redactor never copies a secret, but its output may contain one that agrees with the
  placeholder (`Redactor.PlaceholderMayShowASecret`). `Redactor.ShowsIff` says exactly when for one
  secret, `Redactor.OutputHasNoSecret` and `Redactor.SomeRedactorShowsIff` for a secret among any others.

## Model

| member | source | states |
|---|---|---|
| DarkBlobs.ExtractDarkBlobs | src/captcha-solver.ts:845-934 | For every image, insets and limits: an image that is too small gives nothing; otherwise the report is Exact: one entry for each 4-connected component of dark pixels in the searched rows that is within the size limits and not both wider than 92 percent and lower than 22 percent of the image, in raster order of first pixels, whose x, y, width and height are the exact box, whose count is its size, and whose cx and cy times the count are the sums of its columns and rows; and the pixels popped over all components are the dark pixels of those rows, each popped once |
| DarkBlobs.RowsOfStrip | src/captcha-solver.ts:864-873 | A row is searched exactly if neither inset covers all of it, but for the last row above and the first row below |
| DarkBlobs.BlobDescribes | src/captcha-solver.ts:918-930 | The entry made from exact totals describes the component |
| DarkBlobs.KeptIff | src/captcha-solver.ts:918-921 | The size and wide-bar test of the code is the limits and percentages of the report |
| DarkBlobs.ScanStrip | src/captcha-solver.ts:880-933 | The two scan loops produce the exact report; the visited array is always the set of dark pixels whose component begins before the scan position |
| DarkBlobs.ScanPixel | src/captcha-solver.ts:881-931 | One pixel: skipped if visited or light, otherwise its whole component is filled and reported exactly if the limits and the wide-bar test keep it |
| DarkBlobs.Fill | src/captcha-solver.ts:884-917 | From an unvisited dark pixel the stack loop pops every pixel of its component and no other, each once, terminates, marks exactly that component, and ends with its exact count, coordinate sums and box |
| DarkBlobs.PushNeighbors | src/captcha-solver.ts:904-916 | Pushes and marks exactly the unvisited dark strip neighbours, each once |
| DarkBlobs.NeighborsExact | src/captcha-solver.ts:904-908 | The listed indices are exactly the 4-adjacent pixels of the image: no wrap around a row end |
| DarkBlobs.ClosedContainsComponent | src/captcha-solver.ts:893-917 | A set of dark pixels closed under 4-adjacency contains every pixel reachable by a path from a member |
| DarkBlobs.ComponentEq | src/captcha-solver.ts:880-932 | Connected pixels have one and the same component |
| DarkBlobs.UniqueRoot | src/captcha-solver.ts:880-883 | Each dark strip pixel lies in the component of exactly one first pixel, so reports neither overlap nor miss a component |
| DarkBlobs.SeenNext | src/captcha-solver.ts:883-917 | Passing an index adds to the visited set exactly the component it is the first pixel of |
| DarkBlobs.ReportComponent | src/captcha-solver.ts:918-930 | Reporting a filled component keeps the report exact, with the filter applied to its exact size and box |
| DarkBlobs.BoxExists | src/captcha-solver.ts:884-903 | Every non-empty pixel set has an exact bounding box |
| DarkBlobs.ExactUnique | src/captcha-solver.ts:880-933 | Exactness determines the report: two exact reports of one strip are equal |
| Lanes.RunKeeps | src/client.ts:1257-1286 | The queue invariant (dependencies point to earlier jobs; every conflicting earlier job is waited for directly or through a conflicting job; the map holds lane tails; the gate is the last exclusive job) holds in every state of every interleaving |
| Lanes.StepKeeps | src/client.ts:1257-1286 | Each enqueue, start, finish (resolved or rejected) and lane drop keeps that invariant |
| Lanes.JobsAreAsked | src/client.ts:1257-1286 | In every run job i is the i-th that was enqueued, with its lane or exclusive as it was enqueued |
| Lanes.StepAdds | src/client.ts:1257-1286 | Each enqueue adds exactly one job, of the kind asked for; no event changes the kind or the dependencies of a job |
| Lanes.ExclusiveRunsAlone | src/client.ts:1276-1286 | While a job that was enqueued exclusively runs, all earlier jobs have settled and no later job has started, in every run |
| Lanes.LaneIsFifo | src/client.ts:1257-1274 | Of two jobs enqueued on one lane the later has started only if the earlier has settled: one at a time, in enqueue order, in every run |
| Lanes.AbsentLaneIsDrained | src/client.ts:1269-1272 | In every run a lane missing from the queue map has no unfinished job of those enqueued on it |
| Lanes.LanesAreIndependent | src/client.ts:1257-1263 | In every run, jobs enqueued on two lanes with no exclusive job enqueued between them never wait for each other, directly or indirectly |
| Lanes.ConflictsAreAwaited | src/client.ts:1257-1286 | Conversely a job waits, directly or indirectly, for every earlier unfinished job it must not overlap |
| Lanes.NeverStuck | src/client.ts:1261-1285 | While a job is unfinished, a running job can finish or some job can start, and that reduces the remaining work |
| Lanes.Drains | src/client.ts:1257-1286 | From every state of the invariant a run of starts and finishes settles every job |
| Lanes.EveryMaximalRunDrains | src/client.ts:1257-1286 | Every run without new jobs is finite, and one that goes on while some job can start or finish settles every job, in whatever order and whether jobs resolve or reject |
| Lanes.LaneQueue.EnqueueJob | src/client.ts:1257-1274 | Exactly one job of that lane is added, waiting for exactly the tail of the lane and the gate, if there are any; it becomes the tail, and nothing else changes |
| Lanes.LaneQueue.EnqueueExclusiveJob | src/client.ts:1276-1286 | Exactly one exclusive job is added, waiting for exactly the prior gate and the tails of all lanes; it becomes the gate, and nothing else changes |
| Lanes.LaneQueue.FinishJob | src/client.ts:1265-1268 | Exactly the running job settles, resolved or rejected, and either way unblocks those behind it |
| Lanes.LaneQueue.DropIfTail | src/client.ts:1270-1272 | Exactly the drained lane is forgotten, and only if no later job was chained to it |
| WorkerLifecycle.RunKeeps | src/client.ts:668-903 | The worker, ownership and pending-command invariant holds in every state of every run of starts, exits, closes, dispatches, replies, timeouts and aborts |
| WorkerLifecycle.EventKeeps | src/client.ts:668-903 | Each event keeps that invariant |
| WorkerLifecycle.AtMostOneWorker | src/client.ts:668-689 | At most one worker is ever between its spawn and the end of its close cleanup |
| WorkerLifecycle.SpawnAfterCleanup | src/client.ts:678-746 | Whenever a worker is spawned, every earlier one has been drained, cleaned up and had its redaction reset exactly once; nobody owns the redaction set and the browser is not closed |
| WorkerLifecycle.OnlyResumeSpawns | src/client.ts:683-736 | A step that adds a worker, from any state of the invariant, finds every earlier worker cleaned up and reset exactly once, no owner of the redaction set, and the browser open |
| WorkerLifecycle.PendingIffUnsettled | src/client.ts:1817-1846 | In every run a command is in the pending map exactly while unsettled, and a reply that settled it came from the worker it was sent to |
| WorkerLifecycle.SettlesOnce | src/client.ts:1838-1845 | The outcome of a settled command never changes |
| WorkerLifecycle.ExitSettlesIff | src/client.ts:836-838 | At the end of the RPC drain a worker exit settles exactly those of its pending commands that are not aborting, provided no close asked to preserve pending commands; with that request it settles none |
| WorkerLifecycle.TimeoutStrandsOthers | src/client.ts:1848-1857 | A reachable state: of two commands on one worker the first has timed out, the worker is gone and cleaned up, and the second is still unsettled with its timer running |
| WorkerLifecycle.OutlivesUntilOwnEnd | src/client.ts:1821-1857 | From any state of the invariant, a command still unsettled after the exit of its worker was dealt with is settled by the end of its own timeout or abort, with that outcome, and by no other event |
| WorkerLifecycle.OutlivesThroughRun | src/client.ts:1821-1857 | In every run such a command stays unsettled until the end of its own timeout or abort |
| WorkerLifecycle.WorkerHost.BeginStarting | src/client.ts:1760-1769 | A caller that comes while a preparation is in flight changes nothing and shares it; otherwise the start begins, unless the worker runs or the browser is closed |
| WorkerLifecycle.CleanupFinishes | src/client.ts:816-856 | From any state the close cleanup of a worker can run to its end, settling commands at most |
| WorkerLifecycle.CleanupSettles | src/client.ts:1821-1857 | A command whose timer has fired, or that is aborting, is settled after the cleanup of its worker |
| WorkerLifecycle.EveryCommandCanSettle | src/client.ts:1812-1863 | Every unsettled command of every state of the invariant can still be settled, as a run shows |
| WorkerLifecycle.EveryHelpingRunSettles | src/client.ts:1812-1863 | In a run with any other events in it, at most six events of the timeout or abort of a command, or of the exit and cleanup of the worker these close, help the command; a run that ends with no such event possible has settled it |
| WorkerLifecycle.NeedIsUsed | src/client.ts:1812-1863 | What a command still needs to settle never grows, whatever happens, and falls at each event that helps it |
| WorkerLifecycle.SomeHelps | src/client.ts:1812-1863 | While a command is unsettled an event that helps it can happen |
| WorkerLifecycle.WorkerHost.SpawnWorker | src/client.ts:683-746 | After the barrier, if no worker runs and the browser is open, exactly one worker is added that is the process, holds the barrier and owns the redaction set; otherwise the start is over and nothing else changes |
| WorkerLifecycle.WorkerHost.HandleReady | src/client.ts:784-788 | The ready line makes the worker ready and ends the start that waits for it |
| WorkerLifecycle.WorkerHost.AbandonStart | src/client.ts:891-903 | A start that takes too long is over, and its worker is detached |
| WorkerLifecycle.WorkerHost.HandleExit | src/client.ts:813-815 | An exit detaches exactly that worker |
| WorkerLifecycle.WorkerHost.HandleClose | src/client.ts:816-824 | The close event ends the start that waits for the worker and begins its drain |
| WorkerLifecycle.WorkerHost.ResolveWorkerClose | src/client.ts:855-856 | The end of the cleanup resolves the close promise of exactly that worker |
| WorkerLifecycle.WorkerHost.FinishClose | src/client.ts:1950-1975 | The last reset of close() finds nothing to reset |
| WorkerLifecycle.WorkerHost.ResolvePendingForWorkerExit | src/client.ts:927-939 | The loop over the pending map settles exactly the commands of that worker that are pending and not aborting |
| WorkerLifecycle.WorkerHost.ResetVaultRedaction | src/client.ts:941-954 | The redaction set is reset only by its owner, which gives up ownership, so repeated calls reset once |
| WorkerLifecycle.WorkerHost.CleanUpAfterDrain | src/client.ts:825-856 | After the drain, unless pending commands are preserved, exactly the commands of this worker that are pending and not aborting fail as its exit; the redaction set is reset and given up |
| WorkerLifecycle.WorkerHost.CloseWorker | src/client.ts:1915-1958 | close() up to its wait: final exactly if no restart, the process detached exactly if it is meant, and pending commands preserved for exactly that worker |
| WorkerLifecycle.WorkerHost.SendCommand | src/client.ts:1812-1862 | Exactly one command is added, pending on the current worker, or failed and not pending if the write throws |
| WorkerLifecycle.WorkerHost.HandleReply | src/client.ts:799-805 | A result line from its worker settles a command that is pending and not aborting with that reply and takes it off the pending map; any other line, and every other command, is left alone |
| WorkerLifecycle.WorkerHost.HandleTimeout | src/client.ts:1848-1849 | A timer that fires closes the worker of its command, to be replaced, with pending commands preserved; nothing settles yet |
| WorkerLifecycle.WorkerHost.FinishTimeout | src/client.ts:1849-1857 | After that close the command is settled as timed out, unless it is settled |
| WorkerLifecycle.WorkerHost.HandleAbort | src/client.ts:1828-1836 | An abort stops the timer, makes the command deaf to replies, and closes its worker without preserving |
| WorkerLifecycle.WorkerHost.FinishAbort | src/client.ts:1821-1827 | After that close the command is settled as aborted, unless it is settled |
| Install.RunRepeatedly | src/chromium-fork-install.ts:163-298 | Any number of runs with any options, each failing or crashing at any step: once the usable tree (platformDir, or the backup with platformDir absent) is complete it is complete in every later state of the disk; every receipt in every state names the archive its tree came from |
| Install.InstallChromiumFork | src/chromium-fork-install.ts:163-298 | The usable tree changes at most once in a run, at the promoting rename, from what it was to a complete tree whose archive passed the SHA-256 check; a run that finds only the backup puts it back before it changes anything else; a run that crashes in no step and fails in none installs the release, or, without force, keeps a tree that has its binaries and its receipt and stages nothing, and these are the only runs that report success; a failed run leaves installation and backup as they were after the recovery rename, or as it found them if it changed nothing, and leaves no stage unless its deletion failed too; if the rollback fails, the staged release is kept |
| Install.Refresh | src/chromium-fork-install.ts:200-298 | Download, staging, promotion and cleanup over a recovered installation switch the usable tree at most once, to a verified release, and keep every receipt true |
| Install.Swap | src/chromium-fork-install.ts:263-297 | Promotion with rollback and cleanup switches the usable tree to the staged one exactly if the promoting rename succeeded |
| Install.Recover | src/chromium-fork-install.ts:170-173 | An interrupted update is undone first: if only the backup exists it is put back by one rename, and nothing else changes |
| Install.MoveAside | src/chromium-fork-install.ts:263-277 | Rotating the backup and displacing the current tree keeps the same tree usable at every point |
| Install.RollBack | src/chromium-fork-install.ts:279-283 | Undoing the renames in reverse order restores the directory exactly when it completes, and keeps the same tree usable even if it does not |
| Install.Promote | src/chromium-fork-install.ts:263-290 | The usable tree stays what it was until the promoting rename and becomes the staged tree at it; a rolled-back promotion leaves all files as before |
| Install.Stage | src/chromium-fork-install.ts:205-262 | Download, checksum, extraction and receipt never touch the installation; a stage that is ready holds a complete tree from an archive with the expected SHA-256, and its receipt |
| Install.CleanUp | src/chromium-fork-install.ts:291-297 | After a promotion the displaced tree and the stage are deleted without disturbing the promoted tree, even if a deletion stops half-way |
| Install.Discard | src/chromium-fork-install.ts:295-298 | Deleting the stage, complete or interrupted, leaves the installation alone |
| Transcript.SealTranscript | src/agent.ts:129-147 | A transcript changes exactly if its last turn has calls: one tool message is added with a stub for each, under its id and name, with the note for an interrupted or an ended run; so a well-paired one is unchanged and an open one becomes well paired |
| Transcript.NoteTells | src/agent.ts:134-137 | The note of a stub tells an interruption by the user from any other end |
| Transcript.ResultsTell | src/agent.ts:1220-1230 | done is acknowledged, other calls after it are ignored, and guidance defers exactly the done results |
| Transcript.AgentRun.Run | src/agent.ts:1134-1540 | For every run from a well-paired history, on everything it was told (stop signals, guidance, model turns, tool results, verdicts, errors): the transcript is well paired, extends the initial one and holds every model turn and all guidance; every size-limit test compared the exact serialized size, and context_limit is the reason exactly if the last test exceeded it; the run rethrows exactly other errors; otherwise it has ended where what it was told ends it, with exactly that reason; it is ok exactly if the reason is done or answered, with the answer that was claimed or corrected, and no human message is unseen; it is late only after all the rounds there was time for; and exactly an unfinished batch is closed, with stubs that tell an interruption |
| Transcript.AgentRun.Rounds | src/agent.ts:1151-1510 | The loop goes on exactly while what it was told does not end the run, and is late only after all its rounds |
| Transcript.AgentRun.Turn | src/agent.ts:1151-1510 | One round looks for the stop signal, tests the size, collects guidance and asks the model; it goes on or breaks as what was told decides, and keeps the transcript well paired unless it throws inside a tool batch, when only the last turn is open |
| Transcript.AgentRun.ProseTurn | src/agent.ts:1195-1216 | An answer in prose ends the run as truncated, refused, answered or, if blank, stopped, unless guidance arrives or the check says otherwise |
| Transcript.AgentRun.ToolTurn | src/agent.ts:1218-1509 | A batch that completes is answered by one tool message with its results, whose done results are revised exactly if guidance arrived right after it; a batch cut short leaves the turn open |
| Transcript.AgentRun.SteerOrSettle | src/agent.ts:1486-1509 | After a batch: guidance defers a completion and forgets repeated failures; without it a completion is checked, and failures that repeated to the limit end the run |
| Transcript.AgentRun.WorkCall | src/agent.ts:1429-1477 | A call put to its tool gives one result; a browser call finishes the run exactly if it returns a final answer, and spends its progress exactly at the fifth equal failure in a row |
| Transcript.AgentRun.ToolBatch | src/agent.ts:1219-1479 | A batch that completes yields one result for each call, in call order, under its id and name: what the tool answered, for every call up to the one that finishes the run, and from there an acknowledgement of done and a refusal of all others; the run is then finished exactly if there was a done call or a final answer, with the answer of the last done call if there is one |
| Transcript.AgentRun.RewriteDone | src/agent.ts:1486-1503 | Rewriting batched done results in place, after a later message was appended, keeps the pairing and the exact size |
| Transcript.AgentRun.CheckCheckoutCompletion | src/agent.ts:972-1133 | The check is made exactly for a non-blank answer of a checkout task that is not oversized; after it the run is finished exactly by a verdict that is complete and approves, on a page that was seen, with the answer as corrected; otherwise it is without progress, redirected by the human, or goes on, as the verdicts decide; at most three verdicts between two words of the human |
| Transcript.AgentRun.CheckRounds | src/agent.ts:1012-1081 | Verdicts are asked for until one is complete, asks in vain, or is the third; corrections replace the proposed answer |
| Transcript.AgentRun.Conclude | src/agent.ts:1082-1132 | The last verdict decides: approved answers are appended and finish the run |
| Transcript.AgentRun.AppendMessage | src/agent.ts:888-892 | Appending keeps the tracked size equal to the length of the JSON array |
| Transcript.AgentRun.constructor | src/agent.ts:882-887 | A run starts from the history and the new user message with the exact size, well paired |
| Transcript.JsonAppend | src/agent.ts:888-892 | The array of messages grows by the message and, unless it was empty, one comma |
| Transcript.JsonRewrite | src/agent.ts:1480-1503 | Replacing any message changes the length of the array by the difference of the two |
| Transcript.AppendAnswers | src/agent.ts:1480-1482 | A tool message with the ids of the open turn, in order, makes the transcript well paired |
| Transcript.RewriteResults | src/agent.ts:1486-1491 | Changing result contents but not ids, anywhere, keeps a transcript well paired |
| AnthropicMessages.ToAnthropic | src/agent.ts:2046-2075 | For every transcript roles strictly alternate, and the texts with their roles, the tool calls, and the tool results with their contents are exactly those of the messages, in order; if it is well paired, every tool_use is answered, in order, by the results that open the next message |
| AnthropicMessages.MappedSays | src/agent.ts:2046-2064 | Mapping message by message keeps every text, call and result, unchanged and in order |
| AnthropicMessages.FlatCoalesce | src/agent.ts:2068-2073 | Coalescing a message into a neighbour of its role, or appending it, adds exactly its blocks at the end |
| AnthropicMessages.UsesOfMapped | src/agent.ts:2058-2062 | The tool uses of a mapped assistant turn are its calls, in order, and nothing else |
| AnthropicMessages.BuildStep | src/agent.ts:2069-2073 | One more message of a well-paired transcript keeps the merged turns answered, but for the calls of the last one |
| AnthropicMessages.LastTurnIsAnswered | src/agent.ts:2064-2074 | At the end of a well-paired transcript no call is left pending |
| ModelSelector.SelectorResolves | src/agent.ts:1935-1985 | For every catalog the printed selector of an entry, and its source-qualified form, resolve to that entry if and only if they do not spell the managed local model |
| ModelSelector.SelectorsAreDistinct | src/agent.ts:1843-1875 | Selectors of different entries are different |
| ModelSelector.SelectorIsShortest | src/agent.ts:1852-1874 | A bare selector is printed whenever some alias is usable, and is the shortest usable one |
| ModelSelector.QualifiedRoundTrip | src/agent.ts:1605-1612 | source/model is read back as exactly that pair, even if the model id contains slashes |
| ModelSelector.BareResolves | src/agent.ts:1954-1984 | A usable bare alias resolves to its entry: discovery finds that entry only, and a native prefix adds no second source |
| ModelSelector.AliasesAre | src/agent.ts:1614-1622 | The aliases of a model id are the id, what follows its first slash and what follows its last |
| ModelSelector.SortIsStable | src/agent.ts:1853-1855 | Sorting by length keeps the order among aliases of one length, and loses or repeats none |
| ModelSelector.NativeIff | src/agent.ts:1569-1575 | A prefix, or an o and a digit, speaks for a native source, but for the bare names of the sources |
| ModelSelector.OwnPrefixIsUsable | src/agent.ts:1856-1866 | A prefix of another source rules an alias out; one of its own does not |
| ModelSelector.ResolvesTo | src/agent.ts:1959-1985 | A selector without a source resolves to its only candidate, native by prefix or discovered by alias; it is refused exactly if there are several, and unknown exactly if there is none |
| ModelSelector.QualifiedResolves | src/agent.ts:1954-1957 | A selector with a source resolves to that model of that source, native or endpoint |
| ModelSelector.FirstUsableIs | src/agent.ts:1856-1866 | The alias found is the first usable one in length order, and none is found only if none is usable |
| ModelSelector.OnlyHaving | src/agent.ts:1861-1865 | If one catalog entry has an alias of this entry, it is this entry |
| Redactor.SecretsRedactor.RedactText | src/credential-constants.ts:41-60 | The bucketed loop returns exactly what the plain scan returns: at each index replace the longest secret matching there, otherwise copy one unit |
| Redactor.SecretsRedactor.constructor | src/credential-constants.ts:27-39 | The buckets, filled and sorted, hold exactly the distinct non-empty secrets under their keys, longest first |
| Redactor.SecretsRedactor.MatchAt | src/credential-constants.ts:47-50 | The candidate found through the buckets is the longest secret at the index, and none is found only if none matches |
| Redactor.FillBuckets | src/credential-constants.ts:28-36 | Each bucket holds exactly the secrets of its length class with its key |
| Redactor.Find | src/credential-constants.ts:49-50 | In a bucket sorted by length the first match is a longest one |
| Redactor.LongestExists | src/credential-constants.ts:37-50 | Where a secret matches, a longest matching one exists |
| Redactor.ScanRendersSpans | src/credential-constants.ts:46-59 | The output is the input with exactly the matched spans replaced |
| Redactor.EveryOccurrenceIsHit | src/credential-constants.ts:46-59 | Every occurrence of a secret in the input overlaps a replaced span, so no text copied between placeholders contains a secret |
| Redactor.SpansAreSecrets | src/credential-constants.ts:47-57 | Each replaced span is the longest secret at its place |
| Redactor.PlaceholderMayShowASecret | src/credential-constants.ts:9-60 | The output as a whole may contain a secret: one that occurs in the placeholder |
| Redactor.ShowsIff | src/credential-constants.ts:27-60 | With one secret, some text has an output that contains it if and only if the secret agrees with the placeholder from one of its positions on, or for some 0 < k < its length its rest from k agrees with the placeholder and it does not occur in its first k units followed by itself before k |
| Redactor.OutputHasNoSecret | src/credential-constants.ts:27-60 | Whatever the other secrets, a secret that agrees with the placeholder at no offset, wherever both have a unit, occurs in no output |
| Redactor.SomeRedactorShowsIff | src/credential-constants.ts:27-60 | That condition is exact when the other secrets may be any: some redactor with the secret among others shows it if and only if it agrees with the placeholder at some offset |
| Redactor.Occurrence | src/credential-constants.ts:46-59 | An occurrence in the output begins inside a placeholder, agreeing with it, or with a unit copied from the text |
| Redactor.CopiedThenMark | src/credential-constants.ts:46-59 | A prefix of the output is units copied from the text and then, unless that is all of it, a placeholder |
| WebSocketFrames.ParseFrames | research/cdpfree-probe.ts:101-131 | The in-place loop returns the frames and the rest of the reference parse |
| WebSocketFrames.ReadHeader | research/cdpfree-probe.ts:104-119 | Header and extent at an offset, for all three length classes, or none if header or payload is cut off (section 5.2 of RFC 6455) |
| WebSocketFrames.Unmask | research/cdpfree-probe.ts:121-126 | The loop xors each byte with the key byte at its index modulo 4 (section 5.3 of RFC 6455) |
| WebSocketFrames.ChunkingIsIrrelevant | research/cdpfree-probe.ts:143-146 | For all bytes a and b, parsing a and then its rest with b gives the frames and the rest of parsing a + b |
| WebSocketFrames.CompleteStaysComplete | research/cdpfree-probe.ts:104-128 | Bytes that arrive later do not change a complete frame |
| WebSocketFrames.RestIsIncomplete | research/cdpfree-probe.ts:104-130 | What is kept in the buffer starts with no complete frame |
| WebSocketFrames.EncodeText | research/cdpfree-probe.ts:80-98 | The encoder emits the unmasked final text frame with the shortest length form The first byte is 0x81, then come 7, 16 or 64 bits of length, whichever are the fewest that hold it, big-endian, and then the payload |
| WebSocketFrames.WireParses | research/cdpfree-probe.ts:80-131 | Any payload of any length class, masked or not, parses back to opcode and payload, whatever follows |
| WebSocketFrames.ParseInvertsSend | research/cdpfree-probe.ts:80-131 | Any list of encoded messages followed by an incomplete frame parses back to those messages and that remainder |
| WebSocketFrames.MaskTwice | research/cdpfree-probe.ts:121-126 | Unmasking a masked payload gives the original |
| WebSocketFrames.XorTwice | research/cdpfree-probe.ts:124 | Xor with the same byte twice is the identity, from its bit-by-bit definition |
| WebSocketFrames.BigEndian | research/cdpfree-probe.ts:86-96 | The first byte of a length field is the most significant |
| WebSocketFrames.XorBits | research/cdpfree-probe.ts:122-125 | Unmasking compares bit by bit |
| WebSocketFrames.Response | research/cdpfree-probe.ts:147-161 | Opcode 8 ends the socket, 9 is answered by a frame that starts with 0x8a and ends with the payload, 1 is delivered, and no other opcode has an effect |
| WebSocketFrames.ReadWrite | research/cdpfree-probe.ts:86-96 | Big-endian length fields read back what was written |
| WebSocketFrames.Connection.OnData | research/cdpfree-probe.ts:142-162 | However the bytes are chunked, the frames handled so far are those of all bytes received, each handled once, in order |
| WebSocketFrames.Respond | research/cdpfree-probe.ts:147-161 | Close, ping and text frames produce their actions in order; other opcodes produce none |
| WebSocketFrames.PongParsesIffShort | research/cdpfree-probe.ts:151-157 | The pong is a well-formed pong with the payload of the ping if and only if that has at most 125 bytes |
| ChromiumArgs.ParseChromiumArgs | src/chromium-args.ts:121-155 | The loop computes the meaning of the trimmed text, with an error for an open quote |
| ChromiumArgs.SpaceCodes | src/chromium-args.ts:130-140 | The characters that separate arguments, by code unit |
| ChromiumArgs.TrimIsTransparent | src/chromium-args.ts:122-123 | Trimming first changes no result |
| ChromiumArgs.FailsIffQuoteOpen | src/chromium-args.ts:128-152 | Parsing fails exactly when a quote is left open |
| ChromiumArgs.ArgRun | src/chromium-args.ts:128-147 | Scanning the segments of one argument, bare or quoted either way, accumulates their text |
| ChromiumArgs.ParseInvertsQuoting | src/chromium-args.ts:121-155 | Any way of quoting any list of arguments parses back to exactly that list |
| ChromiumArgs.QuoteCharsValue | src/chromium-args.ts:129-137 | Quoting each character in the quote it is not spells the argument |
| ChromiumArgs.QuoteRoundTrip | src/chromium-args.ts:121-155 | For every list of strings, quoting, joining with spaces and parsing gives the list back |
| SwitchMerge.MergeChromiumArgs | src/chromium-args.ts:253-275 | The merged list is managed then placed caller switches, in order and verbatim, except that what was folded has turned the first --enable-features entry into the printed list of its own names and the folded ones, in order and each once; with distinct managed names that entry enables the features of all managed and caller switches, and if anything was folded it is exactly their list printed without repeats; ignored lists exactly the dropped and colliding names, once each |
| SwitchMerge.PlacedIff | src/chromium-args.ts:66-76 | A caller switch is placed exactly if its name is new and not one of the two dropped ones, and folded exactly if it is an --enable-features with a value after another one |
| SwitchMerge.ManagedSwitchesWin | src/chromium-args.ts:253-275 | With distinct managed names the merged names are distinct, so under the last-wins reading every managed value but --enable-features survives, and placed caller switches keep their first value |
| SwitchMerge.EveryCallerSwitchIsAccountedFor | src/chromium-args.ts:257-273 | Each caller switch is placed, folded into --enable-features, or named in ignored; a placed one is the first of its name |
| SwitchMerge.ManagedFeaturesComeFirst | src/chromium-args.ts:92-103 | The composed features begin with the managed ones in their order and contain exactly the features of both |
| SwitchMerge.MergeEnabledFeatures | src/chromium-args.ts:92-103 | null exactly if the incoming switch has no value; otherwise the printed list of the current names then the new ones, trimmed, non-empty and without repeats, which reads back as that list |
| SwitchMerge.FeaturesRoundTrip | src/chromium-args.ts:87-103 | Printing a list of distinct trimmed names and reading it back gives the list |
| SwitchMerge.SplitJoin | src/chromium-args.ts:97-102 | Splitting a joined list at commas gives the list back |
| SwitchMerge.PlacedAreDistinct | src/chromium-args.ts:256-272 | Placing keeps distinct names distinct |
| SwitchMerge.PlacedNames | src/chromium-args.ts:256-272 | The taken set is exactly the names of the merged list |
| HangingText.FormatHangingText | src/cli-io.ts:76-129 | For every prefix, text and width the result is the one layout of the text, its lines joined by newlines. In a layout a break stands only at the end of a paragraph, before a word of the text whose full length does not fit on the line, or at the full width inside a word longer than a line; the first line begins with the prefix and the others with the indent, trimmed where nothing follows; what follows is text of one line; only a prefix that is not blank stands alone before a word; taking the prefix and the indents away and undoing the breaks gives exactly the text with its runs of spaces normalized; and all lines fit the width if and only if the prefix is shorter than the width or there is no word and the trimmed prefix fits |
| HangingText.LayoutIsUnique | src/cli-io.ts:76-129 | A text has one layout: any two layouts under one prefix and width have the same lines |
| HangingText.TakesUnique | src/cli-io.ts:96-126 | What a line holds, how it ends and what it leaves are determined by the rest of the text, for every line but a bare prefix |
| HangingText.LineTakes | src/cli-io.ts:96-126 | Each line of a layout takes the start of the text not yet laid out, as the rules for breaks say, and leaves the rest to the next |
| HangingText.ParagraphsSplit | src/cli-io.ts:87 | The paragraphs of a text, with a newline or a carriage return and a newline between neighbours, are the text; none holds a newline or ends in a carriage return at a bare one |
| HangingText.WordsSplit | src/cli-io.ts:88 | The words of a paragraph, with spaces before, between and after them, are the paragraph; no word holds a space and none is cut |
| HangingText.JoinLinesConcat | src/cli-io.ts:128 | Lines are joined by single newlines |
| HangingText.WidthOf | src/cli-io.ts:83 | 80 columns if none are given, at least 40, less one |
| HangingText.JustifiedIsNeeded | src/cli-io.ts:99-123 | The breaks of the wrapping loop stand before words that do not fit: the word counted in full, over all lines it is cut into |
| HangingText.NormalKeepsInk | src/cli-io.ts:87-88 | Normalizing keeps exactly the non-space characters of the text, in order |
| HangingText.WrapParagraph | src/cli-io.ts:97-125 | The word loop keeps, at every word, justified breaks, the text so far, indentation and width |
| HangingText.CutWord | src/cli-io.ts:116-123 | A word on a fresh line is cut into full lines and a last piece; undoing the cuts gives the word |
| HangingText.StartAfresh | src/cli-io.ts:109-123 | A word that does not fit pushes the open line, or the bare prefix, and starts afresh |
| HangingText.FormatParagraph | src/cli-io.ts:87-126 | One paragraph, empty or not, is laid out under the prefix or indent |
| HangingText.UnwrapConcat | src/cli-io.ts:96-128 | Undoing the breaks of two lists of lines and the break between them gives the two texts with that break undone |
| HangingText.CutUnwraps | src/cli-io.ts:118-122 | Cutting the open line and undoing the cut gives the open line |
| HangingText.JoinParagraph | src/cli-io.ts:87-126 | Adding the lines of one more paragraph to a layout gives a layout |
| HangingText.InkOfWords | src/cli-io.ts:88 | Splitting at spaces keeps exactly the non-space characters in order |
| HangingText.InkOfParagraphs | src/cli-io.ts:87 | Splitting at line breaks keeps exactly the non-space characters in order |
| LineReader.EveryRunConserves | src/cli-io.ts:153-210 | In every run of lines, reads, aborts, captures, releases and close: each arrived line is in exactly one place (delivered, buffered, deferred, consumed); the delivered lines are those that reads got, and no two reads got the same line; each read is waiting or settled with one outcome, a capture means nothing buffered, no capture means nothing deferred, and no read waits on closed input |
| LineReader.GivenOnceNext | src/cli-io.ts:160-195 | No event gives a line to a second read or delivers one to no read |
| LineReader.UncapturedReadGetsOldest | src/cli-io.ts:171-195 | In every run a read issued while no handler captures gets the oldest held line, held lines being in arrival order; with none held and the input open it joins the waiting reads |
| LineReader.FirstWaiterGetsNext | src/cli-io.ts:160-162 | In every run a line that arrives while reads wait goes to the earliest issued of them |
| LineReader.CountNext | src/cli-io.ts:160-208 | Each event adds its own line, if any, to one place, and loses or duplicates none |
| LineReader.ReadsNext | src/cli-io.ts:166-195 | Reads are issued once and are waiting or settled, not both |
| LineReader.SettledOnce | src/cli-io.ts:182-191 | A settled read keeps its outcome: an abort consumes no line later |
| LineReader.RunInOrderIff | src/cli-io.ts:160-208 | The lines of a run are handed out in arrival order at every point if and only if no line arrives while a read waits and older lines are held; which read gets which line is RunReadsInOrderIff |
| LineReader.OrderKeptIff | src/cli-io.ts:160-208 | One event keeps the arrival order exactly unless it is a line that arrives while a read waits and older lines are held |
| LineReader.NoSkipNoWaitOverHeld | src/cli-io.ts:171-194 | If no read is issued while lines are deferred and none is buffered, order is kept and no read ever waits over held lines |
| LineReader.SkippingReadBreaksOrder | src/cli-io.ts:160-194 | After any history in order, a read issued while lines are deferred and none is buffered is served by the next line, ahead of the deferred ones |
| LineReader.OutOfOrderRun | src/cli-io.ts:160-208 | A run of four events from the start that delivers line 1 while line 0 is held |
| LineReader.RunReadsInOrderIff | src/cli-io.ts:160-195 | Earlier reads get earlier lines at every point of a run if and only if no line arrives for a waiting read after a later read got one, and no read is handed a held line older than one already given |
| LineReader.ReadsKeptIff | src/cli-io.ts:160-195 | One event keeps earlier reads with earlier lines exactly unless it is such a belated line or such a stale read |
| LineReader.NoSkipKeepsBothOrders | src/cli-io.ts:160-208 | If no read is issued while lines are deferred and none is buffered, lines are handed out in arrival order and earlier reads get earlier lines, at every point |
| LineReader.ReadsOutOfOrderRun | src/cli-io.ts:160-208 | A run of six events that hands out every line in arrival order, but gives the second line to the first read and the first line to the second |
| LineReader.Reader.HandleLine | src/cli-io.ts:160-165 | A line goes to the earliest waiting read; without one it is buffered, or, under a capture, deferred exactly if the handler returns false and otherwise consumed; nothing else changes |
| LineReader.Reader.HandleClose | src/cli-io.ts:166-169 | Exactly the waiting reads end with null, and no read waits |
| LineReader.Reader.ReadLine | src/cli-io.ts:171-195 | A read takes the oldest buffered line, ends on closed input, or waits last; an aborted one consumes nothing |
| LineReader.Reader.AbortRead | src/cli-io.ts:182-191 | An abort takes exactly its own read off the queue, if it waits |
| LineReader.Reader.StartCapture | src/cli-io.ts:196-202 | Exactly the buffered lines for which the handler returns false are deferred, the others are consumed, and none stays buffered |
| LineReader.Reader.ReleaseCapture | src/cli-io.ts:203-208 | A release by the current handler puts the deferred lines back in order; a stale one does nothing |
| CookieSync.SameCookies | src/cookie-sync.ts:343-760 | The cookies the normalizer can produce are exactly those the worker check returns unchanged and that have not expired |
| CookieSync.KeptBatchIsReadBack | src/cookie-sync.ts:499-760 | The worker reads every batch the normalizer kept as exactly what was kept, and returns it whole while nothing in it has expired |
| CookieSync.Transfer | src/cookie-sync.ts:499-760 | Normalizing a snapshot and checking the batch in the worker: a batch the normalizer returns, which is within both limits, is never refused by the worker and comes back whole while nothing has expired, otherwise without what has |
| CookieSync.WorkerKeepsIff | src/cookie-sync.ts:652-755 | The worker check returns a cookie unchanged exactly if it is transferable, a condition on its fields alone |
| CookieSync.CheckedIsTransferable | src/cookie-sync.ts:652-755 | Whatever the worker check accepts, it would accept again unchanged |
| CookieSync.AcceptedIsTransferable | src/cookie-sync.ts:348-487 | Whatever the normalizer accepts is transferable, selected by the filters and not expired |
| CookieSync.TransferableHasRow | src/cookie-sync.ts:348-487 | Every transferable, unexpired cookie is the result of some browser row |
| CookieSync.SelectedIff | src/cookie-sync.ts:301-311 | A domain is selected exactly if a chosen domain is its host or above its host, or, for a cookie that takes in subdomains, below it |
| CookieSync.FilteredIff | src/cookie-sync.ts:349-380 | A readable row is skipped as domain_filtered exactly if it is sent to no chosen domain |
| CookieSync.IsolatedIff | src/cookie-sync.ts:402-437 | A row is skipped as unsupported_isolation exactly if it belongs to a container, a private window, a partition or isolating origin attributes, its context is well formed, and it is readable and not refused; no isolated row is ever accepted |
| CookieSync.IllFormedIsSkipped | src/cookie-sync.ts:402-429 | A sound row with ids or attributes of the wrong shape is malformed |
| CookieSync.ExpiredIff | src/cookie-sync.ts:381-400 | A row is skipped as expired exactly if it has expired and is readable, selected, and consistent in its name, path, domain and flags; no expired row is ever accepted |
| CookieSync.OtherwiseMalformed | src/cookie-sync.ts:343-464 | There are no other codes than these and malformed |
| CookieSync.ControlIff | src/cookie-sync.ts:111-117 | Control characters are those below 32 and 127 |
| CookieSync.PortIff | src/cookie-sync.ts:291-299 | A port is -1 or a whole number from 1 to 65535 |
| CookieSync.ContainerIff | src/cookie-sync.ts:412-424 | A container id is absent or a whole number that is not negative |
| CookieSync.PartitionIsSkipped | src/cookie-sync.ts:439-453 | A sound row is skipped as unsupported_partition exactly if it names a top frame that is no site or does not say whether an ancestor is of another site |
| CookieSync.SameIdentityIff | src/cookie-sync.ts:480-488 | Two cookies are one exactly if they agree in name, domain, path, partition and ancestor |
| CookieSync.RowsAreConserved | src/cookie-sync.ts:524-535 | Rows = kept + skipped + replaced |
| CookieSync.KeptIsLatest | src/cookie-sync.ts:521-546 | Exactly one cookie is kept for each identity among the accepted rows, that of its last row, in the order of the first rows; so identities are distinct |
| CookieSync.KeptIsUnique | src/cookie-sync.ts:521-546 | One cookie for each identity, that of its last row, in the order of the first rows: only one list satisfies this, the kept one |
| CookieSync.NormalizeCookieSnapshot | src/cookie-sync.ts:499-557 | The result holds the kept cookies, the number selected and skipped, and for each warning code the count of the reader plus the skipped rows plus, for duplicate_replaced, the replaced rows; it fails exactly on a snapshot without rows, above 10,000 cookies, or above 6 MiB |
| CookieSync.CollectRows | src/cookie-sync.ts:521-535 | The loop over the rows computes the insertion-ordered map, the skips and the counts |
| CookieSync.ValidateTargetCookies | src/cookie-sync.ts:652-760 | Fails exactly on a batch that is no list or too long, too large, or has a malformed entry; otherwise returns the cookies read from the entries, in order, without those that have expired |
| FrameScan.Scan.Collect | src/credential-target-scan.ts:85-138 | For any frames and any settling of the work: each frame of a scan that completes has exactly one class, with the probe that decided it; a frame is unresponsive only if the budget was spent or a probe ran its full time, which was probeMs or all that was left; the lists hold exactly the detected handles and the unresponsive frames in order; a throw comes from a frame that is not detached and disposes all detections; the scan waits at most budgetMs + 1 ms in total |
| FrameScan.Scan.WithProbeDeadline | src/credential-target-scan.ts:21-42 | The answer is that of the work or the timeout, whichever came first; a timeout has waited exactly max(1, ms); handles that come for earlier probes meanwhile are disposed, and a handle of this one is kept exactly if it came in time |
| FrameScan.Scan.Race | src/credential-target-scan.ts:21-42 | For every order in which the clock moves, the timer fires and the work of this or an earlier probe settles, the race ends within its limit, expired exactly if the timer came first, with all handles accounted for |
| FrameScan.Scan.Settle | src/credential-target-scan.ts:24-33 | The then-callbacks: a value in time is the answer, a handle after the timer is disposed, a late error is swallowed |
| FrameScan.Scan.VisitFrame | src/credential-target-scan.ts:99-132 | One frame: after the budget nothing is probed; otherwise its class fits what its probes did, and exactly a detected handle is kept |
| FrameScan.Scan.Afterwards | src/credential-target-scan.ts:24-33 | Whatever settles after the scan has returned or thrown: late handles are disposed, nothing returned is, and every handle stays accounted for |
| FrameScan.ScanAndAfter | src/credential-target-scan.ts:21-138 | Over a scan and everything that settles after it, every handle ever yielded is returned or disposed exactly once, and not both |
| FrameScan.Scan.DisposeCredentialFrameDetections | src/credential-target-scan.ts:79-83 | A scan that throws disposes every detection, each once |
| FrameScan.KindsListFrames | src/credential-target-scan.ts:95-132 | The lists of a scan name handles of different frames in order and, in order, frames that are not among these; a frame in neither had no origin or was detached when its probe failed |
| FrameScan.SettleAccounts | src/credential-target-scan.ts:24-33 | A work that settles keeps every yielded handle kept or disposed, once and not both |

## Left out

- Redactor.ShowsIff: exact for one secret; for a given set of several secrets the exact condition on the whole set is not stated. A char is a code unit other than a surrogate.
- Redactor.SomeRedactorShowsIff: assumes that some unit does not occur in the secret.
- WebSocketFrames.EncodeText: starts from the UTF-8 bytes, and lengths are below 2^64; the rounding of 64-bit lengths above 2^53 on reading is not modelled.
- DarkBlobs.ExtractDarkBlobs: darkness is an arbitrary boolean for each pixel and insets are reals, so luma and floating-point rounding are not modelled.
- Install.InstallChromiumFork: one installer at a time; the repair of the Windows assembly file may fail or crash but its contents are not modelled.
- Transcript.AgentRun.Run: the run has time for an arbitrary number of rounds instead of a wall clock; the texts the completion check adds are arbitrary; the rewritten tool message is found by its index instead of by aliasing; images and reasoning fields are part of a message's length only.
- AnthropicMessages.ToAnthropic: images in tool results are not modelled.
- Lanes.LaneQueue.DropIfTail: the microtask between a task and its chained promise is not modelled; the lane may be dropped at any time after its tail settled.
- WorkerLifecycle.WorkerHost.CloseWorker: stops at the wait for the worker. Host connections and leases, the live view, and the kill signals are not modelled.
- ModelSelector.SelectorResolves: toLowerCase is a parameter that leaves the lower-case source names alone; the endpoint catalogs are the same at printing and resolving.
- HangingText.FormatHangingText: characters are code points, as Array.from gives them.
- LineReader.EveryRunConserves: handlers are callable and do not call back into the reader.
- CookieSync.KeptBatchIsReadBack: domain and origin normalization are parameters assumed idempotent; byte lengths and encoded sizes are parameters; the order of the warnings is not modelled, nor are values whose encoding fails.
- FrameScan.Scan.Collect: timers are exact; unresponsive frames are listed by index instead of label; a frame is asked whether it is detached at most once, with any answer; probePinnedCredentialOrigin is not modelled.
- The deep part of the redactor (cycles, keys), dedupeBoxes, collapseNestedBoxes, pickGrowingBlob and the tile sorting of the captcha solver: not modelled.
- Filter normalization, cookie extraction, token storage, menus, colours and CLI dispatch: not modelled.
