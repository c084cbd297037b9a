# Agent Aspect: a verified model of its core

Agent Aspect is a local control plane for coding agents. This project models the parts of it that carry state
machines or rewrite files, and proves what they keep, lose and guarantee. Sources are cited by path and line.

- **Workflow engine** (`ContextText`, `WorkflowRows`, `WorkflowPrompts`, `WorkflowTrace`, `WorkflowInvariant`,
  `WorkflowEngine`, `WorkflowRestart`): steps run one after the other with retry, one fallback, manual pause, cancel and
  restart. `WorkflowStore` and `WorkflowRunner` are the mutable tables and the runner; `WorkflowTrace` is the record of a
  run on which whole-run safety is stated, `WorkflowPrompts` says whose log a prompt carries, and `WorkflowRestart`
  strings runs together.
- **Hook files** (`KimiBlocks`, `KimiHooks`, `KimiInstalled`, `KimiHookBlock`, `KimiAppend`, `KimiReconcile`,
  `KimiRoundTrip`, `KimiUndo` for the Kimi file, with `LineEnds` and `KimiLineEnds` on carriage returns; `JsonHooks` for
  JSON configurations): removing, parsing and adding hooks, with round trips and idempotence. `KimiPositions`,
  `KimiKept`, `KimiReports` and `KimiSections` (on `Positions`) and `JsonKept` say on the old and new lines or entries
  what each of these keeps and reports.
- **Job executor** (`JobExecutor`, `JobOutcomes`, `JobRows`, `JobObserving`): worker, concurrent cancels, child, stop
  hook and waiting workflow as a state machine over single accesses to shared state, and what the row says in terms of
  what happened. `BoundedLog` is the byte-bounded log fed by two readers.
- **Bridge state** (`OverviewCache`, `LoginLockout`, `DeltaPaging`, `Aggregate` on `MaximalRuns` with `AggregateShown`).
- **Activity timeline** (`Timeline`, `TimelineTurns`): three chained grouping passes.
- **Smaller cores** (`Rules` with `RuleWords` and `RuleNotes`, `Scanner`, `Learn` with `LearnOrder` and `LearnShown`).

`Text` has the string operations the source uses (`lines`, `join`, `trim`, `contains`), `Common` an option type and
minimum and maximum.

## Where the code departs from what it promises

All are proved, with the exact condition or a concrete run:

- Redaction keeps everything before the first `=`, so of `password: hunter2=x` the value is left; nothing after the
  first separator is left exactly when no `=` comes after a first `:`.
- A log page asked for with a limit of 500 never says that there is more, because the query itself stops at 500 rows.
- A second add to the Kimi file appends another block whenever somebody else's hook names the event first, and so does
  every further one; a remove leaves a marked block in place when no removed block names an event; add and remove cut
  final newlines and turn CRLF into LF.
- A cancel wakes the waiting workflow before it writes the row, and can report success for a job whose row says
  succeeded. It can report success and leave the child running on two routes and no other: having read a queued row,
  or a running row that names no process yet while the slot is still empty.
- After the log limit is reached, output no longer renews the idle watchdog.
- An invalidation by a writer beside the store lock can be lost, exactly when an older overview is about to be cached or
  its flag about to be taken down; the ten-second lifetime then bounds the staleness.
- The login bound holds for attempts handled one at a time only.
- The 30-second window merges gaps up to just under 31 seconds.
- The timeline can show an unclassified tool ahead of tools that came before it.
- In Paranoid, adding a rule that matches mildly makes the outcome milder.
- The incremental line count is one too high for every line cut between two looks, and loses the lines beyond one chunk.
- The idle deadline of an observer does not roll with its activity.
- Mining counts an event as approved whether its question came before its permission or after; its description says
  before. The groups suggested beyond the description are exactly those it leaves with fewer than three events.

## Model

| member | source | states |
|---|---|---|
| WorkflowEngine.WorkflowRunner.ExecuteSteps | crates/bridge/src/workflows.rs:280-610 | one run of all steps, over every sequence of job results, failing database calls and cancels from other threads: the run is safe throughout (serial order, a prompt only after every earlier step has succeeded and with the log of the step it has to come from, at most one submission after a cancel, attempts within budget, waits in manual mode only and only with something left), it completes only when every step has succeeded and so has its last attempt, a run that stops has a reason, one cancelled before its first step never completes, and recorded attempts and jobs are kept |
| WorkflowPrompts.PromptCarriesLog | crates/bridge/src/workflows.rs:322-333 | whose log a prompt carries, by places in the tables: the last earlier step with a job and the order `context_from_step` names, else the last earlier step with a job, else none; of that job its last 50 or 100 stdout and stderr chunks or all of them by the strategy of the step that ran it, each line redacted on its own, cut to the longest suffix within 65536 bytes |
| WorkflowInvariant.PromptsAreCarried | crates/bridge/src/workflows.rs:322-373 | in every safe run each prompt that was submitted carries that log |
| WorkflowPrompts.LogIsContextLog | crates/bridge/src/workflows.rs:613-643 | what a step hands on, by places in its log: the last 50 or 100 output rows or all of them, in order, joined by newlines |
| WorkflowEngine.WorkflowRunner.TryOnce | crates/bridge/src/workflows.rs:322-605 | one attempt: with the cancel flag up nothing is submitted and the run stops; otherwise the attempt succeeds, comes back as one more attempt or the fallback, or the run stops for a database error, a cancel, or a failure with nothing left to try |
| WorkflowEngine.WorkflowRunner.Record | crates/bridge/src/workflows.rs:374-430 | what the job did is recorded: succeeded, cancelled or failed with its class in the attempt and in the step, with the reason the run would report |
| WorkflowEngine.WorkflowRunner.Write | crates/bridge/src/workflows.rs:396-430 | the rows written after a job ended: the attempt always, the step and its failure class unless a database call fails first |
| WorkflowRows.MovesByTarget | crates/core/src/store/workflows.rs:581-609 | which transitions the statement lets through, by where the row moves to: success is never left, and a row comes back to pending from the other ends only |
| WorkflowRows.ClassifyFailure | crates/bridge/src/workflows.rs:720-734 | a cancelled job was cancelled by the user; any other failure is a timeout exactly when its reason names a timeout, the scanner, a deadline or idleness in any case |
| WorkflowEngine.WorkflowRunner.RunStep | crates/bridge/src/workflows.rs:322-605 | the attempt loop of one step ends on every sequence of job results and failing database calls, by the measure (fallback still usable, attempts left); earlier attempt and job rows are never overwritten; success means the row, its job and its attempt all say so |
| WorkflowEngine.WorkflowRunner.Settle | crates/bridge/src/workflows.rs:373-585 | after a job ended: success answers the step, a retry or fallback leaves it pending exactly one attempt further, anything else, a failed read or write included, stops the run; other attempts keep their rows |
| WorkflowEngine.WorkflowRunner.Decide | crates/bridge/src/workflows.rs:415-585 | a failed attempt leads to another one only when an attempt is left, or when the job had been accepted and a fallback provider other than the current one may be started; otherwise the run stops and says why |
| WorkflowEngine.WorkflowRunner.Requeue | crates/bridge/src/workflows.rs:432-500 | exactly when the retry or fallback rule says so, a failed step comes back one attempt further with the same provider, or once with its fallback provider, which must differ from the current one, unless the statement or the re-read fails |
| WorkflowEngine.WorkflowRunner.WaitForAdvance | crates/bridge/src/workflows.rs:521-566 | in manual mode the run goes on only after an advance signal, and otherwise ends because the cancel flag was seen |
| WorkflowEngine.WorkflowRunner.Execute | crates/bridge/src/workflows.rs:224-262 | the runner is free afterwards, recorded attempts and jobs are kept, the run is recorded as safe and a stopped one has a reason; when the database can be opened again the final status follows the outcome, and a run that did not complete leaves no step pending or running |
| WorkflowEngine.WorkflowRunner.Start | crates/bridge/src/workflows.rs:73-150 | refused unless the workflow is at rest and has steps; succeeded steps keep their rows, every other step becomes pending, one that was tried before under the number after its last one and with all its retries, any other as it was, even if writing the status fails then |
| WorkflowEngine.WorkflowRunner.Cancel | crates/bridge/src/workflows.rs:155-207 | a live run is only told to stop; otherwise a running or draft workflow is closed with all its open steps, and only jobs of its running steps are closed, with their logs kept; succeeded steps and definitions stay, and so do the conditions a restart needs |
| WorkflowEngine.WorkflowRunner.CancelJobs | crates/bridge/src/workflows.rs:193-203 | exactly the active jobs of running steps become cancelled, and every log and every other row stays |
| WorkflowEngine.WorkflowStore.CancelJob | crates/core/src/store/jobs.rs:230-254 | a job that is queued, running or observing is closed as cancelled with its log kept, any other one and all other rows stay |
| WorkflowRestart.RunAgainAndAgain | crates/bridge/src/workflows.rs:73-262 | stop, cancel and restart, any number of times: each run there was is safe, goes on from what the one before left, and submits the same prompt for a step as every other run |
| WorkflowInvariant.RestartsKeepPrompts | crates/bridge/src/workflows.rs:300-333 | resume equivalence: in any history of runs, each starting from what the one before left, all prompts for one step are the same text; that earlier steps left the same logs follows |
| WorkflowInvariant.LaterKeepDone | crates/bridge/src/workflows.rs:300-320 | once the steps before one have succeeded, every later run has the same rows for them and the same job logs |
| WorkflowEngine.WorkflowStore.BeginAttempt | crates/core/src/store/workflows.rs:632-688 | an attempt row is recorded unless its (step, number) is taken, and only a pending or failed step starts running |
| WorkflowEngine.WorkflowStore.CancelSteps | crates/core/src/store/workflows.rs:1030-1043 | exactly the pending and running steps become cancelled |
| WorkflowInvariant.BeginAction | crates/core/src/store/workflows.rs:632-688 | in a safe run the number of a pending step is unused, so beginning an attempt adds a row and overwrites none |
| WorkflowInvariant.SubmitAction | crates/bridge/src/workflows.rs:336-372 | submitting keeps the run safe: the prompt sent is the one the tables give |
| WorkflowInvariant.InStepFallback | crates/core/src/store/workflows.rs:795-846 | taking the fallback keeps the run safe and uses the one fallback up |
| WorkflowInvariant.LeaveStep | crates/bridge/src/workflows.rs:504-605 | moving on after a success keeps the run safe, in manual mode only when nothing is left or the signal came |
| WorkflowInvariant.AtStepSafe | crates/bridge/src/workflows.rs:300-610 | what holds between steps implies that the run so far is safe, and after the last step that it is complete |
| WorkflowInvariant.SafeAfterCancel | crates/core/src/store/workflows.rs:1030-1043 | closing the open steps of a stopped run changes no prompt and no definition |
| WorkflowInvariant.RunsAgreeOnPrompts | crates/bridge/src/workflows.rs:300-333 | any two safe runs with equal definitions whose earlier steps left the same logs submit the same prompt for a step, whatever attempts, jobs and providers were involved; a history of restarts meets the condition |
| WorkflowInvariant.PreparedRowOk | crates/core/src/store/workflows.rs:847-902 | restarting keeps the tables consistent: a step with any history is numbered above all its attempts |
| WorkflowRows.RequeueUsesBudget | crates/bridge/src/workflows.rs:744-774 | a retry and a fallback each use exactly one of the submissions a step has left |
| WorkflowRows.AttemptStatusFor | crates/bridge/src/workflows.rs:736-742 | succeeded and cancelled are taken over, and any other job status, terminal or not, counts as a failed attempt |
| WorkflowRows.ResumedPromptIsUninterruptedPrompt | crates/bridge/src/workflows.rs:613-661 | a prompt depends on the step definitions and the logs of the earlier steps alone |
| ContextText.RedactLineIdempotent | crates/bridge/src/workflows.rs:683-704 | redacting a redacted line changes nothing |
| ContextText.RedactLineExactly | crates/bridge/src/workflows.rs:683-704 | every line, by its characters: one with a bearer token in any case becomes a constant; one that mentions one of five words in any case keeps what stands before its first `=`, else before its first `:`, without the blanks at its end, or nothing; any other stays as it is |
| Text.TrimExactly | crates/bridge/src/workflows.rs:694-699 | trimming takes exactly the white space at both ends |
| ContextText.RedactionHidesRest | crates/bridge/src/workflows.rs:683-704 | of a line that names a secret nothing after the first `=` or `:` is left exactly when that separator is `=` or the line has no `=`; a line without either is replaced as a whole |
| ContextText.RedactionHidesValue | crates/bridge/src/workflows.rs:683-704 | two lines that name a secret and agree up to a first separator are redacted alike, provided no `=` comes after a first `:` |
| ContextText.ValueBeforeEqualsLeaks | crates/bridge/src/workflows.rs:683-704 | of a line that names a secret all text before its first `=` is kept, whatever colons are in it |
| ContextText.PasswordLeaks | crates/bridge/src/workflows.rs:683-704 | so of every line `password: <value>=<rest>` the value is left |
| ContextText.KeptContextIsLongestSuffix | crates/bridge/src/workflows.rs:706-718 | over the limit, the kept text is the longest suffix of whole characters within 65536 bytes, at least 65533 bytes of it, so the fallback to the whole input is never taken |
| ContextText.BoundContextBytes | crates/bridge/src/workflows.rs:706-718 | bounded context is at most the limit plus the length of the truncation note |
| ContextText.PromptIsBoundedAndEndsWithTask | crates/bridge/src/workflows.rs:649-668 | every prompt ends with the task text; the byte count reported is bounded, and is what the prompt holds beside the task and its fixed frame |
| KimiBlocks.BlocksOfFlatten | crates/core/src/hook_status.rs:664-736 | cutting a text in front of its header lines is the only way to see it as a list of blocks |
| KimiBlocks.BlocksWellSplit | crates/core/src/hook_status.rs:664-736 | the blocks of a text put together are the text, and headers stand only at their fronts |
| KimiBlocks.RemoveTwice | crates/core/src/hook_status.rs:664-736 | two removals in a row are one removal of the blocks meeting either predicate |
| KimiBlocks.RemoveIdempotent | crates/core/src/hook_status.rs:1101-1153 | on lines, a removal done twice is the removal done once |
| KimiBlocks.RemovalsCommute | crates/core/src/hook_status.rs:664-736 | on lines, the current and the legacy removal commute |
| KimiHooks.RemoveHooks | crates/core/src/hook_status.rs:1101-1153 | the line loop keeps exactly the blocks that are no hook block with the marker, in order, and reports the events of the dropped blocks |
| KimiHooks.RemoveLegacyBlocks | crates/core/src/hook_status.rs:664-736 | the same loop with its own flush keeps exactly the blocks that are no hook block with a legacy command |
| KimiHooks.FlushBlock | crates/core/src/hook_status.rs:1156-1178 | a held-back block is written out or dropped as a whole |
| KimiInstalled.ParseInstalled | crates/core/src/hook_status.rs:759-790 | one event for each section that names one and has a marked command, in order |
| KimiInstalled.RemovalClearsMarkedLines | crates/core/src/hook_status.rs:1101-1178 | no marked line survives a removal exactly when marked lines lie only in hook blocks |
| KimiLineEnds.RemovedMeansNotInstalled | crates/core/src/hook_status.rs:759-790 | for every text, when marked lines lie only in hook blocks, the parser finds nothing installed in the text a removal leaves |
| KimiInstalled.MarkedSectionStaysInstalled | crates/core/src/hook_status.rs:759-790 | a marked command under another header counts as installed and is never removed |
| KimiHookBlock.EscapeContains | crates/core/src/hook_status.rs:1007-1010 | escaping neither makes nor breaks a marker without quotes and backslashes |
| KimiHookBlock.WrittenBlock | crates/core/src/hook_status.rs:1000-1011 | what one written block looks like to every scanner: one event line, one command line with the current and without the legacy marker |
| KimiAppend.LinesWithBlock | crates/core/src/hook_status.rs:995-1011 | appending a block to any text adds one blank line, or none to text of blanks without a final newline, and the lines of the block |
| KimiAppend.RemoveWithBlank | crates/core/src/hook_status.rs:1101-1153 | an appended blank line goes with the last block when that block is dropped, and stays otherwise |
| KimiAppend.EventHasCurrentHook | crates/core/src/hook_status.rs:1079-1098 | the check answers by the first command line after a line naming the event |
| KimiReconcile.KimiFile.ReconcileAdd | crates/core/src/hook_status.rs:980-1036 | the whole new file and report of an add; the file is written exactly when something is added or a legacy event is removed |
| KimiReconcile.KimiFile.ReconcileRemove | crates/core/src/hook_status.rs:1039-1076 | the whole new file and report of a remove |
| KimiRoundTrip.AddedHits | crates/core/src/hook_status.rs:998-1014 | after an add, the check for an event answers as before if it had an answer, and yes for the events that were added; exactly the enabled events not found current are added |
| KimiRoundTrip.AddTwice | crates/core/src/hook_status.rs:980-1036 | for every text, a second add does nothing exactly when no enabled event is first named by somebody else's hook |
| KimiRoundTrip.ForeignStaysFirst | crates/core/src/hook_status.rs:980-1036 | somebody else's hook that names an event first still does after an add, which appends a block for that event |
| KimiRoundTrip.ForeignAddsForever | crates/core/src/hook_status.rs:980-1036 | so after any number of adds the next one appends one more block for the event |
| KimiUndo.ForeignHookAddsForever | crates/core/src/hook_status.rs:1079-1098 | a concrete file on which that happens |
| KimiUndo.RemoveUndoesAdd | crates/core/src/hook_status.rs:980-1076 | for every text whose cleaned-up form has none of our hooks, removing after adding reports exactly the added events and leaves that form, split and joined once more |
| KimiUndo.RoundTripLines | crates/core/src/hook_status.rs:980-1076 | what is left has the lines of the cleaned-up text, up to carriage returns at their ends |
| KimiUndo.RoundTripLength | crates/core/src/hook_status.rs:980-1076 | it is never longer, and of the same length only when it is the same text |
| LineEnds.PassLength | crates/core/src/hook_status.rs:664-736 | splitting and joining loses one final newline and one carriage return before each newline, and nothing else |
| LineEnds.LinesOfJoinAlike | crates/core/src/hook_status.rs:664-736 | the joined lines split into the same lines again, up to one carriage return each and one empty last line |
| KimiUndo.RestoredExactly | crates/core/src/hook_status.rs:980-1076 | on a file without our hooks, legacy hooks and `hooks = []`, adding and removing restores it exactly when it ends in no newline and no carriage return stands before a newline or at its end |
| KimiUndo.RemovalComplete | crates/core/src/hook_status.rs:1039-1076 | for every text, after a remove no hook of ours and no legacy hook is left exactly when a removed block named an event or there was none |
| KimiUndo.UnnamedBlockStays | crates/core/src/hook_status.rs:1060-1063 | a concrete file with a marked block that a remove leaves in place |
| JsonHooks.RemoveEntries | crates/core/src/hook_status.rs:643-661 | the loop over the events drops exactly the matching entries of each array, and reports the events that lost one |
| JsonHooks.JsonConfig.ReconcileAdd | crates/core/src/hook_status.rs:819-854 | the whole new configuration and outcome of an add, including the abort on a value of the wrong type |
| JsonHooks.JsonConfig.ReconcileRemove | crates/core/src/hook_status.rs:857-918 | the whole new configuration and outcome of a remove |
| JsonHooks.AddAllAddsMissing | crates/core/src/hook_status.rs:819-950 | an add aborts exactly when some enabled event cannot take an entry; otherwise it adds one entry for each enabled event without a hook and touches nothing else |
| JsonHooks.AddTwice | crates/core/src/hook_status.rs:819-854 | adding twice is adding once |
| JsonHooks.RemoveUndoesAdd | crates/core/src/hook_status.rs:819-918 | without legacy entries and entries of the agent, removing after adding leaves the configuration with an empty array for each event that had none |
| JsonHooks.RestoredExactly | crates/core/src/hook_status.rs:930-950 | so it is restored exactly when every added event had its array already |
| JsonHooks.RemovalIsExact | crates/core/src/hook_status.rs:857-966 | a removal leaves exactly the entries that are neither legacy nor the agent's |
| JsonHooks.RemovalIdempotent | crates/core/src/hook_status.rs:857-918 | a second removal for the same agent changes nothing |
| JsonHooks.EntryRemovalsCommute | crates/core/src/hook_status.rs:643-661 | removals of any two kinds of entries commute |
| JsonHooks.PrefixAgentLosesHooks | crates/core/src/hook_status.rs:953-966 | entries of an agent are taken for those of every agent whose name begins its name |
| JobExecutor.RunKeepsInv | crates/bridge/src/jobs.rs:1214-1650 | every reachable state of one worker, any number of cancels, the child, the stop hook and the waiting workflow satisfies the protocol invariant |
| JobExecutor.CompletionSentOnce | crates/bridge/src/jobs.rs:1316-1650 | the completion sender is used at most once, exactly once when the worker has ended, and the slot is empty then |
| JobOutcomes.EmptiedReports | crates/bridge/src/jobs.rs:1394-1597 | what the worker reports after a cancel emptied the slot, by where it was: before a poll, always a cancellation; in the rest of a pass, what that pass's stop and idle checks saw and otherwise a cancellation; after an exit, the stop hook or the exit; after the loop, a cancellation exactly when waiting for the child failed |
| JobOutcomes.PassAfterEmptying | crates/bridge/src/jobs.rs:1401-1530 | in the rest of a pass no exit can be seen; the stop check and the idle check end the loop exactly when they see something, and otherwise the next poll does |
| JobOutcomes.ReportIsFixed | crates/bridge/src/jobs.rs:1518-1597 | after the loop, with the slot emptied, the report does not change any more |
| JobOutcomes.UntouchedReports | crates/bridge/src/jobs.rs:1555-1597 | with the slot never emptied, the worker reports a cancellation exactly when waiting for the child failed; a kill without exit status is never reported |
| JobExecutor.FirstFinalWins | crates/core/src/store/jobs.rs:179-211 | a terminal row is never changed by a later step |
| JobExecutor.FinalForever | crates/core/src/store/jobs.rs:179-211 | nor by any later run |
| JobOutcomes.FinalRow | crates/bridge/src/jobs.rs:1555-1650 | after the worker the row is terminal; without a written cancel it is the worker's report, which `JobRows.RowSays` spells out |
| JobRows.RowSays | crates/bridge/src/jobs.rs:1555-1650 | the terminal row as a literal in every reachable state that has one: a cancel writes a cancellation; the worker writes failed for a failed spawn, a timeout for idleness, the stop hook if its marker was seen, otherwise succeeded or failed as the child exited, and a cancellation exactly when it saw no exit, because waiting failed or the slot was emptied |
| JobRows.ReportedHappened | crates/bridge/src/jobs.rs:1395-1554 | over every run, nothing is reported that did not happen: a failed spawn, an idle check, a stop asked for while the job was up, a failed wait, an exit with that result |
| JobRows.LeftAlone | crates/bridge/src/completion.rs:206-222 | a job nobody interferes with ends with the row of its exit |
| JobRows.StopAfterExit | crates/bridge/src/jobs.rs:1420-1440 | a stop marker set within ten looks after the exit makes the row say stop hook, however the child exited |
| JobObserving.ObservingExactly | crates/bridge/src/jobs.rs:1395-1500 | over every run, the row of a job that is not over says observing exactly when the job was found idle and has printed nothing since |
| JobObserving.CancelReads | crates/bridge/src/jobs.rs:816-850 | a cancel is refused exactly when the job is over or has been idle since its last output; otherwise it goes for the row of a queued job or for the slot of a running one |
| JobOutcomes.SuccessfulCancelRow | crates/bridge/src/jobs.rs:816-854 | a cancel that reports success leaves a terminal row, a cancellation exactly when a cancel wrote first or the worker itself reports one, and otherwise the worker's report |
| JobOutcomes.EmptiedBeforePollCancels | crates/bridge/src/jobs.rs:826-850 | after a cancel that emptied the slot before a poll the row can only be a cancellation |
| JobExecutor.WaiterFindsFinalRow | crates/bridge/src/jobs.rs:749-757 | a woken workflow step finds a terminal row unless the job never started or a cancel has emptied the slot and not yet written |
| JobExecutor.ChildEndsWithWorker | crates/bridge/src/jobs.rs:1518-1554 | a child outlives its worker only if waiting for it failed |
| JobExecutor.EmptiedWorkerEnds | crates/bridge/src/jobs.rs:1394-1554 | once a cancel has emptied the slot, each step of the worker brings it nearer to its end and no other step takes it back |
| JobOutcomes.WaiterMayReadRunning | crates/bridge/src/jobs.rs:832-846 | a run in which the workflow reads a row that still says running |
| JobOutcomes.CancelMayLose | crates/bridge/src/jobs.rs:1401-1470 | a run in which a cancel empties the slot first and reports success while the row says succeeded by the stop hook |
| JobOutcomes.SuccessfulCancelEndsChild | crates/bridge/src/jobs.rs:816-854 | in every reachable state a successful cancel leaves a live child only if it had read a queued row, or a running one without a recorded process and found the slot empty |
| JobOutcomes.QueuedRowLeavesChild | crates/bridge/src/jobs.rs:824-850 | a run of the first kind |
| JobOutcomes.NoProcessLeavesChild | crates/bridge/src/jobs.rs:841-850 | a run of the second kind |
| JobOutcomes.ClosedBeforeStartNeverRuns | crates/bridge/src/jobs.rs:1214-1260 | a job whose row is closed before the worker has marked it started never gets a child |
| JobExecutor.CancelTakesKeepsInv | crates/bridge/src/jobs.rs:824-841 | emptying the slot under its lock keeps the invariant |
| JobExecutor.AppliedKeepsInv | crates/bridge/src/completion.rs:68-104 | writing the worker's signal keeps the invariant |
| BoundedLog.LogWriter.Write | crates/bridge/src/jobs.rs:1015-1054 | a reader line renews the watchdog and is stored, refused with one marker, or dropped after a refusal; the log stays the specified one |
| BoundedLog.LogWriter.WriteSystemNoActivity | crates/bridge/src/jobs.rs:1059-1096 | the same for system lines, without renewing the watchdog |
| BoundedLog.RunReaders | crates/bridge/src/jobs.rs:1814-1833 | for every schedule of the two readers and the worker, each stream's stored rows are first lines of that stream |
| BoundedLog.AcceptedIsLongest | crates/bridge/src/jobs.rs:1015-1054 | the accepted lines are the longest prefix of the offered lines that fits |
| BoundedLog.LogIsLongestPrefix | crates/bridge/src/jobs.rs:1015-1054 | with a working database, row i holds line i of that prefix and one marker follows exactly when a line was refused |
| BoundedLog.RowsExactly | crates/bridge/src/jobs.rs:1015-1054 | whatever rows the database refuses: line i of that prefix is row i if it was taken, the marker follows a refused line if it was taken, and there is no other row |
| BoundedLog.SeqIncreases | crates/bridge/src/jobs.rs:1015-1096 | sequence numbers strictly increase, whatever rows the database refuses |
| BoundedLog.EachStreamStoresAPrefix | crates/bridge/src/jobs.rs:1814-1833 | however the calls interleave, the stored rows of a stream are a prefix of it |
| BoundedLog.TruncatedJobLooksIdle | crates/bridge/src/jobs.rs:1015-1054 | after the first refused line no output renews the watchdog any more |
| DeltaPaging.JobLogPage | crates/bridge/src/jobs.rs:2382-2417 | no page skips or repeats a row; it holds as many rows as asked for, 100 by default and from 1 to 500, or all that are left; and it says that there is more exactly when there is and the limit is below 500 |
| DeltaPaging.MessagePage | crates/bridge/src/routes.rs:2718-2736 | the same for messages, for every limit up to 500, 0 included |
| DeltaPaging.ZeroLimitNeverAdvances | crates/bridge/src/routes.rs:2674-2736 | a message page of limit 0 returns nothing and its own cursor |
| DeltaPaging.FollowLogComplete | crates/core/src/store/jobs.rs:468-496 | following a fixed log yields every row once, in order, exactly when the limit is below 500 or at most 500 rows remain |
| DeltaPaging.FollowMessagesComplete | crates/core/src/store/messages.rs:188-224 | following messages with a limit of at least 1 ends and yields every message once |
| DeltaPaging.SessionExact | crates/bridge/src/jobs.rs:2382-2417 | with rows inserted between the calls and any limits, what was received and what is after the cursor are together all rows |
| OverviewCache.RunKeepsInv | crates/bridge/src/routes.rs:1250-1295 | every schedule of readers, writers under the store lock, writers beside it and the clock keeps the cache invariant |
| OverviewCache.OverviewIsFresh | crates/bridge/src/routes.rs:1771-1837 | every overview served is for its key and includes each locked write whose invalidation came before the request, and each write beside the lock invalidated when no older overview could still be cached |
| OverviewCache.OverviewIsYoung | crates/bridge/src/routes.rs:1265-1276 | a cached overview is less than ten seconds old when served, whatever the writers do |
| OverviewCache.HitExactly | crates/bridge/src/routes.rs:1265-1276 | a first-page request is served from the cache exactly when the flag is down and the entry has its key and is less than ten seconds old; nothing else changes, and any other request goes on to compute |
| OverviewCache.FillsExactly | crates/bridge/src/routes.rs:1831-1837 | a computed first page replaces the entry, takes the flag down and is answered; a later page is answered and leaves the cache alone |
| OverviewCache.WriteIsNew | crates/bridge/src/routes.rs:889-942 | a write under the store lock is newer than the cached entry and than every write before it, and no overview is computed meanwhile |
| OverviewCache.SnapshotHoldsWrites | crates/bridge/src/routes.rs:1771-1837 | an overview is computed from every write that has let go of the lock and every write beside it so far |
| OverviewCache.LockedWriteIsSeen | crates/bridge/src/routes.rs:889-942 | no request made after the invalidation of a write under the store lock is ever served an overview without that write, whatever happens in between |
| OverviewCache.SideInvalidationLostExactly | crates/bridge/src/routes.rs:1279-1295 | the invalidation of a write beside the lock can be lost exactly when, at that moment, a first-page reader holds a snapshot without the write and has still to fill the cache, or filled it less than ten seconds before and has still to take the flag down |
| OverviewCache.SideInvalidationMayBeLost | crates/bridge/src/routes.rs:1279-1295 | a run in which a write beside the lock is invalidated and a later request still gets the overview from before it |
| LoginLockout.LoginGuard.TryAcquire | crates/bridge/src/routes.rs:57-67 | an attempt is refused exactly while the lock lasts; the lock is set exactly when five failures are counted, under every interleaving |
| LoginLockout.LoginGuard.RecordFailure | crates/bridge/src/routes.rs:74-82 | the failure is counted and the fifth and every later one sets the lock |
| LoginLockout.LoginGuard.HandlePostLogin | crates/bridge/src/routes.rs:199-263 | the answer to every request from its inputs: logged in exactly when the guard lets it through, both fields are given, and the name is found, not disabled and verified; a failure is recorded exactly when it is let through, the body is readable, the database answered if it was asked, and it is no login; attempts handled one at a time keep failures in batches of five, a lockout apart |
| LoginLockout.HandleInTurn | crates/bridge/src/routes.rs:199-263 | any series of attempts handled one at a time: whoever logs in was found, not disabled and verified, so a series in which the account is disabled never logs in; a good attempt is refused only less than 60 seconds after the last of five or more failures since the last login; failures five apart are 60 seconds apart |
| LoginLockout.FailureKeepsBatches | crates/bridge/src/routes.rs:41-83 | one more failure keeps the batches |
| LoginLockout.AtMostFiveInAnyWindow | crates/bridge/src/routes.rs:41-83 | with attempts handled one at a time no half-open window of 60 seconds since the last success holds more than five failures |
| LoginLockout.Burst | crates/bridge/src/routes.rs:199-240 | attempts that all pass the first look before any is recorded have no bound |
| MaximalRuns.RunsAreMaximal | crates/bridge/src/routes.rs:623-687 | a sequence is cut into maximal runs of neighbours that join |
| MaximalRuns.RunsUnique | crates/bridge/src/routes.rs:623-687 | and in no other way |
| Aggregate.AggregateDecisions | crates/bridge/src/routes.rs:623-687 | the loop yields one item for each maximal run of decisions that may be merged, in order |
| Aggregate.NothingLostOrReordered | crates/bridge/src/routes.rs:623-687 | the event ids of all items, in order, are those of the decisions, in order |
| Aggregate.GroupIsUniform | crates/bridge/src/routes.rs:623-687 | a group counts its events; all have its key, may be merged, and lie near their neighbours; a single item is one decision that may not be merged |
| Aggregate.SplitOnlyByGap | crates/bridge/src/routes.rs:640-665 | neighbouring groups with one key are split only by a gap over the window or an unreadable time |
| Aggregate.NearMeansUnder31Seconds | crates/bridge/src/routes.rs:644-648 | the window is in whole seconds: gaps up to just under 31 seconds are merged |
| Aggregate.KeyMeansFields | crates/bridge/src/routes.rs:630-636 | with agents, actions and rule ids free of bars, as they are written, equal keys mean equal fields for any tool names, a missing and an empty rule id being the same; so they do for any rule ids when tool names have no bars |
| Aggregate.AggregateTimeWindows | crates/bridge/src/routes.rs:2283-2364 | the loop yields the windows of the maximal runs of events of one tool, newest first |
| Aggregate.WindowsCountEverything | crates/bridge/src/routes.rs:2306-2340 | every event is counted in one window, and so is every denial |
| AggregateShown.ItemsByPlace | crates/bridge/src/routes.rs:498-687 | the items by places in the list: cut exactly where two neighbours may not be grouped, have other keys or are 31 seconds or more apart; a decision that was asked about or denied, or whose tool does not only read, stands alone; a group shows the fields and times of its ends, every event id and the first file |
| AggregateShown.WindowsByPlace | crates/bridge/src/routes.rs:2283-2364 | the windows by places in the list, newest first: cut exactly where tools differ or times are 31 seconds or more apart, each with its ends and how many of its events were allowed, asked about or denied, an event without a decision counting as allowed |
| Timeline.BuildSegments | crates/shared_ui/activity_segment.js:263-305 | the loop yields the specified segments |
| Timeline.SegmentsKeepOrder | crates/shared_ui/activity_segment.js:263-305 | chat messages and classified tools keep their order in the segments, and so do unclassified tools |
| Timeline.SegmentsConserve | crates/shared_ui/activity_segment.js:263-305 | each user, assistant and tool message lands in exactly one segment, the others in none |
| Timeline.OrderKeptExactlyWithoutOvertaking | crates/shared_ui/activity_segment.js:263-305 | the whole order is kept exactly when no unclassified tool arrives while a run of tools is open |
| Timeline.OvertakesExactly | crates/shared_ui/activity_segment.js:263-305 | that is: when no unclassified tool comes after a classified one with no chat message between |
| Timeline.SegmentsAreMaximalRuns | crates/shared_ui/activity_segment.js:263-305 | leaving unclassified tools out, segments are the maximal runs of tools of one category and the chat messages one by one |
| Timeline.SegmentsAreGood | crates/shared_ui/activity_segment.js:263-364 | every tool segment holds tools of its category only, starts with its first one, ends with the last time any carries, and counts its files, searches and commands exactly |
| Timeline.MissingFirstTimeCountsFromEpoch | crates/shared_ui/activity_segment.js:307-310 | a run whose first tool has no time lasts since the epoch |
| TimelineTurns.BuildTurnGroups | crates/shared_ui/activity_segment.js:397-440 | the loop yields the specified turns, the last one marked as running if asked |
| TimelineTurns.TurnsCoverSegments | crates/shared_ui/activity_segment.js:397-440 | turns put together are the segments; only the first lacks a user segment, none has one inside, and each carries its tool count and time bounds |
| TimelineTurns.TimesBound | crates/shared_ui/activity_segment.js:421-426 | the time bounds of a list of segments are bounds and are reached |
| TimelineTurns.BuildToolRuns | crates/shared_ui/activity_segment.js:463-504 | the loop yields the specified tool runs |
| TimelineTurns.ToolRunsAreStretches | crates/shared_ui/activity_segment.js:463-504 | tool runs are, in order, exactly the maximal stretches of segments without chat |
| TimelineTurns.ToolRunsByPlace | crates/shared_ui/activity_segment.js:463-504 | the tool runs by place: the longest stretches of segments without chat, in order, none left out, each with its tool count and the earliest start and latest end of its segments |
| TimelineTurns.ToolCountsAddUp | crates/shared_ui/activity_segment.js:263-504 | over all three passes the counts of all tool runs add up to the number of tool messages |
| TimelineTurns.OnlyLastRuns | crates/shared_ui/activity_segment.js:431-503 | only the last run of the last turn is ever shown as running |
| Rules.PrimaryIsMax | crates/core/src/rule.rs:110-113 | the deciding rule is the last one of maximal priority |
| Rules.MatchedFrom | crates/core/src/rule.rs:81-113 | a rule is found exactly when one applies, and the deciding rule is as strict as any that applies |
| Rules.StricterModeIsNoMilder | crates/core/src/rule.rs:74-170 | for every rule list and event a stricter mode never gives a less severe action |
| Rules.ObserverNamesParanoidRule | crates/core/src/rule.rs:132-170 | whenever a rule matches, Observer names the rule Paranoid decides by, and always allows |
| Rules.DenyWins | crates/core/src/rule.rs:74-129 | an operation is denied exactly when an active rule that denies matches |
| Rules.AddedRuleMilder | crates/core/src/rule.rs:94-113 | adding a rule makes the outcome milder exactly in Paranoid, when nothing matched before and the new rule asks for less than a question |
| Rules.PositionalTokens | crates/core/src/rule.rs:483-506 | words that are no flags before the first `--`, and every word after it |
| Rules.PushRules | crates/core/src/rule.rs:280-307 | what the two push rules say about the first `git push` |
| Rules.PushRulesExclude | crates/core/src/rule.rs:280-307 | the two push rules never both match |
| Rules.DecidingRule | crates/core/src/rule.rs:81-113 | a matched event is decided by the last of the strictest rules that apply to it |
| Rules.BuiltInPolicy | crates/core/src/rule.rs:192-458 | the ten built-in rules in every mode above Observer: exactly when an operation is denied, asked about or allowed, and by which rule |
| RuleWords.PolicyOnWords | crates/core/src/rule.rs:192-528 | the policy on words: above Observer an operation is denied exactly when it forces a push, removes a tree, starts with an elevating word, or names a sensitive file or a secret; otherwise it is asked about exactly when the mode is Paranoid, or it deletes by a glob or five operands, or in Guard and above it pushes to main, adds everything, installs or pipes a download into a shell |
| RuleWords.RuleNamed | crates/core/src/rule.rs:81-113 | which rule is named, for every operation and mode, by the same words |
| RuleWords.RemoveIs | crates/core/src/rule.rs:311-320 | a tree is removed when some word after the first `rm` is `--recursive` or a single-dash word with an `r` |
| RuleWords.MainPushIs | crates/core/src/rule.rs:280-297 | a push goes to main when nothing after the first `git push` forces and the last operand after it is a main ref |
| RuleWords.BulkDeleteIs | crates/core/src/rule.rs:372-390 | bulk deletion: the first word is `rm` and a later word has a glob or there are five operands |
| RuleNotes.NoteSays | crates/core/src/rule.rs:115-170 | the note names every rule that speaks, in the order of the list; Observer names all rules that match, with the action of the deciding one in front |
| RuleNotes.StrictnessOrder | crates/core/src/rule.rs:181-190 | the order of actions and of modes |
| Scanner.CountInParts | crates/bridge/src/scanner.rs:302-316 | counting text in two parts is exact unless a line is cut between them; then it is one too high |
| Scanner.LineNumberLaw | crates/bridge/src/scanner.rs:239-316 | over every run of growths of at most one chunk and observed truncations, the stored line number is the number of non-empty lines read plus the number of cut lines |
| Scanner.IncrementalEqualsFullCount | crates/bridge/src/scanner.rs:239-316 | so it equals the full count exactly when no line was cut since the last truncation |
| Scanner.WholeLinesCutNothing | crates/bridge/src/scanner.rs:239-316 | writers that always stop at a line end cut nothing |
| Scanner.LongGrowthLosesLines | crates/bridge/src/scanner.rs:275-296 | the exact count after a growth of more than one chunk: the lines beyond the chunk are never counted, and a line cut at either end of the chunk counts once more |
| Scanner.Observer.ProcessObserver | crates/bridge/src/scanner.rs:98-207 | one look at an observer: deadlines before the transcript, the whole new row, exactly when the job is closed (it is there, active and stale), and what a failed update leaves undone |
| Scanner.Observer.Watch | crates/bridge/src/scanner.rs:57-88 | the loop as one observer sees it, over every series of looks: its job is closed at one look at most, the first stored one past the hard deadline, exactly if it is an orphan then; a job found fresh then is never closed; the cursor is that of the versions seen before |
| Scanner.IdleRightAfterActivity | crates/bridge/src/scanner.rs:124-151 | new text does not move the idle deadline: past it, the next look without new text makes the observer idle however recent the text |
| Scanner.StaleExactly | crates/bridge/src/scanner.rs:326-351 | when an orphan is closed: with a readable heartbeat exactly when it is older than 30 seconds and than three polls, with an unreadable one always, without one by the start of the job in the same way, and always when that cannot be read |
| Learn.AuditStore.GenerateSuggestions | crates/core/src/learn.rs:33-141 | nothing when some suggestion is as young as every decision; otherwise exactly one suggestion for each group of at least three approved events whose pattern is not stored, with its count and up to ten of its events; they are inserted, and then all their patterns are stored |
| Learn.OneGroupEach | crates/core/src/learn.rs:55-84 | every approved event counts in exactly one group |
| LearnShown.SuggestedExactly | crates/core/src/learn.rs:33-133 | what is suggested, by rows: one suggestion for each agent, tool and directory with at least three events that were asked about, allowed and never denied and whose first listed question has them, unless its pattern is stored; it counts these events and names up to ten different ones |
| LearnShown.MembersExactly | crates/core/src/learn.rs:51-87 | the events of a group, by rows |
| LearnShown.StoredExactly | crates/core/src/store/suggestions.rs:29-56 | the rows after an insert: those before, then for every pattern that was not stored the first suggestion with it, in order |
| Learn.DenialRemovesOneEvent | crates/core/src/learn.rs:55-67 | one denial takes its event out of its group and touches no other event and no other group |
| Learn.SecondRunFindsNothing | crates/core/src/learn.rs:97-103 | once the new patterns are stored, the same decisions suggest nothing |
| Learn.SamePattern | crates/core/src/learn.rs:95-103 | two different groups print the same pattern exactly when one has no directory and the other prints `*` |
| Learn.CollectApproved | crates/core/src/learn.rs:54-67 | the approved events are those asked about and allowed and never denied, each with its first question |
| LearnOrder.DescribedExactly | crates/core/src/learn.rs:28-67 | every event as described, asked about and later allowed, counts as approved; an approved event is not as described exactly when each permission for it is older than each question |
| LearnOrder.MembersSplit | crates/core/src/learn.rs:54-87 | a group is its events as described and its late ones, nothing twice |
| LearnOrder.SuggestedBeyondDescription | crates/core/src/learn.rs:28-103 | everything the description covers is suggested; a group is suggested beyond it exactly when fewer than three of its events are as described |
| LearnOrder.LateAsksAreSuggested | crates/core/src/learn.rs:28-103 | any three or more events each allowed first and asked about afterwards are suggested although none is as described |
| WorkflowEngine.WorkflowRunner.ExecuteStep | crates/bridge/src/workflows.rs:322-605 | one step that still has to run, with the manual wait after it: it leaves the run between steps, or stopped and safe |
| WorkflowEngine.WorkflowRunner.CancelledBefore | crates/bridge/src/workflows.rs:304-320 | a step already succeeded is passed over exactly when the cancel flag is not up; its row is never changed |
| WorkflowEngine.WorkflowRunner.SubmitStep | crates/bridge/src/workflows.rs:365-373 | a submission adds at most one job, with any status, reason and log, and keeps the run safe |
| WorkflowEngine.WorkflowRunner.BeginAttempt | crates/bridge/src/workflows.rs:336-347 | beginning an attempt of a pending step adds a new row under an unused number |
| WorkflowEngine.WorkflowRunner.BindJob | crates/core/src/store/workflows.rs:689-712 | the step and its attempt name the job that was submitted |
| WorkflowEngine.WorkflowRunner.RecordAttempt | crates/core/src/store/workflows.rs:713-748 | the attempt is closed under its own number, and no other attempt row changes |
| WorkflowEngine.WorkflowRunner.RecordStep | crates/bridge/src/workflows.rs:405-414 | the step takes the status of its attempt |
| WorkflowEngine.WorkflowStore.UpdateStepStatus | crates/core/src/store/workflows.rs:581-609 | only the transitions the statement allows change a row |
| WorkflowEngine.WorkflowStore.FinishAttempt | crates/core/src/store/workflows.rs:713-748 | exactly one attempt row takes the status and failure class |
| WorkflowEngine.WorkflowStore.SetCurrentJob | crates/core/src/store/workflows.rs:689-712 | exactly one step row and one attempt row name the job |
| WorkflowEngine.WorkflowStore.PrepareRetry | crates/core/src/store/workflows.rs:749-794 | a failed step with attempts left becomes pending one attempt further; any other row stays |
| WorkflowEngine.WorkflowStore.PrepareFallback | crates/core/src/store/workflows.rs:795-846 | a failed step becomes pending with its fallback provider and one more attempt, and the fallback is used up |
| WorkflowEngine.WorkflowStore.PrepareForRun | crates/core/src/store/workflows.rs:847-902 | a step that has any history gets a number above its last one and its full retries again |
| BoundedLog.LineRenewsWatchdog | crates/bridge/src/jobs.rs:1015-1054 | until then every reader line renews the watchdog, and no system line does |
| BoundedLog.LogWriter.Store | crates/bridge/src/jobs.rs:1020-1054 | the common part of both writers keeps the log as specified |
| JobExecutor.WorkerCanMove | crates/bridge/src/jobs.rs:1214-1650 | a worker that has not ended can always take a step |
| JobOutcomes.StopSeenAfterCancel | crates/bridge/src/jobs.rs:1401-1470 | a run in which the worker sees the stop marker after a cancel has emptied the slot |
| OverviewCache.FlagClearedAfterInvalidation | crates/bridge/src/routes.rs:1279-1295 | a run in which the flag is cleared after an invalidation by a write the snapshot does not include |
| LoginLockout.LoginGuard.RecordSuccess | crates/bridge/src/routes.rs:69-72 | a success forgets all failures and any lock |
| TimelineTurns.MarkGroups | crates/shared_ui/activity_segment.js:431-437 | the closing loop marks exactly the last turn |
| TimelineTurns.CollectRuns | crates/shared_ui/activity_segment.js:468-490 | the main loop collects the specified runs |
| TimelineTurns.MarkRuns | crates/shared_ui/activity_segment.js:493-501 | the closing loop marks exactly the last run |
| Learn.BuildEventActions | crates/core/src/learn.rs:47-51 | the map holds exactly the events of the decisions, each with its own rows in order |
| Learn.OfEventDecides | crates/core/src/learn.rs:54-67 | an event's own rows decide whether it is approved and which question comes first |
| Learn.GroupByKey | crates/core/src/learn.rs:69-87 | the groups are the first questions by key |
| Learn.GroupIsMembers | crates/core/src/learn.rs:69-87 | a group counts exactly the approved events of its key |
| Learn.Mine | crates/core/src/learn.rs:45-133 | from the decisions to exactly the new suggestions, over every order in which the groups are visited |
| Learn.InsertedPatterns | crates/core/src/store/suggestions.rs:29-56 | inserting stores the patterns and keeps the rows that were there |
| Learn.SuggestForGroups | crates/core/src/learn.rs:89-133 | one suggestion for every large group without a stored pattern |
| Learn.AuditStore.InsertSuggestion | crates/core/src/store/suggestions.rs:29-56 | a row with a stored pattern is ignored, any other is added |
| KimiRoundTrip.AddedLines | crates/core/src/hook_status.rs:998-1014 | what adding leaves line by line: no new legacy hook or `hooks = []`, the added events and no others to remove, and one separator line besides |
| KimiRoundTrip.BaseFacts | crates/core/src/hook_status.rs:989-996 | for every text, the cleaned-up text has no `hooks = []` line and no legacy hook block |
| KimiKept.AddKeeps | crates/core/src/hook_status.rs:980-1036 | for every text, what an add does to it, on old and new lines: nothing if it has nothing to report; otherwise the old lines in order without the `hooks = []` lines and the hook sections with an old command, up to carriage returns and at most two blank lines at the end, then one section for each added event |
| KimiKept.RemoveKeeps | crates/core/src/hook_status.rs:1039-1076 | for every text, what a remove does to it: nothing if no section that goes names an event; otherwise the old lines in order without the hook sections with the marker or an old command, up to carriage returns and at most two blank lines at the end |
| KimiKept.UnescapeEscape | crates/core/src/hook_status.rs:1007-1010 | the command written into the file reads back as the hook command |
| KimiPositions.RemoveByPosition | crates/core/src/hook_status.rs:664-736 | which lines a removal keeps, by place: all but those of hook sections with a marked line, in order |
| KimiReports.AddReports | crates/core/src/hook_status.rs:989-1036 | an add reports an event as removed exactly when a hook section with an old command names it last |
| KimiReports.RemoveReports | crates/core/src/hook_status.rs:1039-1076 | a remove reports an event exactly when a hook section that goes names it last |
| KimiReports.UnionMembers | crates/core/src/hook_status.rs:1055-1063 | the report lists the events of our own sections first, then each other one once |
| KimiReports.HitExactly | crates/core/src/hook_status.rs:1079-1098 | the check stops at the first command line after a line that names the event with no new hook section between, and finds whether that line has the marker |
| KimiSections.InstalledByPosition | crates/core/src/hook_status.rs:759-790 | an event is installed exactly when some section, cut at the headers the parser knows, names it last and has a command line with the marker |
| JsonHooks.NewEntryFacts | crates/core/src/hook_status.rs:930-950 | an added entry carries the marker and the agent and is not legacy |
| JsonKept.AddKeeps | crates/core/src/hook_status.rs:819-950 | for every file, what an add does, entry by entry: it stops and writes nothing exactly when an enabled event cannot take an entry; otherwise each enabled event without a current hook gets one entry with the literal matcher and command, exactly the entries with an old command go, in order, everything else stays, and the report says so |
| JsonKept.RemoveKeeps | crates/core/src/hook_status.rs:857-966 | for every file, what a remove does, entry by entry: exactly the entries with an old command or with a current one of the agent go, every event keeps its array, the events that lost one are reported, and nothing is written otherwise |

## Left out

- SQLite and the schema: each table is a field, and each statement used is a method or function that does what the
  statement says on the rows concerned. Statements whose result the source throws away are taken to succeed, except
  for log rows, where each one may be refused. Reading a job's log for the next prompt is taken to succeed as well; the
  source goes on with an empty log when it fails. Calls of start and cancel that fail before anything has changed are
  left out.
- HTTP routing, JSON and TOML text, SSE, process spawning and signals, file-system walks and clocks: parsed requests,
  rows, exit codes and clock readings are parameters.
- Shell splitting, password hashing, RFC 3339 parsing, SHA-256 and the standard hasher: their results are inputs;
  a suggestion's id stands for its pattern.
- Whether database calls may fail and whether other threads may cancel are parameters of the modelled runner, so that a
  run that stops can be held to a reason.
- WorkflowEngine.WorkflowRunner.WaitForAdvance: a wait that is never answered is no run, so the polls are finite.
- WorkflowEngine.WorkflowRunner.Start: two starts racing between the check and the registration of the runner are not modelled,
  nor is a second workflow.
- WorkflowEngine.WorkflowRunner.Cancel: the job cancels it asks the job runner for during a live run are not in this
  method; a job can end with any status at any time in the model, and `JobExecutor` has such cancels.
- WorkflowEngine.WorkflowRunner.Settle: reads the job's row after the wait as whatever it says then, which covers the late write of a cancel.
- JobRows.RowSays: assumes that one of the two attempts to write the worker's signal succeeds.
- JobExecutor.EmptiedWorkerEnds: a second job entering the slot before the first worker ends is not modelled; the check
  and the insert in `submit` are separate, so nothing prevents it.
- Project file activity is an arbitrary event of the watchdog loop; elapsed times are arbitrary as well.
- KimiRoundTrip.AddTwice: event names without quotes and line ends, and a one-line hook path with the current and without
  the legacy marker, as the callers pass them; `KimiKept.AddKeeps` the same.
- JsonHooks.JsonConfig.ReconcileAdd: the order of keys and of reported removals is not modelled; backups and file errors are left out.
- JsonKept.AddKeeps: a hook path with the current marker and a command without the legacy one, as the callers pass it.
- JsonHooks.AddTwice: needs an add that goes through; when it aborts nothing is written.
- OverviewCache.OverviewIsFresh: the flag is sequentially consistent; a poisoned mutex is left out.
- LoginLockout.LoginGuard.RecordFailure: the counter is unbounded, where the source has 32 bits.
- Timeline.BuildSegments: a message carries what `classifyTool` says about its tool; names that JavaScript objects inherit are left out, and so are summary texts.
- TimelineTurns.BuildTurnGroups: timestamps are instants, where the source compares their texts.
- Scanner.LineNumberLaw: assumes that a read returns the whole chunk; a character stands for one byte, which decoding does not change for line ends.
- Scanner.Observer.ProcessObserver: hashes and previews of the last line are left out; so is another thread closing the observer between its being listed and its update.
- Rules.BuiltInPolicy: what the shell splitter makes of a command and the lower-cased texts are inputs.
- Learn.AuditStore.GenerateSuggestions: titles and reasons are left out; the order in which groups are visited is arbitrary.
- The fallback of message paging to activity rows, relay, transcript import, HTML and shells, `compare_identities`, `merge_onto`,
  `build_agent_command`, enum conversions: they would add only easy members.
- Runtime-drift checks and resume-cost guards of `submit`: input and output around the single-worker protocol.
