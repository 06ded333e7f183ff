# Verified model of the deploy service

The service runs whitelisted commands on control nodes over SSH, from several pods that share one Redis, and fronts GitLab pipelines. This project models the four parts of it where the behaviour is not visible from any single function, and proves what holds of them over whole runs.

`dafny verify dfyconfig.toml` checks everything.

## What is modelled

**The command-run protocol.** A Run's record lives in Redis and is written by its launching task, by any number of killers and pollers on any pod, and by nobody once it has expired. `RunProtocol` is a transition system over one Run: program counters for the task, every killer and every poller, the remote script with its exit code and sidecar, the clock and the stored cell. Every choice of the environment is carried by an action, so a run is a sequence of actions and every theorem quantifies over all sequences. One repository `update` or `update_if` is one step there. `RunInvariants` proves the inductive invariant, `RunTheorems` what follows for whole runs, `ProcessGroups` where a Run's process groups are kept and whom a kill signals, `Leftovers` what a finished task can leave behind, `RecordTtl` how long the record lives, `ShortenedLife` when a write takes life from it, and `PodCapacity` puts many Runs on a pod behind the capacity check and the semaphore and shows that each of them is a run of the protocol.

`SplitStore` takes the repository operations apart into the read and the write they really are, gives the exact condition under which a write is the atomic operation's, and proves that a run with such writes only is a run of the atomic system. `SplitRaces` shows what happens otherwise, and `Finality` when a finished status is final.

`CommandDomain`, `CommandStore`, `CommandPool`, `CommandExecutor`, `CommandLifecycle`, `CommandPoll` and `ExitMarker` hold the code in its own form: classes with mutable fields and methods with loops, each proved against a function. Three lemmas (`LaunchAloneIsProtocol`, which puts `TaskAloneIsProtocol` after the protocol's first steps, `KillAloneIsProtocol` and `PollAloneIsProtocol`) then show that an undisturbed launch, kill or poll leaves exactly what the protocol's steps for that actor leave. What those are, in terms of what the script did and what the caller asked for, is said case by case, apart from the code that computes it: `LaunchOutcomes` for a launch, `KillLeaves` and `PollLeaves` for a kill and a poll.

**Incremental log delivery.** `Utf8` decodes bytes with replacement, `LogRenderer` splits, folds carriage returns, drops blank lines and numbers the rest, `LogDelivery` keeps the byte cursor with its held-back partial line and size caps, and `TraceCache` is the Redis cache in front of finished GitLab traces.

**The pipeline template compiler.** `PipelineBuilder` replaces placeholders one after the other in text and drops tokens of omitted optionals, against a simultaneous substitution on templates.

**Scan, duplicates and versions.** `PipelineScan` merges five list requests against pipelines that move in between, `DuplicateGuard` triggers pipelines behind the duplicate check, and `SemVer` parses and compares versions, with its twin in the shell script.

## Where code and documentation differ

The model follows the code.

- `update_if` is described as an atomic compare-and-swap (docs/arch/ssh-command.md:563 and 794). It reads, may yield, and writes back a whole record (app/repositories/command_state_repository.py:62-70). `SplitStore.SaveIsAtomicExactly` says for each write when that is as good; `SplitRaces.KillIsUndone` and `SplitStore.DirtySaveRecreates` are runs with a finished kill undone and an expired record brought back.
- A terminal status is not always final: a heal may finish a KILLING run, and the killer's last write, which has no condition, then puts KILLED over it. KILLED keeps the healed exit code. `Finality.SuccessBecomesKilled` is such a run, and `Finality.FinalExactly` says when a finished status is final. The order that does hold is RUNNING < KILLING < {SUCCESS, FAILED} < KILLED.
- `_build_variables` and the API description say EXECUTION cannot be overridden (app/services/deploy_service.py:39-40, app/api/v1/deploy.py:106). It can: `DuplicateGuard.ExecutionIsAction`.
- A comment in `parse_output` attributes a missing output to recovery from the marker (app/services/command_output_format.py:92-97). A Run that promises JSON is never recovered that way: `RunTheorems.JsonOutputIsCollected`.
- The trace cache means to discard a corrupted entry as a miss. Only an `OSError` from gzip is one; another decompression error, or Redis failing on the read, escapes to the caller (app/repositories/trace_cache_repository.py:69-71): `TraceCache.CacheIsTransparent`.
- The cursor subtracts held-back characters from a byte count (app/services/deploy_service.py:213-215): `LogDelivery.CursorExactly` gives the exact condition and `LogDelivery.SplitCharacter` the failing input.
- The two viewers decode differently: a job's trace with replacement (app/repositories/gitlab_pipeline_repository.py:606), a run's log strictly (app/services/command_trace.py:53), so a remote tail that ends inside a character is an error until the rest of it is written: `LogDelivery.GetCommandTrace`.
- A version with a final newline is accepted, because `$` matches before it (app/core/version.py:9): `SemVer.ParsesExactly`.
- A process-group write replaces the record's expiry (app/services/command_executor.py:818-824), so it may shorten the life of a result that is stored already and meant to stay for the result TTL: `ShortenedLife.ShortensExactly` says for which Runs.
- If the initial save of a Run fails, its pool entry and its connection stay (app/services/command_executor.py:769-799): `CommandExecutor.HandleAsyncExecution`.

## Model

| member | source | states |
|---|---|---|
| CommandStore.UpdateCell | app/repositories/command_state_repository.py:54-70 | the repository operation on one cell: saved exactly if present and the condition holds, otherwise untouched, never created |
| CommandStore.KeyInjective | app/repositories/command_state_repository.py:18-19 | different Runs never share a Redis key |
| CommandStore.CommandStateRepository.Save | app/repositories/command_state_repository.py:21-26 | stores under this id alone with its expiry; a TTL that Redis rejects stores nothing |
| CommandStore.CommandStateRepository.Get | app/repositories/command_state_repository.py:28-39 | the record if it is there and not expired, else an error |
| CommandStore.CommandStateRepository.Update | app/repositories/command_state_repository.py:41-52 | an undisturbed update is the operation on the cell; a missing record is an error and nothing is written |
| CommandStore.CommandStateRepository.UpdateIf | app/repositories/command_state_repository.py:54-70 | an undisturbed conditional update is the operation on the cell, and reports whether it wrote |
| CommandPool.RunningPool.Remove | app/services/command_pool.py:22-24 | exactly this entry goes; removing an absent one changes nothing |
| ExitMarker.RunScript.Cleanup | ansible/run-ansible.sh:381-401 | for every failed or normal run, at most once, the trap appends its line to the log and leaves the sidecar, where a poll looks for it, reading as exactly the exit code, and no temporary file; if writing fails half-way or the rename fails, the sidecar is as it was and the temporary file holds a prefix; no other file is touched |
| ExitMarker.SamePath | app/services/command_state_helpers.py:39-43 | the path a poll derives from the recorded log path is the sidecar the script writes |
| ExitMarker.MarkerRoundTrip | app/services/command_state_helpers.py:58-74 | reading what the script printed gives back the exit code, for every code |
| ExitMarker.ParsesExactly | app/services/command_state_helpers.py:65-67 | exactly the numerals with an optional sign and any leading zeros are read, each as the number it spells |
| Text.StripExactly | app/services/command_state_helpers.py:65-65 | stripping takes off exactly the spaces at both ends, and everything only from a blank text |
| RunInvariants.StepKeeps | app/services/command_lifecycle.py:26-150 | every action of every actor keeps the invariant: one winner at the gate, statuses that match how far it came, a truthful sidecar, results with a source, a clean pool |
| RunInvariants.Reachable | app/services/command_executor.py:742-915 | the invariant holds in every state of every run |
| RunTheorems.StatusRises | app/services/command_lifecycle.py:82-142 | between any two moments the status stays or strictly rises in RUNNING < KILLING < {SUCCESS, FAILED} < KILLED, and SUCCESS and FAILED never swap |
| RunTheorems.ExpiredStaysExpired | app/repositories/command_state_repository.py:41-70 | a record that was there and is gone is never recreated |
| RunTheorems.AtMostThreeChanges | app/services/command_lifecycle.py:82-142 | the status changes at most three times in a Run's life |
| RunTheorems.DirectFinishIsFinal | app/services/command_executor.py:568-579 | a result written straight over RUNNING never changes again |
| RunTheorems.GateOnlyFromRunning | app/services/command_lifecycle.py:82-94 | only turning a RUNNING record into KILLING lets a killer through, and once |
| RunTheorems.OneKillerPastGate | app/services/command_lifecycle.py:82-115 | over any run at most one kill call passes the gate, and every signal ever sent is that call's |
| RunTheorems.KilledWrittenOnce | app/services/command_lifecycle.py:96-142 | KILLED is written at most once in a Run's life |
| RunTheorems.KillingExplained | app/services/command_lifecycle.py:82-150 | a KILLING record has its one killer still at work between gate and finish, or stranded, and carries that killer's message |
| RunTheorems.StrandedOnlyBy | app/services/command_lifecycle.py:121-150 | a killer past the gate is stranded only by a missing SSH config, a failed connection or its own death |
| RunTheorems.HealSettles | app/services/command_state_helpers.py:112-137 | a heal that read an exit code leaves the record neither RUNNING nor KILLING, for the rest of the run |
| RunTheorems.PollHeals | app/services/command_service.py:93-105 | once the sidecar exists, an undisturbed poll of a RUNNING or stuck KILLING logged Run stores and answers with the script's own verdict |
| RunTheorems.KilledOverwritesHeal | app/services/command_lifecycle.py:140-142 | the winning killer's last write over a finished record puts KILLED there and keeps the exit code |
| Finality.FinalExactly | app/services/command_lifecycle.py:82-150 | a reachable SUCCESS or FAILED keeps its status in every continuation, until the record is gone, if and only if no killer has passed the gate or the one that has is stranded |
| Finality.SuccessBecomesKilled | app/services/command_lifecycle.py:96-142 | for every logged Run a run, from the launch on, that shows SUCCESS and then KILLED |
| RunTheorems.OnlyForceKillsProtected | app/services/command_lifecycle.py:46-68 | a Run that is not killable becomes KILLING or KILLED only if some call carried force |
| RunTheorems.UnforcedKillIsHarmless | app/services/command_lifecycle.py:188-197 | over any run of a protected Run, no step of a timeout or shutdown, on whichever pod, writes the record, and every signal ever sent is that of a call that began with force |
| RunTheorems.Confluence | app/services/command_state_helpers.py:78-137 | whoever decided, fast path or any heal on any pod, the finished record shows the script's exit code and its verdict if and only if the deciding write told that code: a heal's always does, the task's exactly if it stores a collected code and that is the script's |
| RunTheorems.ResultHasDecision | app/services/command_executor.py:568-574 | every finished record has such a deciding write in its run |
| RunTheorems.HealWins | app/services/command_state_helpers.py:112-137 | a heal over RUNNING is the last word, whatever the task collected or failed to collect |
| RunTheorems.WrongResultIsTheTasks | app/services/command_executor.py:887-904 | a finished record that does not show the script's verdict was written over RUNNING by the task itself, with something else than the script's collected code |
| RunTheorems.SchedulesAgree | app/services/command_executor.py:826-870 | two schedules of one script outcome, each decided by a write that told the code, end in the same status and exit code |
| RunTheorems.MarkerTellsTheTruth | ansible/run-ansible.sh:396-399 | a reader during the write-then-rename sees no marker or exactly the exit code |
| RunTheorems.RecordsAreWellFormed | app/domain/command.py:141-169 | in every reachable record: in-flight has no result, SUCCESS has exit code 0 and an output, FAILED has not exit code 0 |
| RunTheorems.JsonOutputIsCollected | app/services/command_output_format.py:72-121 | a Run that promises JSON is never healed, and a poll's JSON outcome is decided by what its own task collected, case by case |
| RunTheorems.UnloggedResultIsCollected | app/services/command_executor.py:505-516 | in every reachable state a result of a Run without a log has the exit code and the whole output its task collected, or is a failure of the task with neither |
| RunTheorems.CleanedUpOnce | app/services/command_executor.py:905-910 | an ended task closed its connection and left the pool exactly once; no task does either twice; every executing task is in the pool |
| ProcessGroups.ReachableGroups | app/services/command_executor.py:818-824 | in every reachable state the record has no groups up to the process-group write, the spawned ones while the task collects and stores, and never any others |
| ProcessGroups.SignalsHitOwnGroups | app/services/command_lifecycle.py:96-173 | over any run only groups this Run spawned are signalled, and every KILL directly follows a TERM to the same group |
| ProcessGroups.KillIsAllOrNothing | app/services/command_lifecycle.py:96-142 | if no signal fails, a KILLED record means that all the Run's groups got their TERM, in order, or none did |
| ProcessGroups.KnownKillIsWhole | app/services/command_lifecycle.py:104-142 | once the groups are known and nobody is past the gate, a kill that wins later, from whichever pod, signals all of them before KILLED is stored |
| ProcessGroups.KnownAfterWrite | app/services/command_executor.py:818-824 | they are known while the task collects and stores |
| Leftovers.LeftRunningExplained | app/services/command_executor.py:872-910 | a task that is over leaves a RUNNING record only if a timeout or shutdown call was refused by a protected Run or broke off, or storing the failure raised |
| RecordTtl.StepKeepsTtl | app/services/command_executor.py:799-824 | every action keeps the bounds on the record's expiry |
| RecordTtl.AliveAfterShortWait | app/services/command_executor.py:799-799 | after a semaphore wait of at most 30 seconds every access before the deadline finds the record |
| RecordTtl.AliveOncePgidsLanded | app/services/command_executor.py:818-824 | once the process groups were written, whatever the wait, the later accesses before the deadline find the record |
| RecordTtl.SafeWaitExactly | app/services/command_executor.py:872-875 | a wait is safe in all schedules if and only if it is at most 30 seconds and at most the result TTL less the timeout |
| ShortenedLife.ShortensExactly | app/services/command_executor.py:818-824 | some run shortens the life of a stored SUCCESS or FAILED by the process-group write if and only if the Run is logged and the result TTL is more than the timeout plus 30 seconds |
| SplitStore.SaveIsAtomicExactly | app/repositories/command_state_repository.py:62-70 | a write is the atomic operation's if and only if the record is there, the condition still holds on it, and changing it comes to the same as changing what was read |
| SplitStore.StepSimulated | app/repositories/command_state_repository.py:47-52 | each step of the split system with such writes is the atomic steps it stands for, with the write, or the read that ends the operation, as the point where it takes effect |
| SplitStore.CleanRunsAreAtomic | app/repositories/command_state_repository.py:41-70 | every run in which all writes are such writes reaches exactly the state of its atomic run |
| SplitStore.QuietRunsAreClean | app/repositories/command_state_repository.py:41-70 | they are in every run with no other save and no expiry between an operation's read and its write |
| SplitStore.SplitStatusRises | app/repositories/command_state_repository.py:54-70 | so statuses only rise in such runs of the code as it is |
| SplitStore.DirtySaveUndoesKill | app/services/command_executor.py:568-574 | a result write that is still pending when KILLED is stored puts SUCCESS or FAILED over it |
| SplitRaces.KillIsUndone | app/services/command_executor.py:568-574 | for every Run a run, from the launch on, that shows KILLED and then SUCCESS |
| SplitStore.DirtySaveRecreates | app/services/command_executor.py:818-824 | a process-group write that read before the expiry and wrote after recreates the record |
| PodCapacity.PodReachable | app/services/command_executor.py:917-928 | the bounds and every Run's invariant hold in every state of a pod |
| PodCapacity.ConcurrencyBounded | app/services/command_pool.py:36-45 | never more executing tasks than COMMAND_MAX_CONCURRENCY |
| PodCapacity.PoolBounded | app/services/command_executor.py:917-928 | pool and admitted requests stay within COMMAND_MAX_RUNNING - 1 plus the peak of simultaneous requests |
| PodCapacity.SerialPoolBounded | app/services/command_executor.py:917-928 | one request at a time keeps the pool within COMMAND_MAX_RUNNING |
| PodCapacity.RoomIsUsed | app/services/command_executor.py:917-928 | a request gets its Run into the pool exactly while there is room |
| PodCapacity.PlaceIsUsed | app/services/command_pool.py:36-45 | a waiting task gets the semaphore exactly while a place is free |
| PodCapacity.EachRunIsARun | app/services/command_executor.py:769-774 | what a pod does to one Run is a run of the protocol, so every theorem on single Runs holds for each |
| CommandExecutor.ExecutePipeline | app/services/command_executor.py:620-722 | spawning succeeds exactly if every step starts (and says READY when detached), and then the entry holds exactly the printed groups in order |
| CommandExecutor.AnnouncedAreRead | app/services/command_executor.py:672-706 | steps that print their group and READY all start, and the groups are the printed ones in order |
| CommandExecutor.PgidsAreThePrinted | app/services/command_executor.py:673-688 | the groups are, in order, exactly those of the steps whose first line spells a number; any other line adds none |
| CommandExecutor.StoreResult | app/services/command_executor.py:554-579 | a result is stored only over RUNNING and a lost race changes nothing |
| CommandExecutor.TimeoutWrapper | app/services/command_executor.py:872-910 | on success, failure and timeout alike the pool entry goes and the connection is closed once, with the record and signals of the task on its own |
| CommandExecutor.HandleAsyncExecution | app/services/command_executor.py:742-915 | the whole launch; an initial save that fails, for its expiry or because Redis does, leaves the entry and the connection behind |
| CommandExecutor.StoresByPolicy | app/services/command_executor.py:505-552 | what the output policy and the log-tail backfill produce is what the protocol stores |
| CommandExecutor.FailureTailIsTheEnd | app/services/command_executor.py:518-523 | the kept tail is the end of the output from a line start, with as many lines as configured, or all |
| LaunchOutcomes.SuccessIsStored | app/services/command_executor.py:505-579 | a script that ends with 0 gives SUCCESS with its output, or none kept if it has a log, the Run's groups, and the result TTL |
| LaunchOutcomes.FailureIsStored | app/services/command_executor.py:505-579 | any other end gives FAILED with the exit code and the output, or the end of the channel's output, or else of the log, if it has one |
| LaunchOutcomes.FaultIsStored | app/services/command_executor.py:887-904 | a step that does not start, or an exception while collecting, gives FAILED without exit code or output |
| LaunchOutcomes.TimeoutKills | app/services/command_executor.py:872-886 | a script that does not end is killed with all its groups if the Run may be killed, and otherwise let go, RUNNING and without a signal |
| LaunchOutcomes.ExpiredLeavesNothing | app/services/command_executor.py:554-579 | a record that expired on the way stays gone, and nothing is signalled |
| CommandExecutor.TaskAloneIsProtocol | app/services/command_executor.py:812-910 | an undisturbed task and the protocol's task leave the same record, signals, pool and connection |
| CommandExecutor.LaunchAloneIsProtocol | app/services/command_executor.py:742-910 | the protocol has a run from the empty state to the semaphore after which its task leaves what the undisturbed launch leaves |
| CommandLifecycle.DoKillViaConnection | app/services/command_lifecycle.py:152-173 | the loop sends TERM and, where the group survives, KILL to each group in order, and skips a group whose commands raise; what was sent is a two-phase kill of the listed groups |
| CommandLifecycle.KillsReachThese | app/services/command_lifecycle.py:152-173 | in such a kill exactly the listed groups that can be signalled get TERM, exactly those of them that survive it KILL, and no other group anything |
| CommandLifecycle.AllSentKills | app/services/command_lifecycle.py:152-173 | the signals of the loop are one: TERMs in list order, each directly followed by a KILL exactly if the group survived |
| CommandLifecycle.Guards | app/services/command_lifecycle.py:55-80 | which calls reach the gate |
| CommandLifecycle.KillCommand | app/services/command_lifecycle.py:26-150 | the record and the signals an undisturbed call leaves, other Runs untouched |
| CommandLifecycle.KillLeaves | app/services/command_lifecycle.py:26-150 | case by case: nothing for a Run that is gone, over, protected or without its SSH config; KILLING and no signal if the groups are out of reach; else KILLED after a two-phase kill of the pool entry's groups, or the record's |
| CommandLifecycle.SignalsSend | app/services/command_lifecycle.py:152-173 | the protocol's signalling steps send exactly what the loop sends and change nothing else |
| CommandLifecycle.KillAloneIsProtocol | app/services/command_lifecycle.py:26-150 | an undisturbed call and the protocol's killer leave the same record and signals |
| CommandPoll.HealFromMarker | app/services/command_state_helpers.py:78-137 | an undisturbed heal writes only over RUNNING or KILLING, and answers with what is stored afterwards |
| CommandPoll.GetExecutionResult | app/services/command_service.py:68-124 | the answer and the record of an undisturbed poll, the format check before the heal |
| CommandPoll.PollLeaves | app/services/command_service.py:68-124 | case by case: JSON is refused for a Run that never promised it; a logged Run in flight whose sidecar spells a code is finished with just that code, and FAILED keeps the log's tail; all else is answered as stored |
| CommandPoll.PollAloneIsProtocol | app/services/command_service.py:93-105 | an undisturbed poll and the protocol's poller give the same answer and the same record |
| Utf8.DecodeAtNewline | app/repositories/gitlab_pipeline_repository.py:606-606 | decoding with replacement splits at every newline byte, whatever ill-formed bytes surround it |
| Utf8.DecodeAtLineEnd | app/services/deploy_service.py:202-215 | complete lines and the partial line decode separately, and only newline bytes give newlines |
| Utf8.AsciiIsOneByte | app/services/deploy_service.py:213-215 | a plain ASCII partial line has one byte per character, as the cursor arithmetic needs |
| Utf8.DecodeOfEncode | app/repositories/gitlab_pipeline_repository.py:606-606 | decoding the UTF-8 of any text gives the text |
| Utf8.WellFormedExactly | app/services/command_trace.py:53-53 | the strict decoder accepts exactly the encodings of texts |
| LogRenderer.FoldSegments | app/core/log_renderer.py:68-79 | the carriage-return loop computes the fold |
| LogRenderer.FoldIsTerminal | app/core/log_renderer.py:68-79 | the fold is a terminal's column buffer: as wide as the widest segment, each column from the last segment that reaches it |
| LogRenderer.Render | app/core/log_renderer.py:31-104 | the loop shows exactly the lines of the text that do not come out blank, in order, each cleaned, put through the terminal's columns and numbered on |
| LogRenderer.RenderedDisplays | app/core/log_renderer.py:44-102 | the same of the specification: strictly increasing positions in the text's lines, every line that is not blank once cleaned among them |
| LogRenderer.NumbersRunOn | app/core/log_renderer.py:93-102 | numbers run on without a gap from the first, and no line is blank |
| LogRenderer.RenderInPieces | app/core/log_renderer.py:31-104 | rendering complete lines in two pieces, carrying the number over, is rendering them at once |
| Text.JoinOfSplit | app/core/log_renderer.py:44-46 | splitting a text loses nothing |
| Text.PartsHaveNoSeparator | app/core/log_renderer.py:44-46 | and leaves no separator inside a line or segment |
| LogDelivery.FormatSlice | app/services/command_trace.py:108-152 | for the one way to cut the new text after its last newline: its complete lines rendered, the rest held back |
| LogDelivery.GetFormattedJobTrace | app/services/deploy_service.py:147-239 | the response owed for the log, in every case: hard cap, partial line, nothing new, cursor past the end; with the size, and the warning exactly between the caps |
| LogDelivery.RendererIsPiecewise | app/core/log_renderer.py:31-104 | the renderer is one of those the schedule theorems speak of: complete lines may be rendered in pieces |
| LogDelivery.GetCommandTrace | app/services/command_trace.py:21-152 | the response owed when size and tail are two reads; not logged, file not there yet, cursor past the end, and an error exactly for a tail that is not UTF-8 |
| LogDelivery.CursorExactly | app/services/deploy_service.py:202-215 | the cursor lands just past the last complete line if and only if nothing was complete yet, or size and partial line are miscounted by the same amount (none, for one read and one-byte characters) |
| LogDelivery.SplitCharacter | app/services/deploy_service.py:213-215 | a held-back two-byte character leaves the cursor inside the line, and the next poll renders its second half as a line of its own |
| LogDelivery.PollKeepsStepExactly | app/services/deploy_service.py:202-239 | one poll keeps cursor, numbers and lines in step with the log if and only if it counts right or is stopped by the hard cap |
| LogDelivery.EveryScheduleRendersOnce | app/services/command_trace.py:58-152 | for an append-only log and any schedule of polls feeding back the cursors: after every poll the cursor is 0 or just past a newline and all lines with their numbers are one rendering of the log up to it, if and only if every poll counts right or is stopped by the hard cap |
| LogDelivery.InStepDisplays | app/services/deploy_service.py:147-239 | a viewer in step shows every complete line of the log so far that is not blank, once, cleaned and numbered |
| LogDelivery.SchedulesAgree | app/services/deploy_service.py:147-239 | however differently two viewers polled, caught up they show the same |
| TraceCache.FramesExactly | app/repositories/trace_cache_repository.py:80-101 | framing round-trips every trace if and only if the status is newline-free ASCII |
| TraceCache.RedisTraceCache.Get | app/repositories/trace_cache_repository.py:63-90 | what a stored blob reads as: miss, hit, or an error that escapes |
| TraceCache.GetJobTraceRange | app/repositories/gitlab_pipeline_repository.py:539-606 | the fetch through the cache, other jobs' entries untouched |
| TraceCache.AlwaysFaithful | app/repositories/gitlab_pipeline_repository.py:586-604 | after any sequence of polls, evictions, damage and failures a readable entry is the finished job itself |
| TraceCache.CacheIsTransparent | app/repositories/gitlab_pipeline_repository.py:539-606 | after any such history a poll answers what the fetch without a cache would, and raises exactly if reading the cache raises |
| TraceCache.NextPollHits | app/repositories/gitlab_pipeline_repository.py:586-604 | after a miss on a finished job with a trace, with Redis up, the next read is a hit |
| PipelineBuilder.ResolvePart | app/services/pipeline_builder.py:13-31 | the loop replaces argument after argument and fails on the first present placeholder with no argument |
| PipelineBuilder.ContainsExactly | app/services/pipeline_builder.py:25-26 | a text contains a placeholder exactly if it has it at some position |
| PipelineBuilder.ReplaceFillsHoles | app/services/pipeline_builder.py:24-27 | on well-formed templates textual replacement fills exactly the holes of that name, and the text contains the placeholder exactly if there is one |
| PipelineBuilder.SequentialIsSimultaneous | app/services/pipeline_builder.py:13-31 | as long as the values bring in no further placeholder, sequential replacement is simultaneous substitution, and fails exactly if a declared hole has no argument |
| PipelineBuilder.PlainIsQuiet | app/services/pipeline_builder.py:24-27 | values without an opening brace bring in none, whatever the template |
| PipelineBuilder.NoPlaceholderLeft | app/services/pipeline_builder.py:13-31 | no declared placeholder, nor `{run_id}`, is left |
| PipelineBuilder.OrderMattersExactly | app/services/pipeline_builder.py:24-27 | for any token with two arguments, one of them without an opening brace: replacing that one first is the simultaneous substitution, and replacing it last is the same if and only if the other's value brings in no further occurrence of its placeholder |
| PipelineBuilder.MissesExactly | app/services/pipeline_builder.py:24-27 | for any text, arguments and definitions: the loop fails exactly if, at some argument that was not supplied, the text with the ones before it filled in contains its placeholder; otherwise all supplied ones are replaced in order |
| PipelineBuilder.OmittedIsMissedExactly | app/services/pipeline_builder.py:24-27 | an omitted argument a token does not mention: defined first it is never missed, defined last it is missed if and only if the other's value brings its placeholder in |
| PipelineBuilder.CheckArguments | app/services/command_executor.py:238-254 | accepts exactly the requests no argument is objected to, and otherwise reports the first objection |
| PipelineBuilder.AcceptedExactly | app/services/command_executor.py:92-104 | accepted means: required arguments supplied, and every supplied one free of shell characters and matching its expression |
| PipelineBuilder.StripOmittedOptionals | app/services/pipeline_builder.py:33-64 | the two loops keep exactly the tokens that are not dropped |
| PipelineBuilder.SurvivorsAreTheUndropped | app/services/pipeline_builder.py:51-64 | what is kept is an ordered subsequence at exactly the positions that neither mention an omitted optional nor are the bare flag before one |
| PipelineBuilder.DroppedExactly | app/services/pipeline_builder.py:45-63 | a token goes exactly if it has the placeholder of an optional that was not supplied, or is a dash token without placeholders before one that has |
| PipelineBuilder.SurvivorsMentionNothing | app/services/pipeline_builder.py:51-64 | no kept token mentions an omitted optional |
| PipelineBuilder.FlagAndValueVanish | app/services/pipeline_builder.py:39-44 | a flag and the omitted optional after it disappear entirely, and nothing around them does |
| PipelineBuilder.BuildIsMeaning | app/services/pipeline_builder.py:66-76 | an accepted request whose values bring in no placeholder is built without ever missing an argument, into what its template means |
| PipelineBuilder.OrderIsIrrelevant | app/services/pipeline_builder.py:66-76 | with such values the definition order does not change what is built |
| PipelineBuilder.BuildMissesExactly | app/services/pipeline_builder.py:66-76 | for any pipeline, arguments and definitions: the build fails exactly if a token left after the stripping misses an argument |
| PipelineBuilder.TemplatesMissExactly | app/services/pipeline_builder.py:66-76 | for an accepted request the kept templates have all their own holes supplied, and the build fails exactly if one of them misses an argument its values brought in |
| PipelineBuilder.AcceptedButUnbuildable | app/services/command_executor.py:92-104 | a value with braces passes every check and still makes the build look up a missing argument |
| PipelineScan.ListRunning | app/repositories/gitlab_pipeline_repository.py:430-478 | the nested loops report the first stub of every id with its variables, and fail exactly if a list request fails |
| PipelineScan.FirstSeenIsUnique | app/repositories/gitlab_pipeline_repository.py:443-446 | no id is reported twice |
| PipelineScan.FirstSeenIsFirst | app/repositories/gitlab_pipeline_repository.py:443-446 | every report is the first sight of its pipeline |
| PipelineScan.ScanSeesExactly | app/repositories/gitlab_pipeline_repository.py:430-478 | a pipeline is reported if and only if some request asks for the status it has just then, and then once |
| PipelineScan.AdvancingIsReportedOnce | app/repositories/gitlab_pipeline_repository.py:41-47 | a pipeline that stays active and only advances between the requests is reported exactly once |
| PipelineScan.FallingBackIsMissed | app/repositories/gitlab_pipeline_repository.py:41-47 | one that falls back right after the first request is missed |
| PipelineScan.NewcomerIsMissed | app/repositories/gitlab_pipeline_repository.py:430-441 | so is one created during the scan that stays a status behind it |
| PipelineScan.ScanIsBounded | app/repositories/gitlab_pipeline_repository.py:436-441 | a scan reports at most five full pages |
| DuplicateGuard.LastStays | app/services/deploy_service.py:42-45 | the last value of a repeated key is the one that stays |
| DuplicateGuard.BuildVariables | app/services/deploy_service.py:34-45 | every key of the caller's has the value of its last occurrence, EXECUTION is the action if the caller has no such key, and there is nothing else |
| DuplicateGuard.ExecutionIsAction | app/services/deploy_service.py:34-45 | EXECUTION is the action if and only if the caller's last EXECUTION variable, if any, has that value |
| DuplicateGuard.BusinessExactly | app/services/deploy_service.py:47-61 | two sets of variables are compared by everything but SERVICE_FROM |
| DuplicateGuard.AccountIsAdded | app/api/v1/deploy.py:121-131 | the endpoint adds the caller's account and nothing else, and it is the one stored if and only if the body's last SERVICE_FROM, if any, has that value |
| DuplicateGuard.UnreadMatchesNothing | app/repositories/gitlab_pipeline_repository.py:448-455 | a pipeline whose variables could not be read is never taken for a duplicate |
| DuplicateGuard.DuplicatesAreTheMatches | app/services/deploy_service.py:65-92 | the duplicates are exactly the listed pipelines with the same business variables |
| DuplicateGuard.TriggerPipeline | app/services/deploy_service.py:94-127 | a conflict names the first duplicate and creates nothing; otherwise exactly one pipeline is created, with the action and the last value of every key of the caller's |
| DuplicateGuard.Stage | app/api/v1/deploy.py:121-131 | the trigger endpoint does what the run below assumes, and refuses exactly what the check endpoint shows |
| DuplicateGuard.CheckPredictsTrigger | app/api/v1/deploy.py:156-161 | the check reports exactly what would block the trigger, for every account |
| DuplicateGuard.QuietScanIsFaithful | app/repositories/gitlab_pipeline_repository.py:409-478 | a scan of a project at rest shows exactly its active pipelines of the ref with their variables |
| DuplicateGuard.GuardRefusesTwins | app/services/deploy_service.py:50-61 | with such a listing the guard refuses if and only if the new pipeline would have an active twin |
| DuplicateGuard.NeverTwins | app/services/deploy_service.py:94-127 | over any run of triggers, progress and cancels that do not overlap, no two active pipelines of one ref have equal business variables |
| DuplicateGuard.ReactivationKeepsExactly | app/services/deploy_service.py:138-141 | a retry keeps that if and only if no active twin has taken the pipeline's place |
| DuplicateGuard.OverlapKeepsExactly | app/services/deploy_service.py:110-127 | two triggers that both pass the check before either creates leave the project free of twins if and only if they differ in ref or business variables |
| DuplicateGuard.OverlapMakesTwins | app/services/deploy_service.py:110-127 | two users triggering the same on an empty project, both checking first, are both admitted and leave twins |
| SemVer.ParsesExactly | app/core/version.py:9-21 | the parser accepts a version's one printed form, with or without a final newline, and nothing else |
| SemVer.ParseIsInjective | app/core/version.py:12-21 | accepted strings denote one version if and only if they are equal up to a final newline |
| SemVer.MaxCommutesExactly | app/core/version.py:29-31 | `version_max` commutes except on two spellings of one version |
| SemVer.MaxIsAssociative | app/core/version.py:29-31 | it is associative and idempotent on strings |
| SemVer.ScriptVersionGe | ansible/run-ansible.sh:120-134 | the indexed loop decides by the first differing segment, and rejects malformed input |
| SemVer.AcceptanceDiffersExactly | ansible/run-ansible.sh:123-126 | the shell refuses what Python accepts exactly for a final newline, Python what the shell accepts exactly for a leading zero |
| SemVer.ImplementationsAgreeExactly | ansible/run-ansible.sh:121-134 | on all strings both accept with segments below a bound, they agree if and only if the bound is at most 2^63 |
| SemVer.PrecheckScriptVersion | app/services/command_executor.py:288-346 | accepts exactly if the check is off or the version read is at least the whitelist's and the caller's floor; and what each rejection means |

## Left out

- HTTP routing, authentication, templates and the HTML pages: no state of the modelled parts is decided there.
- Connection metadata of a record (host, port, user, names, timestamps): fixed at launch and only passed on.
- `list_states` and the listing of running commands: a filter over single records.
- Unparseable records in Redis: `get` treats them as missing, and no writer produces one.
- Redis failing during a write: stands in the protocol as an exception of the task, also of the one that stores its failure, or as the death of the killer; such a write is taken to have stored nothing.
- Fire-and-forget commands: they keep no record.
- Failure messages: fast path and heal store different ones by design, so only status and exit code are compared.
- CommandExecutor.HandleAsyncExecution: the launch undisturbed by other actors and with a timeout only while output is collected; interleavings and earlier timeouts are covered by the protocol's steps. A failed initial save is taken to have stored nothing.
- CommandExecutor.ExecutePipeline: quoting, piping and the remote shell are not modelled; a step either prints its two lines or cannot be spawned.
- CommandLifecycle.KillCommand: undisturbed by other actors, and signals are delivered as the environment says; interleavings are covered by the protocol's steps.
- RunTheorems.CleanedUpOnce: given that the initial save succeeded and the pod lives; the other case is CommandExecutor.HandleAsyncExecution.
- RunTheorems.UnforcedKillIsHarmless: the order in which a shutdown goes through the pool is not modelled.
- PodCapacity.ConcurrencyBounded: bounds the semaphore's holders; the order in which waiters get it is not modelled.
- ExitMarker.MarkerRoundTrip: `int` also reads digits outside ASCII and underscores, which the script never writes.
- ExitMarker.RunScript.Cleanup: the rest of the script (clone, secrets, docker, log retention) is input and output; the modes are reduced to normal, debug and dry-run.
- LogRenderer.Render: the regular-expression clean-ups and the conversion to HTML are two functions of a line, left abstract.
- LogDelivery.EveryScheduleRendersOnce: needs size and tail from the same file contents; CursorExactly says what happens without.
- LogDelivery.GetCommandTrace: which exception an undecodable tail raises, and what it does to the connection, is the SSH library's matter.
- TraceCache.CacheIsTransparent: gzip is any pair of functions that invert each other, damage never forges a readable entry, and a finished job's trace is frozen.
- TraceCache.GetJobTraceRange: GitLab failing on the fetch itself is the same with and without the cache and is not modelled.
- PipelineBuilder.BuildIsMeaning: what is built is its template's meaning for templates whose braces are placeholders only and values that bring in no placeholder; BuildMissesExactly and TemplatesMissExactly say for all values exactly when the build fails, OrderMattersExactly for two arguments what other values do to the text.
- PipelineBuilder.CheckArguments: the regular-expression engine is a parameter; host lists and the lookup of the command in the whitelist are first-match loops over such predicates.
- DuplicateGuard.NeverTwins: needs listings that show every active pipeline with its variables, as a scan of a project at rest does; a status page that overflows at 50, or variables that cannot be read, let a duplicate through. So does a pipeline with more variables than the one page that app/repositories/gitlab_pipeline_repository.py:448 asks for, whose variables are then read in part.
- SemVer.ParsesExactly: digits are ASCII digits, while `\d` also matches others.
- SemVer.PrecheckScriptVersion: the token that looks like a version is found by a regular expression and is a parameter.
- SemVer.ScriptVersionGe: shell arithmetic is taken to wrap at 64 bits.
- Whitelist and SSH configuration loading, settings, logging, dry-run stubs and the fake API: plumbing.
