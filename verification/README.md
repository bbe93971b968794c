# Tether, modelled and proved in Dafny

Tether keeps shell workloads alive in tmux, locally and over SSH, and remembers them in one
state file. Its promises are about what can go wrong between the steps of an operation: a
crash, a transport that times out after it took effect, another process that got there first.
This project models the parts of Tether where those promises are decided and proves them for
every input, every run or every interleaving.

`dafny verify dfyconfig.toml` checks everything.

## How the model is laid out

**Durable lifecycle.** `Records` is the state file's content: session records, groups, what
makes a state valid, restart pacing. `Tmux` is what the backend promises; `Audit` is the trail
of transitions. `Lifecycle` cuts stop, open, observe, restart, remove and create into their
atomic steps (`Step`, `Advance`), each taking the outcome of one transport or one write as a
parameter (`Chance`): how much time passed, whether it failed, and whether a failing one took
effect all the same. `LifecycleService` is the same code as a class whose methods edit the
stored record field by field. What its transports and writes will do is given to it in advance
as a sequence of answers; every operation ends exactly where the one run of the step machine on
those answers ends, with the value or the error that this run determines, so what is proved
about all runs is proved about it.

Five modules prove what the steps keep:

* `KillSafety`: any number of operations by any number of processes, in any interleaving, each
  stopping anywhere. Whatever an operation ends, it had seen twice.
* `SingleIncarnation`: one operation after another, each cut short anywhere, where the
  environment resolves the same socket every time. A session never has two incarnations, on
  the socket its record names or on the one that is resolved.
* `StopRecovery`: from any state such a run can leave, one more stop gets to the end.
* `TrailChain`: without crashes, failed writes or overlap, the trail is one linked story for
  each session and ends where the record is.
* `Validity` and `RemovedStays`: in every interleaving the stored state is valid at every
  moment, no group names a removed session, and when a removal is final.

`Store` is the state file with its single-pass validation, and `Prune` the prune service on it.

**Discovery.** `Publication` is the worker pool, the one-slot channels and the ordered
publisher as a state machine; `Reservations` the entry budget's split; `LocalScan` the bounded
walk over directories; `RemoteRecords` the parser of a remote scan's output.

**Smaller cores.** `Glob` (include patterns), `Usage` (process trees), `Capture` (terminal
output), `Quote` (shell words), `Names` (made-up names and labels), `Observer` (the observer's
state over refreshes), `Keybinding` (install and rollback) and `Prompt` (reviewed delivery).

`Common` and `Text` hold shared vocabulary.

`{:induction false}` marks the proofs that do their own induction.

## What is not true of the code

Four claims one would like to make fail, and the exact condition is proved instead.

* *Removed is final.* A restart commits its reservation, reads it back, and does not look at
  the status it reads (`src/lifecycle.rs:706-759`). If the reservation was ended and removed in
  between, the restart launches again and its promotion takes the record out of its removal.
  `RemovedStays.RemovalCanBeUndone` is such a run, `RemovedStays.WhatEndsARemoval` shows that
  this promotion is the only step that can do it, and `RemovedStays.RemovalIsFinal` that
  wherever no restart reads back a removed reservation, a removal holds at every later moment.
* *Include patterns match what they should.* `*` in a value is taken literally before `*` in
  the pattern is taken as a star (`src/sshcfg.rs:171-178`). `Glob.WhereTheyAgree`: the function
  agrees with the relation for every pattern exactly on values without `*`, and for every value
  exactly on patterns without `*`.
* *A run's completion is its worst verdict.* Reaching the result limit hides an earlier timeout
  (`src/discovery.rs:530-563`). `Publication.WhenTheVerdictIsTheWorst` reads the condition off
  the request: the completion is the worst published verdict, exactly unless the result limit
  is passed at some location and an earlier location ends in a timeout.
  `Publication.TheVerdictCanFallShort` is such a request.
* *A lifecycle write is always valid.* `Validity.ReplacementIsValid`: exactly when the clock is
  not behind the record's creation wherever the write reads it, and a promotion's socket is a
  usable name. `Validity.ClockBehindCreation` is a valid record for which the writes of a
  removal, of a promotion and of a stop's end are not valid.

## Model

| member | source | states |
|---|---|---|
| KillSafety.EveryKillIsJustified | src/lifecycle.rs:189-265 | in every interleaving with crashes anywhere, an ended session was seen twice by the same operation under its own proof and identity, as the very same incarnation; a stop had committed its own stopping write between the two looks, and a restart or a removal saw the command exited both times |
| KillSafety.OnlyRecordedKillsEndSessions | src/lifecycle.rs:327-354 | a step of an operation takes at most one session out of the backend, the one its guarded kill names, and no other step takes any |
| KillSafety.EndsAreReal | src/lifecycle.rs:271-292 | an inspection that answers ended about an honestly recorded pane means that the launched command has exited |
| SingleIncarnation.NeverTwoIncarnations | src/lifecycle.rs:628-781 | over every sequence of operations, each cut short anywhere and every create uncertain, wherever records name another socket than the resolved one: no two places on any socket hold incarnations of one recorded session, nothing runs behind an ended record, and nothing is left behind a removed one |
| SingleIncarnation.InspectionsAreTruthful | src/lifecycle.rs:271-292 | on the socket a record names, or the resolved one if it names none, absent means no incarnation anywhere, and an identity is the only one there is |
| SingleIncarnation.LaunchingKeepsTies | src/lifecycle.rs:730-758 | creating from a reservation with no incarnation left keeps the tie between record and tmux, whether the creation is reported, refused or uncertain |
| StopRecovery.RerunningStopRecovers | src/lifecycle.rs:189-265 | from any moment of any such run, stopping again against a reachable backend ends the record and the incarnation, kills nothing if an earlier kill took effect, and keeps the recorded identity and start |
| StopRecovery.StopCompletes | src/lifecycle.rs:416-467 | eight steps always complete a stop of an open record, with one kill exactly if something is left, and no other record changes |
| TrailChain.TheTrailTellsTheStory | src/lifecycle.rs:159-180 | in runs without crash, failed write or overlap, each retained transition of a session starts where the one before ended, and between operations the last one ends at the record's status |
| TrailChain.NotingKeepsLines | src/audit.rs:198-219 | appending a transition that continues a session's line, and retaining, leaves the line linked and ending there |
| Audit.RetentionDropsAPrefix | src/audit.rs:237-248 | on a trail written in order, age and ceiling together only ever drop a prefix |
| Audit.RetainBounded | src/audit.rs:237-248 | at most 4096 transitions are retained |
| Validity.EveryStateIsValid | src/state.rs:545-685 | in every interleaving of operations, with any failures, the stored state is valid at every moment, so validation refuses no lifecycle write but an insertion |
| Validity.ReplacementIsValid | src/lifecycle.rs:892-966 | each compare-and-swap of a valid record writes a valid record exactly when the clock is not behind its creation where the write stamps it and a promotion's socket is usable |
| Validity.ClockBehindCreation | src/state.rs:567-639 | a valid record created after what the clock says, for which the writes of a removal, of a promotion and of a stop's end are invalid |
| Validity.StoppedIsValid | src/lifecycle.rs:416-467 | the final write of a stop is valid exactly when the clock is not behind the record's creation |
| Validity.ForgettingKeepsGroups | src/lifecycle.rs:1243-1250 | reconciled groups stay valid, name no removed session, and every group led by somebody else keeps exactly its other workers in order |
| RemovedStays.WhatEndsARemoval | src/lifecycle.rs:706-781 | one step takes a record out of its removal exactly when it is the promotion that ends a restart whose reservation was that removed record; no step loses a removed record |
| RemovedStays.RemovalIsFinal | src/lifecycle.rs:784-886 | where no restart reads back a removed reservation, a removed record is there and removed at every later moment of any interleaving, until somebody else prunes it |
| RemovedStays.GroupsForgetTheRemoved | src/lifecycle.rs:1243-1250 | over any interleaving in which everybody else's writes leave it so, no group ever names a session whose record is removed |
| RemovedStays.RemovalCanBeUndone | src/lifecycle.rs:690-758 | a run of a restart, an observation and a removal after which a removed record is running |
| LifecycleService.LifecycleService.StopOwned | src/lifecycle.rs:189-265 | on given answers it ends where the run of atomic steps ends, in store, tmux, trail and error; it reports termination exactly if a session went; and it has stopped a recorded open session whenever nothing outside failed |
| LifecycleService.LifecycleService.EnsureStopping | src/lifecycle.rs:379-414 | one step of the run: edits the exact record it read to stopping under the found identity, or writes nothing and reports why |
| LifecycleService.LifecycleService.FinishClose | src/lifecycle.rs:416-467 | one step of the run: ends a record that is still the same stopping session, accepts one already ended, and refuses anything else |
| LifecycleService.LifecycleService.OpenOwned | src/lifecycle.rs:470-526 | ends where the run ends and touches nothing in tmux; what it returns is the identity that runs there and that the record now carries |
| LifecycleService.LifecycleService.ObserveOwned | src/lifecycle.rs:528-622 | ends where the run ends; what it returns is what an exact inspection of the recorded session shows |
| LifecycleService.LifecycleService.RestartOwned | src/lifecycle.rs:628-781 | ends where the run of a restart ends: promote what runs, reap what exited, reserve, create, promote; success returns the identity the record runs as |
| LifecycleService.LifecycleService.RemoveOwned | src/lifecycle.rs:784-886 | ends where the run of a removal ends, with or without a proof; it reports a termination exactly if the record was ended and its exited session was still there |
| LifecycleService.LifecycleService.MarkEnded | src/lifecycle.rs:892-929 | one step of the run: edits the exact record it read to ended and judges the end, or writes nothing |
| LifecycleService.LifecycleService.PromoteRunning | src/lifecycle.rs:931-968 | one step of the run: edits the exact record it read to running under the given incarnation, or writes nothing |
| LifecycleService.LifecycleService.Note | src/lifecycle.rs:159-180 | one step of the run: records a transition that changed the status, and never stops the operation |
| LifecycleService.LifecycleService.CreateAndAttach | src/cli.rs:1505-1558 | ends where the run of a create ends: reserve, launch, then activate, keep an uncertain reservation, or take a certainly failed one back; success returns the identity the record runs as |
| LifecycleService.OperationsKeepTies | src/lifecycle.rs:628-781 | at every moment of a run on any answers, every record is tied to what exists in tmux |
| LifecycleService.OperationsKeepValid | src/state.rs:545-685 | at every moment of a run on any answers, the stored state is valid |
| LifecycleService.AnswersDetermineTheRun | src/lifecycle.rs:189-265 | there is one run from a start to an end on given answers, so they determine what an operation leaves and reports |
| LifecycleService.UnhinderedStopHasStopped | src/lifecycle.rs:189-265 | a stop of a recorded open session that met only answers and successful writes has succeeded and has stopped it |
| LifecycleService.TmuxBackend.CloseExact | src/tmux.rs:361-383 | ends exactly the session of that name, proof and identity on that socket, or nothing |
| LifecycleService.TmuxBackend.Create | src/tmux.rs:625-697 | creates only where no session of that name exists, and tells a certain failure from an uncertain one |
| Records.PaceIsCappedDoubling | src/state.rs:229-248 | a paced restart waits min(300 s, 30 s doubled for each repeat) after the end, and the arithmetic stays inside its widths |
| Records.LapsedPaceNeverReturns | src/state.rs:185-248 | for a record nobody rewrites the paced-until moment never grows, so a lapsed pace never takes hold again |
| Records.NotingKeepsTheNewest | src/state.rs:257-268 | noting an end keeps at most sixteen: the newest of what is inside the memory window, the new end last, and older ones are dropped only of more than sixteen |
| Store.Validate | src/state.rs:545-685 | the single pass with its growing sets accepts exactly the valid states |
| Store.ValidateSessions | src/state.rs:567-639 | accepts exactly unique ids and records valid on their own |
| Store.ValidateWorkers | src/state.rs:654-682 | accepts exactly workers that are not the orchestrator, differ, have fresh memberships and some capability |
| Store.StateStore.Save | src/state.rs:900-908 | reports success only with a valid state stored; a failure leaves the old state or the whole new one |
| Prune.PruneService.PreviewAt | src/lifecycle.rs:1140-1163 | captures exactly the records old enough at that instant, in order, and changes nothing |
| Prune.PruneService.Apply | src/lifecycle.rs:1169-1206 | removes what is unchanged and still old enough, reports the rest as skipped, reconciles groups, keeps validity, and fails only with the file system |
| Prune.PruneService.AutomaticCleanupAt | src/lifecycle.rs:1216-1240 | removes exactly the finalized removed records past the default retention |
| Prune.ApplyPartitions | src/lifecycle.rs:1169-1206 | every candidate is reported once; the records that go are exactly the unchanged eligible candidates; all others stay in order; no group names one that went; the state stays valid |
| Prune.ChangedCandidatesStay | src/lifecycle.rs:1169-1206 | whoever changed a candidate after the preview keeps it, even if it is old enough |
| Prune.CleanupTakesOnlyTheRemoved | src/lifecycle.rs:1216-1240 | only removed records go, and cleaning up again at that moment changes nothing |
| Publication.EveryRunEnds | src/discovery.rs:247-300 | every run is finite with a bound fixed at its start, and a run in which no worker and no publisher can move has finished with every worker gone: no deadlock |
| Publication.SomebodyCanMove | src/discovery.rs:373-423 | until a run is over, a worker or the publisher can move, because jobs leave the queue in request order |
| Publication.PublicationIsOrderedAndBounded | src/discovery.rs:24-25 | at every moment of every run the published messages begin the one publication the request determines, and they fit the receiver's channel even if nobody receives |
| Publication.PublicationIsDeterministic | src/discovery.rs:466-528 | a run nobody cancels publishes exactly what the request determines whatever the scheduling: the first repositories in request order up to the limit, and the limit as completion when there were more |
| Publication.FinalRepositories | src/discovery.rs:466-528 | the sequential publisher keeps the first repositories in request order and goes over its limit exactly when there were more |
| Publication.PublishOutcomes | src/discovery.rs:466-528 | the publisher's nested loops compute that publication and its completion |
| Publication.WhenTheVerdictIsTheWorst | src/discovery.rs:530-563 | for any request: the completion is the worst published verdict, exactly unless the result limit is passed at some location and an earlier location ends in a timeout |
| Publication.RunsReportTheWorst | src/discovery.rs:466-563 | the same of the completion and the messages of every run that nobody cancels |
| Publication.TheVerdictCanFallShort | src/discovery.rs:530-563 | an admitted request whose completion says less than a verdict it publishes |
| Reservations.JobQueue.Pop | src/discovery.rs:373-397 | jobs leave in request order, each with the share fixed by its index |
| Reservations.NextShare | src/discovery.rs:392-396 | rounding the rest up over the jobs that remain gives equal parts with the remainder to the first |
| Reservations.SharesAddUp | src/discovery.rs:362-367 | the shares add up to the whole entry budget |
| LocalScan.ScanLocal | src/discovery.rs:573-615 | never exceeds its limits, reports at most one error for each root, and publishes only topmost repositories; if it completes with budget to spare on an error-free tree, it publishes all of them once each; and undisturbed on such a tree with budget to spare, it completes |
| LocalScan.LocalScan.Visit | src/discovery.rs:636-729 | the same for one path within the remaining depth |
| LocalScan.LocalScan.Stopped | src/discovery.rs:618-634 | stops only with a verdict other than complete or a cancellation |
| LocalScan.RetainBoundedChild | src/discovery.rs:732-742 | whatever order children come in, the heap holds the least of them up to its capacity |
| LocalScan.SortedIsAPermutation | src/discovery.rs:713-714 | the children are visited in order and none is lost |
| RemoteRecords.ParseRemote | src/discovery.rs:911-1000 | the cursor loop reads the records its reading function defines |
| RemoteRecords.PrintedRecordsReadBack | src/discovery.rs:911-1000 | what a scan prints is read back exactly: the different repositories in order, up to the limit, and why the scan ended |
| RemoteRecords.OutputIsNeverTrustedBlindly | src/discovery.rs:911-1010 | whatever is printed, the repositories read are different, within the limit and below the asked roots |
| RemoteRecords.MalformedIsExactlyUnspelled | src/discovery.rs:911-1000 | output is malformed exactly if it is not the terminated fields of records, up to its end or to a repository beyond the limit; otherwise it means those records |
| Glob.WildcardMatch | src/sshcfg.rs:167-189 | the loop with one star to go back to ends, and answers what its positions lead to |
| Glob.AcceptsWhatMatches | src/sshcfg.rs:167-189 | whatever is accepted matches the declarative pattern relation, and without a `*` in the value or in the pattern everything that matches is accepted |
| Glob.WhereTheyAgree | src/sshcfg.rs:171-178 | agreement for every pattern holds exactly on values without `*`, and for every value exactly on patterns without `*` |
| Usage.SumWorkloadUsage | src/status.rs:811-852 | a workload appears exactly if a live process is at or under its panes, with the sum over exactly those processes, each once, memory saturating |
| Usage.SumOne | src/status.rs:824-837 | the worklist ends and sums what is reachable, with cycles, repeated roots and missing roots |
| Usage.TotalWith | src/status.rs:824-837 | the total does not depend on the order of adding |
| Capture.SanitizingIsCleanLongestAndIdempotent | src/observer.rs:1612-1660 | sanitized text holds no escape, control or unsafe format character, is the longest cluster-aligned end within the budgets of bytes, lines and cells, and sanitizing it again changes nothing |
| Capture.TokensAreTheText | src/observer.rs:1612-1635 | the text is taken apart into escape sequences, line ends and characters without loss or overlap, each whole |
| Capture.EscapesAreWhole | src/observer.rs:1695-1721 | what is skipped after an ESC is exactly one complete escape sequence, or an unfinished one at the end of the text |
| Capture.SanitizeCapture | src/observer.rs:1612-1635 | strips and cuts as the functions above define |
| Capture.BoundedTail | src/observer.rs:1637-1660 | the result fits the budgets and no longer end does |
| Capture.CaptureViewport | src/observer.rs:1662-1693 | equals the last rows of the unbounded wrap, without ever holding more |
| Capture.WrappingFitsAndKeeps | src/observer.rs:1662-1686 | every row fits the width and the rows hold every cluster that fits a row, in order |
| Quote.PosixQuote | src/quote.rs:8-24 | refuses exactly values with a NUL, and uses exactly the space it reserves |
| Quote.PosixCommandLine | src/backend.rs:30-43 | refuses exactly commands with a NUL somewhere |
| Quote.CommandLineReadsBack | src/backend.rs:30-43 | a shell takes the line apart into exactly the program and arguments |
| Quote.CommandLinesAreDistinct | src/backend.rs:30-43 | different commands never share a command line |
| Quote.NestedCommandsReadBack | src/backend.rs:30-43 | a command line passed as an argument of another survives both shells |
| Names.NextGroupIdentity | src/observer_manager.rs:656-695 | within one more try than there are groups it finds the first unused id, and the parsers accept id and title |
| Names.SuffixedIdsAreAccepted | src/model.rs:341-361 | every generated id with a suffix of up to five digits is an acceptable group id |
| Names.SlugsAreSlugs | src/observer_manager.rs:1015-1048 | a slug starts with a letter, ends with a letter or digit, has no double dash and fits |
| Names.SlugsStay | src/observer_manager.rs:1015-1048 | what is a slug already is its own slug |
| Names.ComponentsAreTitles | src/observer_manager.rs:981-1013 | a safe component is an acceptable title |
| Names.NeatComponentsStay | src/observer_manager.rs:981-1013 | what is neat already is its own safe component |
| Names.CandidateLabels | src/observer_manager.rs:913-943 | exactly the eligible sessions get labels, shared ones extended by the shortest reference that tells them apart |
| Names.LabelsAreDistinct | src/observer_manager.rs:913-943 | different eligible sessions never carry the same label |
| Observer.ObserverState.UpdateWorkers | src/observer.rs:529-696 | keeps ids unique and few, statuses on exactly the workers, a selection whenever there is a worker, prompt targets promptable; carries each worker over as defined; reports exactly the news |
| Observer.ObserverState.MergeCapture | src/observer.rs:719-771 | changes one worker's capture and status as defined, and nothing about who is known |
| Observer.ObserverState.Apply | src/observer.rs:838-944 | keeps the invariants, and asks only for what the named workers allow |
| Observer.ObserverState.SelectPageOffset | src/observer.rs:957-967 | moves to the first worker of the neighbouring page where there is one |
| Observer.SelectionIsVisible | src/observer.rs:797-809 | the shown page is never too long and holds the selected worker |
| Observer.ReportsAreNewFailures | src/observer.rs:646-672 | a refresh reports the failure of an incarnation exactly when it shows it failing and the view before showed the worker but not this failure |
| Observer.OtherMovesShowTheSame | src/observer.rs:698-771 | a measurement, a capture or an action shows no other lifecycle and no other incarnation of any worker |
| Observer.FailuresAreReportedOnce | src/observer.rs:646-672 | over any run of refreshes, measurements, captures and actions in which failures last and identities are not reused, each incarnation's failure is among the returned attentions at most once |
| Keybinding.HerdrKeybindingStore.Install | src/config.rs:122-231 | ends where its chances lead; it succeeds exactly if it may install and nothing fails, and then the binding is in and the original backed up byte for byte |
| Keybinding.HerdrKeybindingStore.Rollback | src/config.rs:83-120 | ends where its chances lead; it succeeds whenever the configuration is what the backup says Tether left and nothing fails, and then the backup is restored and consumed |
| Keybinding.TheOriginalIsNeverLost | src/config.rs:173-231 | over any number of attempts, each cut short anywhere, the original bytes are the configuration or the backup |
| Keybinding.EveryStopCanBeFinished | src/config.rs:83-231 | from the end of any such history, a rollback that meets no failure restores the original bytes, and an installation that meets none completes or finds itself completed |
| Keybinding.InstallThenRollbackRestores | src/config.rs:83-231 | after any history, an installation that reports success is undone to the original bytes by the next rollback that meets no failure |
| Keybinding.RollbackSparesEdits | src/config.rs:99-104 | a rollback changes only a configuration that is the backup with the binding |
| Prompt.MissionControlService.DeliverOne | src/mission_control.rs:319-393 | one episode: exactly if four reads, a state, a snapshot, a state and a snapshot in this order, agree on one settled occupant, they are followed by one prompt to whom the last of them found; otherwise there are only reads and the destination is rejected |
| Prompt.MissionControlService.DeliverReviewedPrompt | src/mission_control.rs:262-317 | results line up with targets; each destination named first has its own episode, repeats are rejected, and unreviewed or oversized requests do nothing at all |
| Prompt.EveryPromptIsJustifiedAndSingle | src/mission_control.rs:262-393 | whatever the world answers, a request prompts only its own destinations, each at most once, and each prompt comes right after the four reads that justify it |
| Prompt.ResolvingFindsTheOne | src/mission_control.rs:559-609 | a snapshot resolves exactly when one agent, and only one, carries the tokens and is of the expected kind |

## Left out

Assumptions about the outside, which the code cannot check either:

- tmux identities and pane identities are never issued twice on one socket; a server that restarts and counts anew is outside the model.
- The guarded kill and the named create are each one command on the server (`src/tmux.rs:361-383`, `src/tmux.rs:625-640`); a transport that fails may still have taken effect, but not after its operation has ended.
- The two queries of an exact inspection (`src/lifecycle.rs:279-291`) are one answer about the launched pane.
- State writes are atomic under the lock (`src/storage.rs:15-29`); a failed write left the old file or the whole new one. Whether it did, and whether any answer arrives, is a parameter of each step.
- Rolling back a creation that failed halfway (`src/tmux.rs:602-622`) is part of the creation's outcome: certain, uncertain, with or without a session left.

Weaker than the code, or narrower:

- SingleIncarnation.NeverTwoIncarnations: operations do not overlap and the environment always resolves the same socket for a session, because with overlap or a changed environment a reservation without a socket can be launched on two servers; the interleaved case is what `KillSafety` is about.
- TrailChain.TheTrailTellsTheStory: a record that had no line when the run began has none to end, and an operation may fail anywhere its transport fails, but not its writes.
- Validity.EveryStateIsValid: an insertion may be refused, for want of room or a repeated id, and then nothing is written; the byte ceiling of the file (`src/state.rs:722`) counts as a failed write.
- Publication.PublicationIsDeterministic: what each location's scan would send is fixed in advance for the run; how scans depend on time is inside `LocalScan`.
- LocalScan.ScanLocal: nothing is claimed about completeness when the entry budget is used up exactly, because children are cut to the remaining budget and nothing is checked after the last one. When a cancellation or the deadline is noticed is given in advance, one answer for each look.
- Capture.SanitizingIsCleanLongestAndIdempotent: grapheme segmentation and display widths are given functions, required to lose nothing and to agree on text after a cluster boundary (`Capture.CharactersCohere` gives one that does).
- Usage.SumWorkloadUsage: processor shares are added as real numbers, without rounding.
- Names.NextGroupIdentity: acceptance of the id is stated for fewer than 99,999 groups, of which a state holds at most 32.
- Observer.FailuresAreReportedOnce: about incarnations with an identity; a worker without one cannot be told from another. Of an action, only that it keeps what is shown is part of the run.
- Prompt.MissionControlService.DeliverReviewedPrompt: the deliveries of one request are taken one after another, although the code starts them side by side; what is stated of one destination is stated of its own reads and its own prompt.
- Keybinding.HerdrKeybindingStore.Install: file permissions are not modelled, and reading TOML is a given verdict on the bytes.

Not modelled at all:

- Process spawning, pipes, deadlines, sockets and JSON or TOML decoding; migrations of old state files.
- Drawing, key mapping and terminal loops of the observer and its manager, and the picker.
- SSH target validation, status parsing and the bounded pipe reader, which would add easier members.
- Overflow of clock arithmetic at the ends of the representable range, except where the code checks for it.
- The other uses of the lifecycle service's errors: each failure branch returns its kind, but nothing is proved about the text a user sees.
