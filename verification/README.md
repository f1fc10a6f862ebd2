# Verification of the tool's state-keeping protocols and text transformations

A Dafny 4.11 project that models the parts of the deployment tool in which state is kept across
processes, crashes and restarts, or in which text is rewritten and read again, and proves what those
parts promise. `dafny verify dfyconfig.toml` checks all of it.

Code that works on values is modelled by functions. Code that works by changing things is modelled
by classes and methods whose loops are the source's; each such method is proved to compute a function
of the old state, and what the source promises is proved about those functions. Concurrency is
modelled by state machines: one step is one database transaction, one section under a lock, or one
thing done outside both, and any thread or process may act, fail or die between two steps.

## What is modelled

**Build queue** (`BuildTasks`, `BuildGate`, `BuildProtocol`, `BuildSafety`, `BuildTheorems`, `BuildSlots`,
`BuildPaths`, `BuildFindings`). Several processes share a table of build slots and a table of task rows.
`BuildTasks` gives each transaction as a function of the tables and `BuildGate` the same as statements
of an object per process. `BuildProtocol` is `BuildQueue.run` and `cancel` as a step relation over task
objects, guards, rows and slots. `BuildSafety` is its invariant, `BuildTheorems` what follows for whole
behaviours, `BuildSlots` which slot rows a live process has, and `BuildPaths` what a run and a
cancel come to when nothing gets in between. The steps ask of the instance lock only
that runs of one instance in one process do not overlap; every caller of `run` holds the lock across
processes as well (`lifecycle.py`, lines 193-264), and the theorems about rows that rest on that say so
(`LockHeld`). `BuildFindings` gives behaviours event by event. Four show where a promise ends: a cancel from
another process does not look at whether its write was accepted, so it can answer "cancelled" for a run that
then returns its result; a row can stay at `cancelling` after its run is over; an interrupt between the
commit of a grant and the assignment of the slot leaves the slot row behind; and a lock conflict at `BEGIN`,
which stands before the `try`, marks the build task failed although the handler is there to prevent that.
For the first three `BuildTheorems` and `BuildSlots` say exactly when they happen. The fifth shows what the
instance lock is needed for: were `run` called without it, a generation that is cancelled before its first
write, and replaced, would take the row back with that write. With the lock that cannot happen.

**Rescue merge** (`RescueMerge`). Files staged from a container are merged into the host directory;
trees are maps from path to bytes, and every step of the transaction may fail or be interrupted. The
statement about SQLite sidecars has one exception, a file that is still the seed and yet is not taken, as
it is the sidecar of another database that stays, which needs a database named like a sidecar; `SidecarNamedDatabaseCanBeMixed` shows it.
A merge whose files are all in place can still raise when the transaction directory cannot be removed,
and an interrupt right after that directory is made leaves it, empty, which blocks the next merge.

**Systemd unit** (`ShellWords`, `SystemdUnit`). The printer with shell quoting and doubled percent
signs, and the readers. Quoting and splitting follow section 2.2 of the Shell Command Language volume
of POSIX.1-2017, as Python's shlex implements it.

**Environment files and database URL** (`Urls`, `DatabaseUrl`, `EnvFile`, `EnvRegeneration`). Taking an
old `.env` apart, choosing the SQLite file, moving business keys to `.env.local`, writing `.env` and
filling in a missing secret, as steps between which the process can stop. A key assigned twice in the
old `.env` comes out with its first value although Compose used the last; the theorem says exactly when
that matters. A line that exports with a tab is found by the pattern but refused by the parser, and only kept in
the backup; `KeptIff` says which keys keep their values. A database whose name has a `#` or a `?` is found but cannot be written as a URL; for
every such name a lemma shows what happens. A comment in the source says that `DATABASE_URL` is kept
when the application is not known to read it; the code drops it, and the model follows the code.

**Reconcile and inbox** (`Reconcile`, `ArchiveRecord`, `ArchiveWatch`). The daemon's restarts with
backoff, over any sequence of visits, and the bounded record of handled archives over whole runs of the
watcher. The delay is computed with floats before a failure is noted: at the 1025th failure in a row that
raises, which ends the pass for the instances behind and leaves the instance without a backoff; the
theorems hold exactly below that. A record that cannot be opened or is no JSON counts as empty and is then
overwritten; one that is not UTF-8 raises and ends the watcher.

**Smaller algorithms.** The `buildProxy` section replaced as text (`ProxyBlock`), the search along star
imports (`SettingsSearch`; a name with an empty part, such as `a.`, brings a file in twice), the
single-flight LAN refresh (`LanRefresh`; a thread interrupted between setting the flag and its `try`, or
while its `finally` clause waits for the lock, leaves the flag set for good), and site paths with alias prefixes (`SitePath`, `UrlJoin`, `AliasPath`).
Joining follows `urllib.parse` of Python 3.13, the version the project asks for. It keeps empty segments
of a path that starts with a slash, so `/a//../b` comes out as `/a/b`; a reference that climbs over the
root and goes on with a name such as `a:b` loses `a:`; and `../x:.;b` or `/b ?q` give gateway paths that
the next resolution changes. Each has its exact condition.

## Model

| member | source | states |
|---|---|---|
| BuildTasks.LeadsIffWalked | src/local_webpage_access/build_queue.py:54-62 | the closure of the status table, spelled out, is exactly the existence of a walk through it |
| BuildTasks.FirstFree | src/local_webpage_access/build_queue.py:241 | the lowest free slot number below K, or none when all are taken |
| BuildTasks.TurnedAwayIffFull | src/local_webpage_access/build_queue.py:233-244 | a slot is refused exactly when all K slots belong to processes the probe calls alive, and a refusal leaves both tables unchanged |
| BuildTasks.GrantedSlotWasFree | src/local_webpage_access/build_queue.py:238-251 | a granted slot is in range and had no live owner; the other slots that remain are exactly those of live owners, unchanged |
| BuildTasks.GrantSettlesDeadOwners | src/local_webpage_access/build_queue.py:233-313 | after every granted acquire a queued, building or cancelling row whose owner the probe does not name is cancelled with its flag set and no worker, keeping token and owner, and every other row is as it was |
| BuildTasks.EveryWriteStepsAlongTheTable | src/local_webpage_access/build_queue.py:269-539 | upsert, update and dead-owner reclaim change the status of a kept generation by at most one edge of the table |
| BuildTasks.ReplacedGenerationIsRefused | src/local_webpage_access/build_queue.py:379-539 | once a row belongs to another generation, both kinds of write by the old one are refused and change nothing |
| BuildTasks.UpsertIs | src/local_webpage_access/build_queue.py:379-476 | an upsert is accepted for a new row, for another generation when asked to replace it, and along an edge of the listed table; which columns it then writes, keeps or merges, one by one |
| BuildTasks.UpdateIs | src/local_webpage_access/build_queue.py:478-539 | an update is accepted exactly for its own generation and along a listed edge; it changes neither generation nor owner, and a cancel asked for is not taken back |
| BuildTasks.ReleaseIs | src/local_webpage_access/build_queue.py:352-369 | a release takes away exactly a slot row of the process itself, and a release of an instance exactly those the process has for it |
| BuildTasks.EdgesListed | src/local_webpage_access/build_queue.py:54-62 | the sixteen edges of the status table |
| BuildGate.Gate.constructor | src/local_webpage_access/build_queue.py:174-188 | a concurrency below one counts as one |
| BuildGate.Gate.ReclaimSlots | src/local_webpage_access/build_queue.py:277-280 | the loop over slot rows leaves exactly those of live owners |
| BuildGate.Gate.SettleOrphans | src/local_webpage_access/build_queue.py:282-313 | every queued, building or cancelling row of an owner that is not alive ends cancelled, flagged and without a worker, every other row is as it was, and one kill with process, group and identity is collected for each such row that had a worker |
| BuildGate.CollectedAreOwed | src/local_webpage_access/build_queue.py:288-313 | the kills collected by that loop are exactly one for each unfinished row of a dead owner with a worker |
| BuildGate.Gate.CollectOne | src/local_webpage_access/build_queue.py:288-313 | one row of that loop: it is settled, and its worker's identity triple is queued before the row forgets it |
| BuildGate.Gate.ReclaimDead | src/local_webpage_access/build_queue.py:269-313 | the slots of owners that are not alive are deleted, and rows and kills are as the row loop leaves them, status by status |
| BuildGate.Gate.DrainPendingKills | src/local_webpage_access/build_queue.py:315-324 | every collected kill is issued, in order, and the list is empty afterwards |
| BuildGate.Gate.TryAcquire | src/local_webpage_access/build_queue.py:233-267 | on a grant the rows of dead owners are settled and their workers killed as the row loop says, and the slot is this process's; a lock conflict at BEGIN and any other error are raised, one at a later statement reads as no slot, and each leaves the tables as they were |
| BuildGate.Gate.Release | src/local_webpage_access/build_queue.py:352-360 | deletes the slot row only when this process owns it |
| BuildGate.Gate.ReleaseInstanceSlots | src/local_webpage_access/build_queue.py:362-369 | deletes exactly this process's slot rows for the instance |
| BuildGate.Gate.UpsertBuildTask | src/local_webpage_access/build_queue.py:379-476 | insert, replace another generation when asked to, or move along the table; anything else is refused without effect, and an error is raised without effect |
| BuildGate.Gate.UpdateBuildTask | src/local_webpage_access/build_queue.py:478-539 | changes only the row of the generation it names and only along the table |
| BuildGate.Gate.IsCancelRequested | src/local_webpage_access/build_queue.py:554-561 | true exactly when the row of this generation asks for a cancel or is cancelling or cancelled |
| BuildSafety.RunKeeps | src/local_webpage_access/build_queue.py:624-753 | every step of a run keeps what its task object may say in each phase, and a barred run stays barred |
| BuildSafety.CancelTaskKeeps | src/local_webpage_access/build_queue.py:755-953 | every step of an in-process cancel keeps what the task object may say, and bars a queued run for good |
| BuildSafety.MemoryHolds | src/local_webpage_access/build_queue.py:624-1008 | every step of the whole system keeps the facts about task objects and lifts no bar |
| BuildSafety.StepRows | src/local_webpage_access/build_queue.py:269-539 | every step leaves each row with its generation, one table edge further, or opened by that generation's own first write; a builder called or a result won has its row behind it |
| BuildSafety.HistoryHolds | src/local_webpage_access/build_queue.py:379-539 | every row ever committed still leads, along the table, to the present row of that generation, unless its run is barred |
| BuildSafety.SlotsHold | src/local_webpage_access/build_queue.py:233-369 | slot numbers stay below K and every run that was granted a slot, assigned or not yet, owns that row until it is given back or left behind |
| BuildSafety.EndsHold | src/local_webpage_access/build_queue.py:709-753 | every step keeps how a run that is over leaves its row |
| BuildSafety.LastWriteEndsIff | src/local_webpage_access/build_queue.py:724-745 | the last row write of a run that raised ends the row, except exactly when the row says cancelling and the task object failed |
| BuildSafety.InvHolds | src/local_webpage_access/build_queue.py:624-1149 | the invariant of the protocol is kept by every step |
| BuildTheorems.InvAlong | src/local_webpage_access/build_queue.py:624-1149 | the invariant holds in every state of every behaviour |
| BuildTheorems.LaterAlong | src/local_webpage_access/build_queue.py:624-1149 | along a behaviour, ends of runs and answers of cancels are final, committed rows stay recorded, and a barred run never begins to build |
| BuildTheorems.ReturnedMeansNoCancelWasCommitted | src/local_webpage_access/build_queue.py:624-753 | if a run ever returns its builder's result, no cancelling or cancelled row of its generation was committed before or after |
| BuildTheorems.ReturnedMeansNoCancelWasAnswered | src/local_webpage_access/build_queue.py:755-953 | if a run returns its result, no cancel of its own process answers cancelled for that generation, and no cross-process one does whose row was, or could be made, cancelled |
| BuildTheorems.AnswerAcrossProcessesIff | src/local_webpage_access/build_queue.py:857-892 | a cross-process cancel that writes and answers cancelled leaves the row cancelled exactly when, at the write, the row is still of that generation and has not become success, failed or cancel_failed; and then the run never returns its result |
| BuildTheorems.AnswersHaveRows | src/local_webpage_access/build_queue.py:823-892 | an answer from the cross-process path that looked at its write has the row it speaks of behind it |
| BuildTheorems.BuilderNeedsBuildingRow | src/local_webpage_access/build_queue.py:682-693 | a builder was called only after a row of its generation was committed as building |
| BuildTheorems.CancelledWhileQueuedNeverBuilds | src/local_webpage_access/build_queue.py:670-693 | a generation cancelled while it was queued never runs its builder |
| BuildTheorems.AnswerInProcessIsFinal | src/local_webpage_access/build_queue.py:907-917 | when an in-process cancel answers cancelled, that generation's builder is not executing and never will |
| BuildTheorems.AtMostKBuildersExecute | src/local_webpage_access/build_queue.py:233-313 | in every reachable state executing builders of live processes own different slots below K, so there are at most K |
| BuildTheorems.ExitGivesTheSlotBack | src/local_webpage_access/build_queue.py:746-753 | a process none of whose runs of an instance is unfinished holds no slot for it, unless one was interrupted between grant and assignment, or giving the slot back failed or was interrupted |
| BuildSlots.SlotRowsIff | src/local_webpage_access/build_queue.py:233-369 | at every moment a live process has a slot row for an instance exactly when one of its runs has a slot for it, or one left its row behind and no cancelled run of the instance there has cleared it since |
| BuildSlots.ExitLeavesTheSlotIff | src/local_webpage_access/build_queue.py:746-753 | once the runs a live process made for an instance are over, a slot row is left exactly when one was interrupted between grant and assignment, or interrupted or refused while giving the slot back, and no cancelled run has cleared it since |
| BuildSlots.OrphanStays | src/local_webpage_access/build_queue.py:233-369 | a slot row of a live process that no run has stays through every step but the clearing of its instance by a cancelled run |
| BuildSlots.RowComesFrom | src/local_webpage_access/build_queue.py:233-369 | through every step, a slot row belongs to a run that has it, or was left in this very step, or belonged to no run before |
| BuildTheorems.FinishedRowHasEnded | src/local_webpage_access/build_queue.py:709-753 | when a run is over a row still its own is terminal, unless the run was interrupted, its last row write failed, or the row says cancelling and the task object failed |
| BuildTheorems.LeftAtCancellingIff | src/local_webpage_access/build_queue.py:729-745 | the last write of a failing run leaves the row unfinished exactly when it meets the row at cancelling with the task object failed, and from then on the row never says failed |
| BuildTheorems.RowsMoveAlongTheTable | src/local_webpage_access/build_queue.py:54-62 | with the instance lock held, between any two states of a row with the same generation there is a walk in the table, whoever wrote it, and terminal statuses stay; without the lock the one exception is a first write of that generation made in between |
| BuildTheorems.ReplacedForGood | src/local_webpage_access/build_queue.py:379-476 | with the instance lock held, once another generation has taken a row from a committed one, it never belongs to the old one again; without the lock the one exception is a later first write of the old one |
| BuildTheorems.LockedIffStartedAlone | src/local_webpage_access/lifecycle.py:193-264 | a step keeps that at most one run of live processes is underway for an instance exactly when it starts no run beside another one of the instance |
| BuildTheorems.KeptHolds | src/local_webpage_access/build_queue.py:636-638 | with the instance lock held, every step keeps that a run about to make its first write, whose generation a cancel has committed before, still has the row |
| BuildTheorems.CommittedRunHasItsRow | src/local_webpage_access/build_queue.py:636-638 | over whole behaviours with the lock held: the first write of a generation committed before it meets its own row |
| BuildTheorems.StaleWritersChangeNothing | src/local_webpage_access/build_queue.py:379-539 | no step that writes for a generation changes a row that belongs to another, apart from settling the rows of dead owners and from a first write; with the instance lock held, the first write of a generation committed before is no exception either |
| BuildFindings.CancelledAcrossProcessesCanReturn | src/local_webpage_access/build_queue.py:857-871 | a behaviour in which a cross-process cancel answers cancelled and the run returns its result: the refused write is not looked at |
| BuildFindings.RowCanStayCancelling | src/local_webpage_access/build_queue.py:729-745 | a behaviour in which a run is over and its row is left at cancelling: the builder failed while a cancel from another process was under way |
| BuildFindings.GrantedSlotCanBeLeft | src/local_webpage_access/build_queue.py:247-249 | a behaviour in which an interrupt after the commit of a grant leaves a slot row behind, with its process alive |
| BuildFindings.LockConflictFailsTheTask | src/local_webpage_access/build_queue.py:237 | a behaviour in which a lock conflict at BEGIN marks the build task failed, which the handler below means to prevent |
| BuildFindings.CancelledRowCanBeQueuedAgain | src/local_webpage_access/build_queue.py:638 | what the instance lock is needed for: a behaviour with two overlapping runs, so without the lock, in which a cancelled generation is queued again by its own late first write |
| BuildPaths.FirstAttempt | src/local_webpage_access/build_queue.py:638-642 | a run writes its row as queued and has a slot after its first attempt exactly when one is free or its owner dead; rows of dead owners are settled only then |
| BuildPaths.BuilderIsCalled | src/local_webpage_access/build_queue.py:670-693 | with a slot and no cancel the builder is called with the row at building |
| BuildPaths.ResultIsReturned | src/local_webpage_access/build_queue.py:693-753 | when the builder returns undisturbed the result is returned, the row says success and the slot is given back |
| BuildPaths.BuilderRaises | src/local_webpage_access/build_queue.py:729-753 | when the builder raises the row says failed, the slot is given back and the exception goes on |
| BuildPaths.BuilderGivesUp | src/local_webpage_access/build_queue.py:718-753 | when the builder reports a cancel the row says cancelled and the process has no slot for the instance |
| BuildPaths.WaitsInTheQueue | src/local_webpage_access/build_queue.py:643-653 | without room and without a cancel the run waits with its row queued |
| BuildPaths.RequeueIs | src/local_webpage_access/build_queue.py:1134-1139 | a run that a cancel has met goes on waiting without writing its row as queued again; any other writes it |
| BuildPaths.TriesAgain | src/local_webpage_access/build_queue.py:326-350 | each attempt of a waiting run succeeds exactly when there is room, and it breaks off waiting only for a cancel in its row |
| BuildPaths.TimesOutInTheQueue | src/local_webpage_access/build_queue.py:654-668 | a run whose time in the queue is up ends with its row at failed and the slots untouched |
| BuildPaths.RowIsLookedAt | src/local_webpage_access/build_queue.py:989-1008 | at each of its six looks a run takes over a cancel in its row, whoever wrote it, and otherwise goes on |
| BuildPaths.CancelledRunEnds | src/local_webpage_access/build_queue.py:643-753 | from any of these looks a cancelled run ends with an exception, its row at cancelled and no slot left |
| BuildPaths.RefusedRunEnds | src/local_webpage_access/build_queue.py:682-716 | a row write that is refused or fails keeps the builder from being called, or the result from being returned |
| BuildPaths.FailingEnds | src/local_webpage_access/build_queue.py:729-753 | an exception ends the row as failed, or cancelled if a cancel had begun, and gives the slot back |
| BuildPaths.WorkerIsRecorded | src/local_webpage_access/build_queue.py:478-539 | during the build the worker is written into the row and taken out again, and nothing else changes |
| BuildPaths.FinishedRowIsAnswered | src/local_webpage_access/build_queue.py:826-856 | a cancel of an instance without a row does nothing, and of a finished build answers its status |
| BuildPaths.QueuedRowIsCancelled | src/local_webpage_access/build_queue.py:857-871 | a cancel from another process makes a queued row cancelled |
| BuildPaths.LiveOwnerIsAsked | src/local_webpage_access/build_queue.py:872-896 | a cancel from another process makes a building row cancelling and waits while the owner lives |
| BuildPaths.OrphanIsCancelled | src/local_webpage_access/build_queue.py:872-892 | with the owner dead and no worker to signal it makes the row cancelled at once |
| BuildPaths.EndIsAwaited | src/local_webpage_access/build_queue.py:1087-1119 | the wait ends exactly when the row is gone or finished, with the answer that goes with it |
| BuildPaths.WaitingEnds | src/local_webpage_access/build_queue.py:1120-1132 | when the time is up the cancel has failed, and only a row still cancelling is made to say so |
| BuildPaths.QueuedTaskIsCancelled | src/local_webpage_access/build_queue.py:787-808 | a cancel in the process cancels a queued task in memory and in its row |
| BuildPaths.BuildingTaskIsAsked | src/local_webpage_access/build_queue.py:809-819 | a cancel in the process makes a building task and its row cancelling |
| BuildPaths.OtherTasksAreAnswered | src/local_webpage_access/build_queue.py:770-786 | a cancel in the process answers a finished task by its status and waits for one being cancelled |
| BuildPaths.WaitForTheTaskEnds | src/local_webpage_access/build_queue.py:907-953 | after the wait the answer is the task's end; a task still cancelling, and a row still cancelling, are made cancel_failed |
| BuildPaths.OwnTaskComesFirst | src/local_webpage_access/build_queue.py:770-827 | a cancel works on the task object of its process when there is one, and on the row otherwise |
| BuildPaths.InterruptIs | src/local_webpage_access/build_queue.py:640-753 | what an interrupt does at each place of a run: in the finally clause and before the try it ends the run at once, anywhere else the clause still runs; when the slot is left behind |
| BuildPaths.RaiseIs | src/local_webpage_access/build_queue.py:641-753 | the places an ordinary exception can come from, each handled by the same clause |
| BuildPaths.OnlyThere | src/local_webpage_access/build_queue.py:691-695 | only a builder reports a cancel or records its worker, and only a waiting run times out or sees the cancel in its row |
| BuildPaths.FailingDatabaseIs | src/local_webpage_access/build_queue.py:1016-1038 | what a failing database call does at each place: nothing is written, a row write is passed over except before building and success, a slot that cannot be given back is left |
| BuildPaths.RunStepIs | src/local_webpage_access/build_queue.py:624-753 | a step of a run takes place exactly when its process lives and the guard is free if it needs it, and changes the run, the tables and the guard alone |
| BuildPaths.StartIs | src/local_webpage_access/build_queue.py:1010-1014 | when a run may start, and that it becomes the task of its process for the instance |
| BuildPaths.CancelGuards | src/local_webpage_access/build_queue.py:770-931 | which steps of a cancel need the guard and which keep it |
| BuildPaths.CancelGoesOn | src/local_webpage_access/build_queue.py:770-953 | a call of cancel goes on when its process lives and the guard is free where it is needed: with the task object it is at, or else with the row |
| BuildPaths.CancelStepIs | src/local_webpage_access/build_queue.py:755-953 | a step of a cancel changes at most the task object it works on and the rows |
| RescueMerge.SidecarsStayWithTheirDatabase | src/local_webpage_access/docker_runtime.py:663-706 | after a success a database of the host and its sidecars are all the host's originals, or the database still had the bytes of the seed with no sidecar beside it and all are the staged ones |
| RescueMerge.TakenIff | src/local_webpage_access/docker_runtime.py:663-706 | a staged file is taken exactly when the host lacks it or it still has the bytes of the seed and no sidecar, and it is not the sidecar of a database that stays |
| RescueMerge.ChangedFileIsKept | src/local_webpage_access/docker_runtime.py:678-706 | a host file that the seed lacks or whose bytes are not the seed's is kept, and is reported as a conflict when it is staged |
| RescueMerge.OrdinaryFileIsTaken | src/local_webpage_access/docker_runtime.py:678-706 | a staged file without a sidecar name comes in when the host lacks it, or has it as in the seed with no sidecar |
| RescueMerge.AcceptableIff | src/local_webpage_access/docker_runtime.py:658-698 | a merge is refused exactly for a reserved path, an unsafe destination or a bare sidecar suffix among the staged paths |
| RescueMerge.DatabaseIsNeverBlocked | src/local_webpage_access/docker_runtime.py:692-698 | a database whose name is not a sidecar name never meets the exception of the statement above |
| RescueMerge.SidecarNamedDatabaseCanBeMixed | src/local_webpage_access/docker_runtime.py:678-698 | three files, one of them named as a sidecar, that a merge leaves mixed |
| RescueMerge.MergingAgainChangesNothing | src/local_webpage_access/docker_runtime.py:650-706 | merging the same staged and seed trees again after a success changes no host file, whatever else has appeared in the directory besides regular files |
| RescueMerge.HostDir.FindSeeds | src/local_webpage_access/docker_runtime.py:663-689 | the loop finds exactly the staged paths whose host file has the bytes of the seed and no sidecar beside it, and stops at a reserved path or an unsafe destination |
| RescueMerge.HostDir.IsBlocked | src/local_webpage_access/docker_runtime.py:693-698 | whether one path is a sidecar of a database that stays; a bare sidecar suffix is an error |
| RescueMerge.HostDir.Classify | src/local_webpage_access/docker_runtime.py:663-706 | pending and conflicts list every staged file once, divided as the definition says, in whatever order the tree is walked |
| RescueMerge.HostDir.Prepare | src/local_webpage_access/docker_runtime.py:713-716 | all pending files are copied aside; the host is not touched |
| RescueMerge.HostDir.CommitOne | src/local_webpage_access/docker_runtime.py:717-728 | one file is moved in; whatever step fails, what is noted suffices to undo it |
| RescueMerge.HostDir.Commit | src/local_webpage_access/docker_runtime.py:710-728 | on success exactly the pending files carry staged bytes; at every point the original tree can be put back |
| RescueMerge.HostDir.RollBack | src/local_webpage_access/docker_runtime.py:729-746 | with no step refused the host is as before; otherwise every original is at its path or in the backup |
| RescueMerge.HostDir.Transact | src/local_webpage_access/docker_runtime.py:709-750 | the transaction is all or nothing, and a backup that is still needed is kept; an interrupt right after the directory is made leaves it, empty |
| RescueMerge.HostDir.MergeTreeKeepHost | src/local_webpage_access/docker_runtime.py:650-751 | refused exactly for what must not be staged; done with every file the host changed kept and reported and every other staged file taken, file by file; undone, stuck or left over with what each says of the host's files, the backup and the report |
| ShellWords.LineReadsBack | src/local_webpage_access/autostart.py:230 | splitting a line of quoted words gives the words, for every list of strings |
| ShellWords.WordReadsBack | src/local_webpage_access/autostart.py:230 | one quoted word is read as that word, up to the end or a space |
| ShellWords.QuotedIff | src/local_webpage_access/autostart.py:230 | a word is printed as it is exactly when it is not empty and has only the listed letters, digits and signs; any other is put between single quotes |
| ShellWords.SlashedReadsBack | src/local_webpage_access/autostart.py:1820 | a word with a backslash before every character is read as the word |
| ShellWords.DoubleQuotedReadsBack | src/local_webpage_access/autostart.py:1820 | a word between double quotes, with backslashes where they are needed, is read as the word |
| ShellWords.WordsComeFromTheLine | src/local_webpage_access/autostart.py:1820 | a word read from a line has no character the line does not have |
| SystemdUnit.UndoubledDoubled | src/local_webpage_access/autostart.py:1800-1805 | undoing the doubling of percent signs gives every string back |
| SystemdUnit.DoubledLine | src/local_webpage_access/autostart.py:230 | doubling percent signs in a line of quoted words is the line of the doubled words |
| SystemdUnit.UnitIs | src/local_webpage_access/autostart.py:221-262 | the printed unit line by line, for each of the three services |
| SystemdUnit.FindsJoinedLine | src/local_webpage_access/autostart.py:1830-1834 | joining lines with newlines and splitting them finds the same line for a prefix |
| SystemdUnit.PrintedIsRead | src/local_webpage_access/autostart.py:221-262 | what the readers get from a printed unit that is read as text: the command line and the directory |
| SystemdUnit.ArgumentsReadBack | src/local_webpage_access/autostart.py:1859-1873 | the arguments read from a printed unit are the printed ones exactly when interpreter and workspace have no line break |
| SystemdUnit.WorkspaceReadsBack | src/local_webpage_access/autostart.py:1807-1827 | the workspace is read back exactly when the interpreter is not itself the flag, or the workspace is the word that then follows the flag |
| SystemdUnit.WorkingDirectoryReadsBack | src/local_webpage_access/autostart.py:786-815 | the directory compared with the workspace is the workspace exactly when it has no blanks at its ends |
| DatabaseUrl.ParsePrefixed | src/local_webpage_access/compose.py:646-673 | reading any value with the managed prefix: the file is in the data directory exactly when no slash follows |
| DatabaseUrl.ParseIs | src/local_webpage_access/compose.py:646-673 | a URL put together from scheme, authority, directory, name and query reads as that file exactly when the scheme is sqlite in any case, there is no authority, and the name is there and starts no colon path |
| DatabaseUrl.NoPathNoFile | src/local_webpage_access/compose.py:662-666 | a URL whose path does not start with a slash names no file |
| DatabaseUrl.UnquotedIs | src/local_webpage_access/compose.py:638-643 | one pair of equal quotes is taken off a value, and nothing else |
| DatabaseUrl.WrittenUrlReadsBack | src/local_webpage_access/compose.py:646-673 | a written URL reads back as its name and query exactly when neither has a character that ends it and the value does not end in a blank |
| DatabaseUrl.ScanExisting | src/local_webpage_access/compose.py:555-583 | the loop lists exactly the non-empty files whose name ends in .db, .sqlite or .sqlite3 in any mix of cases, is not .DS_Store and does not start with ._ |
| DatabaseUrl.ScanListsIff | src/local_webpage_access/compose.py:555-583 | a name is listed exactly when an entry of that name is a non-empty file and the name is one of a SQLite file, spelled out |
| DatabaseUrl.ResolvesIff | src/local_webpage_access/compose.py:586-635 | which file is chosen, said of the entries of the directory alone: the wanted one when it has data or nothing has, the only other with data, or none when there are several |
| DatabaseUrl.NeverSwitchesToAnEmptyFile | src/local_webpage_access/compose.py:586-635 | an empty or missing file is chosen only when no entry is a non-empty file with one of the three suffixes, another file only when it is the one with data, and with several nothing is chosen |
| DatabaseUrl.NamesItsFileIff | src/local_webpage_access/compose.py:646-673 | a written URL reads back as naming its file exactly when the name has no character that ends it and, without a query, does not end in a blank |
| DatabaseUrl.WrittenUrlNamesTheDataIff | src/local_webpage_access/compose.py:730-821 | the file chosen has data or no entry is a non-empty SQLite file, and the URL written names it exactly when it is the old URL or the name is not cut short |
| DatabaseUrl.BaseNameIs | src/local_webpage_access/compose.py:783 | the name of a path is what stands behind its last slash |
| DatabaseUrl.WantedIs | src/local_webpage_access/compose.py:775-783 | the file asked for is the one found in the source, without its directories, and app.sqlite when there is none |
| DatabaseUrl.CopiedIs | src/local_webpage_access/compose.py:799-812 | after the copy exactly the files with data are there that were there before, and the source's when no entry had its name |
| DatabaseUrl.NextRunWritesTheSameUrl | src/local_webpage_access/compose.py:730-821 | with the directory unchanged the next run writes the same URL, when this one names its file |
| DatabaseUrl.HashInNameIsCutShort | src/local_webpage_access/compose.py:816-821 | for every database name with a hash sign: the URL written names a file that is not there |
| DatabaseUrl.QuestionMarkInNameGrows | src/local_webpage_access/compose.py:748-753 | for every database name with a question mark: the next run writes a longer URL |
| EnvFile.ParserAgrees | src/local_webpage_access/compose.py:909-930 | a line the parser files as a business line is one in which the migration's pattern finds the same key |
| EnvFile.RefusedIff | src/local_webpage_access/compose.py:909-930 | of the lines the pattern finds a key in, the parser refuses exactly those that are neither plain nor exported with "export " and a space |
| EnvFile.AssignedIff | src/local_webpage_access/compose.py:985-987 | the pattern finds a key and value exactly in lines of blanks, perhaps export and blanks, the key, blanks, the sign and the value |
| EnvFile.NameIs | src/local_webpage_access/compose.py:920 | a key is a nonempty string of listed letters, digits and underscores that does not start with a digit |
| EnvFile.UnreadableIff | src/local_webpage_access/compose.py:909-924 | the numbers noted are exactly those of the lines that are refused, counted from one |
| EnvFile.WrittenIsFiled | src/local_webpage_access/compose.py:909-930 | a plain or exported assignment is filed by its key alone: DATABASE_URL as managed for a SQLite instance, the four settings and the build keys as managed, every other key as business |
| EnvFile.WrittenIsAssigned | src/local_webpage_access/compose.py:985-987 | the migration's pattern finds in such a line the same key and the text after the sign |
| EnvFile.ParseExisting | src/local_webpage_access/compose.py:889-931 | the loop takes an old file apart into URL, business lines and unreadable line numbers; which lines are which is what RefusedIff and WrittenIsFiled spell out |
| EnvFile.KeysAreAssigned | src/local_webpage_access/compose.py:985-987 | the keys the pattern finds are exactly those that some line assigns |
| EnvFile.ValueAppended | src/local_webpage_access/compose.py:1005-1008 | text appended after a newline wins, and every other key keeps its value |
| EnvFile.MigratedValue | src/local_webpage_access/compose.py:966-1014 | after the migration a key has its old local value, or else its first business value |
| EnvFile.WithSecretValue | src/local_webpage_access/compose.py:1017-1065 | a secret is added only where there was none and the example asks for one; every other key keeps its value |
| EnvFile.WantsSecretIff | src/local_webpage_access/compose.py:1047-1053 | a secret is filled in exactly when the first line of the example that starts with JWT_SECRET= has only blanks behind it |
| EnvRegeneration.DockerDir.Migrate | src/local_webpage_access/compose.py:966-1014 | the loop appends of each key not yet taken the first line, or changes nothing when a step fails |
| EnvRegeneration.DockerDir.EnsureSecret | src/local_webpage_access/compose.py:1017-1065 | adds a missing secret, or changes nothing when a step fails |
| EnvRegeneration.DockerDir.Regenerate | src/local_webpage_access/compose.py:676-864 | whatever fails, the files are as before or at one of three stages, and pass through no other state; lines that cannot be read are never overwritten before a backup, and when nothing fails only an ambiguous database stops it |
| EnvRegeneration.BusinessValuesSurviveEveryCrash | src/local_webpage_access/compose.py:834-843 | a business key keeps its effective value at every crash point exactly when .env.local had it or the first of its lines assigns what Compose reads in the old file |
| EnvRegeneration.LocalValuesSurviveEveryCrash | src/local_webpage_access/compose.py:966-1014 | what .env.local assigned keeps its value at every crash point |
| EnvRegeneration.NothingIsLost | src/local_webpage_access/compose.py:834-843 | with no key assigned twice in the old .env, every value the parser moves survives every crash point; EveryOtherKeyKeepsItsValue says of which keys |
| EnvRegeneration.EveryOtherKeyKeepsItsValue | src/local_webpage_access/compose.py:708-843 | a key assigned once, on a plain or exported line, keeps its effective value at every crash point, unless it is HOST_PORT, INTERNAL_PORT, MEMORY_LIMIT, CPU_LIMIT, a build key, or the DATABASE_URL of a SQLite instance |
| EnvRegeneration.KeptIff | src/local_webpage_access/compose.py:708-843 | such a key, on whatever line it stands, keeps its value at every crash point exactly when .env.local has it or its line is a plain or exported one |
| EnvRegeneration.BusinessIff | src/local_webpage_access/compose.py:909-930 | a key to be carried over is moved exactly when some line assigns it plainly or with export |
| EnvRegeneration.NewEnvValue | src/local_webpage_access/compose.py:676-843 | the regenerated .env assigns each of the four settings its value, DATABASE_URL the URL chosen, and nothing else |
| EnvRegeneration.OldUrlIs | src/local_webpage_access/compose.py:926-928 | the old URL is what the last plain or exported line for DATABASE_URL gives, without blanks at its end |
| EnvRegeneration.NoOldUrl | src/local_webpage_access/compose.py:926-928 | without such a line there is no old URL |
| EnvRegeneration.HandMadeUrlIsKept | src/local_webpage_access/compose.py:763-770 | a URL that names no file of the data directory is written again as it is |
| EnvRegeneration.ManagedUrlAfterwards | src/local_webpage_access/compose.py:740-762 | a URL into the data directory stays when its file has data or nothing has, names the only file with data otherwise, query included, and with two such files regeneration is refused |
| EnvRegeneration.FirstUrlAfterwards | src/local_webpage_access/compose.py:775-821 | without a URL the file from the source, once copied, is named unless it is empty and exactly one other has data; with two, regeneration is refused |
| EnvRegeneration.FirstIsLast | src/local_webpage_access/compose.py:909-930 | with no key assigned twice, the first line the parser finds for a key is what a reader of the file gets |
| EnvRegeneration.SecretIsNeverReplaced | src/local_webpage_access/compose.py:1027-1040 | a JWT_SECRET of .env.local or of a moved line is never generated anew |
| EnvRegeneration.SecretAfterwards | src/local_webpage_access/compose.py:708-864 | the JWT_SECRET afterwards is the local one, else the one a plain or exported line of .env assigned, else a new one when the example leaves it blank, else none |
| EnvRegeneration.AssignmentKind | src/local_webpage_access/compose.py:909-930 | a line written as KEY=value is filed again by its key |
| EnvRegeneration.OldAfter | src/local_webpage_access/compose.py:693-714 | a regenerated .env taken apart again has no business key and the URL that was written |
| EnvRegeneration.SecretStays | src/local_webpage_access/compose.py:1034-1040 | filling in a secret twice is filling it in once |
| EnvRegeneration.SecondRunLeavesLocalAlone | src/local_webpage_access/compose.py:840-863 | a second regeneration, whatever the data directory then holds, leaves .env.local unchanged |
| EnvRegeneration.SecondRunChangesNothing | src/local_webpage_access/compose.py:676-864 | with the directory unchanged a second regeneration changes neither file, when the URL names its file and does not end in a blank |
| EnvRegeneration.RepeatedKeyTakesItsFirstValue | src/local_webpage_access/compose.py:991-997 | for every key assigned twice with different values: the value before is the last, the value after the first |
| EnvRegeneration.UnreadUrlIsDropped | src/local_webpage_access/compose.py:822-829 | where the application is not known to read DATABASE_URL the old value is dropped, contrary to the comment in the source |
| Reconcile.Reconciler.Pass | src/local_webpage_access/daemon.py:1087-1259 | a pass visits the rows up to the first at which an exception leaves it, and gives the instances brought back when there is none; what a visit does is spelled out by ActsIff and the four lemmas after it |
| Reconcile.ActsIff | src/local_webpage_access/daemon.py:1087-1211 | a visit restarts or rolls back exactly when the row is due, was looked at as its kind and registry status ask, is not running, has not just failed, and the two last checks allow it; a container is rolled back where that can be done |
| Reconcile.UpIff | src/local_webpage_access/daemon.py:1087-1135 | a visit finds the instance up exactly when it is due, was looked at, and was observed running: a process the registry calls running is observed like a container |
| Reconcile.SeededIff | src/local_webpage_access/daemon.py:1136-1170 | a visit only waits one backoff exactly when the instance is due, is down, and has just been marked failed with nothing on record |
| Reconcile.CheckFailedIff | src/local_webpage_access/daemon.py:1171-1195 | a visit fails before acting exactly when the instance is to be brought back and one of the two last checks raises |
| Reconcile.AbortedIff | src/local_webpage_access/daemon.py:1104-1130 | a visit ends in an exception exactly when the registry cannot be read, for the active builds or for the row after it was observed |
| Reconcile.RecordAfter | src/local_webpage_access/daemon.py:1131-1211 | what a visit that does not fail leaves on record: nothing after success or when found up, one failure and a minute after a fresh one, everything as it was when skipped |
| Reconcile.RecoveredIff | src/local_webpage_access/daemon.py:1087-1259 | an instance is reported as brought back exactly when one of the visits restarted it or rolled it back |
| Reconcile.ConsideredIff | src/local_webpage_access/daemon.py:1087-1249 | a row is considered exactly when no row before it ends the pass, and the pass runs through exactly when none does, said of the records it started with |
| Reconcile.EndsPassIff | src/local_webpage_access/daemon.py:1242-1249 | a visit ends the pass exactly when the registry cannot be read or its restart fails with 1024 failures in a row on record |
| Reconcile.DelayDoubles | src/local_webpage_access/daemon.py:1243-1249 | the delay starts at 60 seconds, doubles up to 3600, and cannot be computed from the 1025th failure on |
| Reconcile.StreakIsCount | src/local_webpage_access/daemon.py:1243-1249 | the stored count is the number of failures in a row, counted from the outcomes alone, but at most 1024 |
| Reconcile.FailureIsNotedIff | src/local_webpage_access/daemon.py:1242-1249 | a failure is noted with its delay exactly when fewer than 1024 in a row came before it; otherwise it ends the pass and leaves no trace |
| Reconcile.HeldBack | src/local_webpage_access/daemon.py:1095-1097 | until its deadline an instance keeps a record with that deadline or a later one, over any sequence of visits |
| Reconcile.BackoffHolds | src/local_webpage_access/daemon.py:1095-1097 | after the k-th failure in a row, k at most 1024, nothing is done about the instance for min(60*2^(k-1), 3600) seconds |
| Reconcile.SeededHolds | src/local_webpage_access/daemon.py:1136-1170 | an instance that had just failed is not acted on for a minute, over any sequence of visits |
| Reconcile.HeldBackIff | src/local_webpage_access/daemon.py:1242-1249 | a failure holds the instance back for the next 60 seconds exactly when fewer than 1024 in a row came before it |
| Reconcile.LimitIsReached | src/local_webpage_access/daemon.py:1245-1248 | hourly failures reach the limit; the next one ends the pass before the row behind it and leaves the record as it was |
| Reconcile.StoppedIsLeftAlone | src/local_webpage_access/daemon.py:1171-1177 | over any sequence of visits, an instance that each second look finds not wanted is never acted on and collects no failure |
| Reconcile.OwnVisitsDecide | src/local_webpage_access/daemon.py:1087-1249 | of the visits that take place, only an instance's own decide its outcomes and record |
| Reconcile.OwnPlace | src/local_webpage_access/daemon.py:1087-1249 | each visit to an instance stands among its own, in order, with its outcome |
| Reconcile.OthersDoNotMatter | src/local_webpage_access/daemon.py:1242-1249 | in passes that no other instance ends, the same row of an instance has the same outcome and record, whatever the others do |
| ArchiveRecord.Place | src/local_webpage_access/daemon.py:682-686 | the position that list.remove removes |
| ArchiveRecord.Ordered | src/local_webpage_access/daemon.py:679-688 | the loop of load and save keeps each key once, at its last use |
| ArchiveRecord.RecentIsDistinct | src/local_webpage_access/daemon.py:679-688 | that list has no key twice and exactly the keys used |
| ArchiveRecord.BoundedIsExact | src/local_webpage_access/daemon.py:691-715 | cutting to the limit after every save loses nothing that cutting the whole history once would keep |
| ArchiveRecord.KeptIffRecent | src/local_webpage_access/daemon.py:709-715 | a key is kept exactly while fewer than 2048 different keys were used after it |
| ArchiveRecord.KeptWhileRecent | src/local_webpage_access/daemon.py:709-715 | the same for a key that may have been used again |
| ArchiveRecord.SavedIsLoaded | src/local_webpage_access/daemon.py:663-715 | loading what was saved gives the saved list |
| ArchiveWatch.Watcher.Meet | src/local_webpage_access/daemon.py:1383-1446 | one archive: skipped, not settled, failed, kept or recorded, with the new state of every table |
| ArchiveWatch.Watcher.PollInbox | src/local_webpage_access/daemon.py:1381-1446 | a poll equals its steps on the watcher's memory and hands over exactly the archives it should; a record that is not UTF-8 raises before anything is looked at and changes nothing |
| ArchiveWatch.RecordIsExact | src/local_webpage_access/daemon.py:1381-1446 | over a whole run the stored record is the bounded record of everything recorded |
| ArchiveWatch.NeverHandedOverAgain | src/local_webpage_access/daemon.py:1383-1393 | an archive handled and moved away is not handed over again while fewer than 2048 different keys were recorded since |
| ArchiveWatch.UnreadableRecordIsForgotten | src/local_webpage_access/daemon.py:672-675 | a record that cannot be opened or is no JSON counts as empty, and the next archive recorded replaces it |
| ArchiveWatch.FailuresAreCounted | src/local_webpage_access/daemon.py:1404-1428 | the failure count of a key grows by the failures since it was last handled or set aside, counted from the outcomes of the steps |
| ArchiveWatch.FailuresAreBounded | src/local_webpage_access/daemon.py:1404-1421 | an archive that can be moved never fails five times in a row and is still to be tried: one of the five sets it aside |
| ArchiveWatch.SetAsideAfterFailures | src/local_webpage_access/daemon.py:1404-1421 | an archive is not set aside before four failures in a row since it was last handled or set aside |
| ArchiveWatch.HandedOverIff | src/local_webpage_access/daemon.py:1383-1402 | an archive is handed over exactly when its key is not on record, the last look at its path that counts left it unsettled with the same size and time, and that time is as far back as the window or in the future |
| ArchiveWatch.OutcomeIs | src/local_webpage_access/daemon.py:1383-1446 | which of the outcomes a look has, by whether it was handed over, handled and moved, and the failures counted |
| ProxyBlock.LinesSplit | src/local_webpage_access/build_proxy.py:126 | the lines of a text cut in two anywhere are the lines of two texts |
| ProxyBlock.ReplaceBlock | src/local_webpage_access/build_proxy.py:119-153 | the loops find where the node ends as defined by its last line of content before the first line that cannot belong to it |
| ProxyBlock.ReplacedIs | src/local_webpage_access/build_proxy.py:119-153 | the frame: the text before the first buildProxy line and from the node's end on is kept as it is |
| ProxyBlock.SectionIsReplaced | src/local_webpage_access/build_proxy.py:119-153 | exactly the lines from the first buildProxy line to the last indented content line before the first line that is neither indented nor blank nor a comment are replaced, with lines of each kind spelled out |
| ProxyBlock.SectionIsAdded | src/local_webpage_access/build_proxy.py:126-132 | without such a line the block is put at the end, behind an empty line |
| ProxyBlock.BlockReadsBack | src/local_webpage_access/build_proxy.py:113-116 | a rendered block says whether the proxy is enabled, and its URL reads back as a JSON string (section 7 of RFC 8259), whatever characters it has |
| ProxyBlock.BlockIsItsLines | src/local_webpage_access/build_proxy.py:113-116 | a rendered block is three lines, whatever its URL |
| ProxyBlock.LastWriteWins | src/local_webpage_access/build_proxy.py:113-153 | replacing twice is replacing once with the second block, present or absent |
| ProxyBlock.ConfigFile.Write | src/local_webpage_access/build_proxy.py:244-268 | the file is replaced by the checked text, or left alone when reading, checking or writing fails |
| ProxyBlock.LastSaveWins | src/local_webpage_access/build_proxy.py:244-268 | of two saves the second counts, the added final newline included |
| SettingsSearch.Resolve | src/local_webpage_access/dockerfile_templates.py:1617-1632 | one import resolved to an absolute module name |
| SettingsSearch.StarImportTargets | src/local_webpage_access/dockerfile_templates.py:1614-1633 | the loop resolves every star import in order |
| SettingsSearch.Enqueue | src/local_webpage_access/dockerfile_templates.py:1608-1610 | the targets not yet seen are queued |
| SettingsSearch.ModuleFiles | src/local_webpage_access/dockerfile_templates.py:1580-1611 | the search ends on cyclic imports; its result is reachable, has files, has no name twice, is within the limit, and is complete when nothing is left to look at |
| SettingsSearch.ClosedHoldsAll | src/local_webpage_access/dockerfile_templates.py:1591-1611 | a set that imports do not lead out of holds everything reachable from a member |
| SettingsSearch.DifferentNamesDifferentFiles | src/local_webpage_access/dockerfile_templates.py:1596-1602 | names without empty parts that differ have different files |
| SettingsSearch.OneFileUnderTwoNames | src/local_webpage_access/dockerfile_templates.py:1596-1602 | for every module name: an import that names it with an empty part makes its file come twice |
| LanRefresh.Throttle.HostsDiffer | src/local_webpage_access/access_workflow.py:205-223 | true exactly when some manifest has a host that is neither the address nor the loopback |
| LanRefresh.Throttle.Decide | src/local_webpage_access/access_workflow.py:250-267 | the first section under the lock equals its function on the shared variables |
| LanRefresh.HoldersKept | src/local_webpage_access/access_workflow.py:226-288 | every step keeps that the flag is set exactly while one thread holds it |
| LanRefresh.TimesKept | src/local_webpage_access/access_workflow.py:263-281 | every step keeps the recorded time that of the last refresh that worked, and the log spaced |
| LanRefresh.SingleFlight | src/local_webpage_access/access_workflow.py:250-288 | at most one refresh is in progress, and the flag is set exactly while a thread holds it |
| LanRefresh.NeverTooSoon | src/local_webpage_access/access_workflow.py:262-264 | an unforced refresh never starts within its interval of the end of any that worked before |
| LanRefresh.StartsIff | src/local_webpage_access/access_workflow.py:250-267 | in every reachable state a refresh is started exactly when it is forced or something has changed, none that worked ended within the interval unless forced, and no thread holds the flag |
| LanRefresh.AddressNoted | src/local_webpage_access/access_workflow.py:250-281 | the address remembered changes exactly when nothing has changed or a refresh has worked |
| LanRefresh.CallGoesOn | src/local_webpage_access/access_workflow.py:237-249 | a call goes on to decide exactly when it has an address and is forced or not manual |
| LanRefresh.RefreshRuns | src/local_webpage_access/access_workflow.py:277-288 | an uninterrupted refresh ends with the flag cleared, and with time and address noted exactly when it worked |
| LanRefresh.StrandedForGood | src/local_webpage_access/access_workflow.py:267-288 | a thread interrupted between setting the flag and the try block, or in the finally clause before the flag is cleared, leaves it set, and no refresh is started any more |
| SitePath.FoldSitePath | src/local_webpage_access/access.py:1043-1058 | the loop gives where the path leads from the root, rendered |
| SitePath.FoldedTwice | src/local_webpage_access/access.py:1043-1058 | folding keeps where a path leads, folding twice is folding once, and no empty, dot or dot-dot segment is left |
| UrlJoin.JoinedPathLeads | src/local_webpage_access/access.py:1040 | the joined path has no dots, leads where urljoin's way through the segments leads, and ends with a slash exactly when the end was open |
| UrlJoin.AgreesIff | src/local_webpage_access/access.py:1040 | urljoin's way, on which an empty segment is a step down, leads where folding leads exactly when it has been at the root since every '..' that took an empty segment |
| UrlJoin.LeadsToPlaceIff | src/local_webpage_access/access.py:1040 | a joined path leads where the path leads: always when it is relative, and exactly as above when it starts with a slash |
| UrlJoin.EmptySegmentIsTaken | src/local_webpage_access/access.py:1040 | for all names a and b: '/a//../b' is joined to '/a/b' and folds to '/b' |
| UrlJoin.KeptIff | src/local_webpage_access/access.py:1040 | the second split reads the whole joined path exactly when it starts with a slash, or has no blanks in front and no scheme |
| AliasPath.CleanLeadsIff | src/local_webpage_access/access.py:1038-1058 | a same-origin reference leads where urljoin leads, with its parameters, exactly when it is kept, and then where its path leads from the root exactly as above |
| AliasPath.RejoinedLeads | src/local_webpage_access/access.py:1040 | what urljoin joins leads where its way through the segments leads, with the parameters on the last segment |
| AliasPath.EmptySegmentStays | src/local_webpage_access/access.py:1038-1058 | '/a//../b' comes out as '/a/b', although folding it gives '/b' |
| AliasPath.CleanSettlesIff | src/local_webpage_access/access.py:1038-1058 | what cleaning gives is in the form that cleaning leaves alone, exactly when the reference does not climb over the root and uncover a dot or two in front of parameters |
| AliasPath.CleanEnd | src/local_webpage_access/access.py:1038-1058 | what cleaning gives ends with a slash, or with a last segment that is shorter than the reference's unless that one is good |
| AliasPath.SettledIsClean | src/local_webpage_access/access.py:1038-1058 | cleaning a path in that form changes nothing |
| AliasPath.CleanLacks | src/local_webpage_access/access.py:1040 | a cleaned path has no character that ends a path |
| AliasPath.GatewaySettles | src/local_webpage_access/access.py:1080-1093 | the backend path and the gateway path are settled, and taking the alias off the gateway path gives the backend path |
| AliasPath.GatewayResolvesToItselfIff | src/local_webpage_access/access.py:1061-1093 | the gateway path is the alias and the backend path, and resolving it again gives the same pair exactly when it does not end in a blank and the reference uncovered no dots or named the alias |
| AliasPath.ClimbingNameLosesItsFront | src/local_webpage_access/access.py:1040 | for every name that reads as a scheme: a reference that climbs over the root loses the name's front |
| AliasPath.DotsComeOut | src/local_webpage_access/access.py:1040 | the family of '../x:.;b': the reference uncovers dots and comes out as '/.;b' |
| AliasPath.BlankIsCutOff | src/local_webpage_access/access.py:1022-1040 | the family of '/b ?q': the gateway path ends in a blank and is resolved to another one |

## Left out

What the model does not capture of the parts it models:

- BuildTheorems.ReturnedMeansNoCancelWasAnswered: for cancels across processes only when the row was read as cancelled, or the write was accepted, which `AnswerAcrossProcessesIff` reduces to the row it meets; `CancelledAcrossProcessesCanReturn` shows that it is needed.
- BuildTheorems.AnswerInProcessIsFinal: speaks of the generation whose status the call read last. A call that began on one generation and outlives it answers about the next one of the instance.
- BuildTheorems.ExitGivesTheSlotBack: not for a run that left its slot row behind, which `BuildSlots.ExitLeavesTheSlotIff` says exactly; the slot is then reclaimed after the process has died.
- BuildTheorems.FinishedRowHasEnded: not for a run that was interrupted before its last row write, or whose last write failed.
- RescueMerge.SidecarsStayWithTheirDatabase: not for a database still as in the seed that is not taken because it is itself named as the sidecar of one that stays; `DatabaseIsNeverBlocked` says when that cannot be.
- DatabaseUrl.NextRunWritesTheSameUrl: asks that the URL names its file. The converse does not hold: a cut name can by chance be that of a file with data, and a name cut at a hash sign is found again.
- EnvRegeneration.SecondRunLeavesLocalAlone: asks that the written URL and every setting are one line and that the generated secret has no newline; a database name with a line break would put a second assignment into `.env`.
- EnvRegeneration.SecondRunChangesNothing: asks the same, and that the URL names its file and does not end in a blank.
- LanRefresh.NeverTooSoon: an end read as exactly 0.0 on the monotonic clock counts as no end, as in the code.
- Reuse of process ids: a dead owner is one the probe calls dead, and a probe never calls a live process dead.
- A commit whose outcome is unknown: a failing database call has had no effect. An interrupt or an error inside a transaction that leaves it open on the connection.
- `cancel_requested_at` is a flag, not a time, and the other times of task objects and rows are left out.
- The instance lock itself: that runs of one instance in one process do not overlap is a condition of starting one, and that those of different processes do not is the condition `LockHeld` under which the row theorems have no exception. Every caller of `run` holds the lock; `CancelledRowCanBeQueuedAgain` needs `run` called without it.
- `clear_build_task` is never called in the repository, so rows are never deleted.
- The process hub, signals and killing of process trees: calls are recorded, their effects are not modelled; registry events, operation records and log lines are left out.
- Changing the configured concurrency between processes, closing the gate, and the schema of the database.
- Directories that the rescue merge creates are not part of its trees, and neither are permissions and times.
- The unit's PATH line: its value is a parameter without line breaks, and its reader does not undo the escaping.
- Resolving links and relative paths when workspaces are compared; property lists.
- An environment line is what stands between newlines: a key and its equals sign on two lines, which the patterns' white space would allow, multi-line quoted values, and the removal of quotes by Compose are left out.
- Temporary files and permissions of the atomic writes; the backup of an old `.env` with unreadable lines is a step that can fail; `.env.example` is not copied.
- Reading the SQLite name from the source tree and the fallback when the source directory is refused: the name and what the copy leaves are parameters.
- The persisted circuit breaker, capability checks and observation: their answers are what a visit meets.
- An exception from the function that handles an archive, which ends the watcher, and a record that cannot be written.
- YAML parsing: whether the updated configuration is valid is a function of the text; the lock of the configuration file is held throughout.
- Symbolic links and unreadable files in the settings search; the pattern that finds star imports is a list of imports.
- HTTP probing, the cache of the LAN address, and healing the TLS sites.
- Authorities of URLs: a reference with a scheme or an authority is not a site path, whether it is external or invalid; the second split raises when it takes a part of the path for an authority with an unmatched bracket.

What the repository does besides, left out because it sequences external tools or would add only easy members:

- Docker, Compose, launchctl, systemctl and Caddy calls, installing and enabling units, port allocation.
- HTML parsing, compatibility and capability heuristics, Dockerfile templates and mirrors, reports, the command line and the manager's pages.
