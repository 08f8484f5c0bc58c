# A verified model of the experiment sandbox

The repository is a server that runs an agent's commands inside throw-away containers. It snapshots a project, starts a
sandbox, runs jobs in it under a per-experiment limit, reports what changed, collects artifacts, and cleans up after
crashes. This project models those mechanisms in Dafny and proves what they promise. `dafny verify dfyconfig.toml` checks
all of it.

## How the model is laid out

**Jobs.** `Jobs` is the job record, `Semaphores` the counting semaphore of asyncio (Python 3.12: a waiter owns a future
that is pending, granted or revoked, and a permit leaves the counter when it is granted). `JobProtocol` is a step system:
one step is the code between two awaits, and every task has a program counter. Submits, task steps, `cancel`,
`cancel_experiment_jobs`, the dropping of a semaphore and a restart may interleave in any order. A cancellation is
delivered when the task next resumes, and a cancelled save may or may not have reached the table. `JobInvariant` proves
what holds at every await point, `JobTheorems` and `JobSweep` what callers may rely on, `JobDiscards` exactly when the
limit on running jobs holds, `JobQueues` in which order permits are handed out, `JobRecords` what a record's fields say
together, and `JobOutcomes` which events they come from. `ExecutionManagers` is the execution manager as a class over
dictionaries it updates in place; each method is tied to the step it carries out.

**Experiments.** `ExperimentStates` is the table of transitions. `Lifecycle` is a second step system: rows, audit log,
managed containers, and operations in flight, each with its own copy of the experiment. A crash can fall between any two
durable effects, and a startup may itself be interrupted. `LifecycleInvariant` proves what runs keep whose operations on
one experiment do not overlap (serial runs), and `LifecycleTheorems` audit, states, teardown and capacity. The rest lets
operations overlap in any way: `LifecycleOrder` is about creation times, `LifecycleProspects` says which experiments are
LIVE or may still become so, `LifecycleRecovery` what crashes and startups do to containers, and `LifecycleOverlaps`
exactly when a destroy can be undone and the maximum exceeded. The class in `ExperimentManagers` has one method for each
step, and whole create, execute and destroy operations with their outcome spelled out. `Recovery` runs both step systems
side by side, as one server that crashes and starts up.

**Files.** `Paths` is PurePosixPath on text, `SandboxPath` the normaliser of sandbox paths, `Patterns` the exclude patterns
and `PatternLists` lists of them, `Snapshots` the pruned project walk, `Manifests` the two ways to fingerprint the
workspace, `Changes` the comparison of two fingerprints, `Artifacts` what is fetched and where it lands, `OutputCollectors`
the capped output streams.

**Small exact algorithms.** `Memory` prints and parses sizes. `Luhn` and `Money` model the example project's checksum and
its money text. `Options`, `Common`, `Decimals` and `Texts` are shared vocabulary.

I/O, clocks, hashes, difflib and the container backend are parameters: an oracle says how a step's foreign call ends, and
timestamps come from a counter.

## Where the code and its documentation differ

The model follows the code in each case.

- `_matches_any` says `src/*.log` excludes only the shallow files. fnmatch's star runs over slashes, so it excludes files
  at any depth (`Patterns.SlashPatternReachesDeep`).
- The pruned walk and a flat per-file filter agree for slash-free literals, `*suffix` and `prefix*`. The protected pattern
  `service-account*.json` has a star in the middle, and with it they differ (`PatternLists.ProtectedListDiffers`;
  `PatternLists.ListAgreesExactly` is the rule for lists).
- `read_manifest` says it hashes every workspace file. sha256sum leaves most line breaks in a name as they are and the
  reader breaks lines there, so one file's name can stand in for another file's digest and hide an edit to it
  (`Manifests.OtherNameReplacesDigest`). A listing reads back faithfully exactly if all its names are printable
  (`Manifests.ListingReadsBackExactly`).
- `format_memory` calls itself the inverse of `parse_memory`. It is so only up to half a hundredth of the unit and a byte;
  just below one gigabyte it prints `1024MB` (`Memory.RoundTripBound`, `Memory.JustBelowAGigabyte`;
  `Memory.UnchangedExactly` says which sizes come back).
- `cancel` on a job whose task was created but has not run yet ends the task without entering `_run`; the job then stays
  PENDING (`JobTheorems.CancelReturnsTerminal` says exactly when).
- A submit that returns while a sweep waits leads to more RUNNING jobs than the limit, because the sweep then drops the
  semaphore in use (`JobSweep.SubmitDuringSweepOvercommits`; `JobDiscards.DiscardKeepsBoundExactly` says exactly when a
  drop is harmless).
- The table has a COMPLETED state that no run reaches (`LifecycleTheorems.CompletedUnreachable`).
- `startup` and the capacity check look at the newest 500 rows only (`LifecycleRecovery.StartupKeepsNewestOnly`).
- With the workspace at `/`, a relative path is accepted and the same path written under the workspace is not, since two
  leading slashes are a root of their own (`SandboxPath.RelativeIsUnderWorkspace`, `SandboxPath.RootWorkspaceDiffers`).
- The comparison's introduction says the baseline predates the container. It is read from inside the container, by the same
  code as the later reading, and that is what makes `Changes.ChangesAreTheEdits` hold.
- `destroy` and the clean-up of a failed creation swallow the sandbox's own errors only. Any other exception of the backend
  ends the operation with the row as it was (`LifecycleTheorems.DestroyAlwaysWorks`).
- `splitEvenly` loses a negative total that does not divide evenly (`Money.SplitConserves`).

## Model

| member | source | states |
|---|---|---|
| Semaphores.Conservation | src/sandbox_mcp/execution/manager.py:112-116 | entering and leaving the semaphore moves exactly the permits it should: a direct acquire and a resume each consume one, a release returns one, and lining up, revoking or giving up none, wherever in the line the waiter stands |
| Semaphores.NoLostWakeupKept | src/sandbox_mcp/execution/manager.py:112-116 | whenever a permit is free and somebody waits, a granted waiter is about to resume; every operation keeps this |
| JobQueues.OperationsKeepOrder | src/sandbox_mcp/execution/manager.py:112-116 | every operation leaves the order of those in line, a newcomer goes to the end, and nobody holds a permit while somebody further ahead still waits |
| JobQueues.StartsAtOnceExactly | src/sandbox_mcp/execution/manager.py:110-113 | a job starts as soon as its task runs exactly if a permit is free and everybody in line has been cancelled, else its task goes to the end of the line |
| JobQueues.NoOvertaking | src/sandbox_mcp/execution/manager.py:112-116 | so in every run and every semaphore |
| JobQueues.FirstCome | src/sandbox_mcp/execution/manager.py:112-116 | whoever stands ahead of another in line came first: at some moment of the run it stood there and the other had not lined up |
| JobInvariant.NextKeepsInv | src/sandbox_mcp/execution/manager.py:109-215 | every event of every interleaving keeps the invariant that ties each task's position to its record, registry entry, row and permits |
| JobInvariant.RunKeepsInv | src/sandbox_mcp/execution/manager.py:51-215 | so it holds after every run |
| JobInvariant.SweepAsks | src/sandbox_mcp/execution/manager.py:205-210 | the first loop of a sweep only asks the listed tasks to stop: it changes no record, no row and no task's position |
| JobTheorems.GetJobIsCurrentInEveryRun | src/sandbox_mcp/execution/manager.py:176-182 | at every await point of every run get_job answers with the job's in-memory record, and a job that left the registry has that terminal record in its row |
| JobTheorems.RefinesSimpleMap | src/sandbox_mcp/execution/manager.py:109-182 | registry plus table refine one map from id to job, in which a submit adds a PENDING job, a step moves only its own job forward, and cancels and sweeps change nothing by themselves |
| JobTheorems.CancelFindsTask | src/sandbox_mcp/execution/manager.py:191-197 | the branch for a job without a live task is never taken: a job that is not over has a registry entry and a task |
| JobTheorems.CancelMovesNothing | src/sandbox_mcp/execution/manager.py:199-200 | requesting a cancellation changes no record, row or task position, only the request marks of that one job |
| JobTheorems.RowMovesForward | src/sandbox_mcp/execution/manager.py:109-215 | through every run, restarts included, a row only moves from PENDING to RUNNING to terminal or from PENDING to terminal, and a terminal row keeps every field |
| JobTheorems.RecordMovesForward | src/sandbox_mcp/execution/manager.py:109-172 | the same for the record in memory, for the rest of the server's life |
| JobTheorems.RestartReconciles | src/sandbox_mcp/experiments/repository.py:459-480 | after a restart no row is PENDING or RUNNING, and get_job answers as before exactly for jobs whose row was already terminal |
| JobTheorems.PermitConservation | src/sandbox_mcp/execution/jobs.py:33-36 | for every semaphore ever created, in every run: free permits, granted but unclaimed permits and RUNNING jobs under it sum to the configured maximum |
| JobTheorems.OverMeansTerminal | src/sandbox_mcp/execution/manager.py:129-172 | when a task is over, get_job reports a terminal job if and only if the task ever entered _run |
| JobTheorems.CancelReturnsTerminal | src/sandbox_mcp/execution/manager.py:184-203 | whatever happens while cancel awaits, the job it returns is terminal if and only if the task had started |
| JobTheorems.SecondCancelSameRecord | src/sandbox_mcp/execution/manager.py:184-189 | a cancel of a terminal job changes nothing and the record stays the same under everything that follows |
| JobTheorems.CancelledTaskEnds | src/sandbox_mcp/execution/manager.py:129-144 | a started task that was asked to stop is over within two of its own steps, whatever the executor answers |
| JobRecords.RecordsAreConsistent | src/sandbox_mcp/execution/manager.py:109-172 | in every run, restarts included, every record and row: finished_at exactly when over, error exactly when over and not completed, exit code only when completed, output only when completed or timed out, started_at whenever the executor was asked |
| JobOutcomes.ExecutorDecides | src/sandbox_mcp/execution/manager.py:118-159 | the executor's answer and nothing else decides the record: TIMEOUT exactly if the command was killed for its time, otherwise COMPLETED with its exit code, both streams with their flags; a sandbox error or another exception makes it FAILED with that error; the request and the start time stay |
| JobOutcomes.AnswersAreExplained | src/sandbox_mcp/execution/manager.py:51-172 | in every run, restarts included, every answer of get_job is for the request submitted under its id, carries the time of the step that started it, and once over says what the event that ended it says: the executor's answer, a cancellation, or the restart |
| JobOutcomes.RequestIsStored | src/sandbox_mcp/execution/manager.py:51-70 | any request can be submitted, and the record starts PENDING and empty with the command, directory, kind and timeout asked for |
| JobOutcomes.SaveReachesTable | src/sandbox_mcp/execution/manager.py:115-162 | a save reaches the table, and a cancelled one may or may not |
| JobOutcomes.StopWasAsked | src/sandbox_mcp/execution/manager.py:184-215 | a task is asked to stop only by a cancel of its job or a sweep that lists it |
| JobOutcomes.CancelMarks | src/sandbox_mcp/execution/manager.py:199-200 | cancelling a job that is not over sets its user flag and its task's request, and no other job's |
| JobSweep.SweepTouchesOwnTasksOnly | src/sandbox_mcp/execution/manager.py:205-210 | a sweep leaves the tasks and registry entries of other experiments alone |
| JobSweep.SweptJobsAreTerminal | src/sandbox_mcp/execution/manager.py:205-215 | once a swept task has ended, get_job reports its job terminal if and only if it had started |
| JobSweep.AfterSweepJobsAreTerminal | src/sandbox_mcp/execution/manager.py:205-215 | after a whole sweep without concurrent submits, every job of the experiment is terminal except exactly those swept before they started |
| JobSweep.DiscardAfterSweepIsQuiet | src/sandbox_mcp/execution/manager.py:211-214 | without concurrent submits the semaphore is dropped while no task uses it |
| JobDiscards.AtMostLimitRunning | src/sandbox_mcp/execution/manager.py:110-127 | in every run that drops semaphores only when spent, an experiment never has more RUNNING jobs than the limit |
| JobDiscards.SweepsKeepBound | src/sandbox_mcp/execution/manager.py:205-215 | so the limit holds in every run in which each drop ends a sweep during which no submit for the experiment returned |
| JobDiscards.DiscardKeepsBoundExactly | src/sandbox_mcp/execution/manager.py:211-214 | after any run with only such drops, one more drop keeps the limit under everything that may follow without another early one, if and only if the experiment is spent: none of its jobs is RUNNING and every task left in line was asked to stop |
| JobDiscards.UnspentOverruns | src/sandbox_mcp/execution/jobs.py:33-36 | from any state with the semaphore gone and a task that can still run under it, there is a continuation to more RUNNING jobs than the limit |
| JobSweep.SubmitDuringSweepOvercommits | src/sandbox_mcp/execution/manager.py:205-215 | a concrete run with a submit during the sweep ends with two RUNNING jobs under a limit of one |
| JobSweep.SomeTaskCanStep | src/sandbox_mcp/execution/manager.py:109-172 | no deadlock: while any submitted job's task is unfinished, some task can take a step |
| JobSweep.AllTasksEnd | src/sandbox_mcp/execution/manager.py:109-172 | from every reachable state the tasks of all submitted jobs can run to their end |
| ExecutionManagers.JobRegistry.GetSemaphore | src/sandbox_mcp/execution/jobs.py:33-36 | an experiment's semaphore is created once, with all permits, and handed out again afterwards |
| ExecutionManagers.JobRegistry.MarkCancelled | src/sandbox_mcp/execution/jobs.py:52-54 | the flag is set on a registered job and nothing happens for any other |
| ExecutionManagers.JobRegistry.DiscardExperiment | src/sandbox_mcp/execution/jobs.py:60-61 | the experiment's semaphore is forgotten while the objects in use live on |
| ExecutionManagers.ExecutionManager.SubmitBegin | src/sandbox_mcp/execution/manager.py:51-69 | the record created carries the request as given and nothing else, as one step of the protocol |
| ExecutionManagers.ExecutionManager.SubmitEnd | src/sandbox_mcp/execution/manager.py:68-81 | after the first save the task exists and is registered, as one step of the protocol |
| ExecutionManagers.ExecutionManager.RunFirst | src/sandbox_mcp/execution/manager.py:109-115 | the first stretch of _run carries out exactly the protocol's step: take a permit, line up, or end unstarted |
| ExecutionManagers.ExecutionManager.RunAfterAcquire | src/sandbox_mcp/execution/manager.py:112-135 | resuming from acquire carries out exactly the protocol's step on either path |
| ExecutionManagers.ExecutionManager.RunAfterRunningSave | src/sandbox_mcp/execution/manager.py:115-135 | resuming from the RUNNING save carries out exactly the protocol's step on either path |
| ExecutionManagers.ExecutionManager.RunAfterExecutor | src/sandbox_mcp/execution/manager.py:116-160 | the executor's result, error or cancellation carries out exactly the protocol's step, and the record tells that result |
| ExecutionManagers.ExecutionManager.RecordResult | src/sandbox_mcp/execution/manager.py:118-159 | an open record comes to tell the executor's result: status, exit code, both streams, flags, error and end time, for the same request |
| ExecutionManagers.ExecutionManager.RunAfterLastSave | src/sandbox_mcp/execution/manager.py:133-161 | the last save unregisters the job unless a cancellation hits that save |
| ExecutionManagers.ExecutionManager.GetJob | src/sandbox_mcp/execution/manager.py:176-182 | the answer is the in-memory record of every submitted job |
| ExecutionManagers.ExecutionManager.CancelBegin | src/sandbox_mcp/execution/manager.py:184-200 | a terminal job is returned with nothing changed, an unknown id is reported, and anything else is asked to stop |
| ExecutionManagers.ExecutionManager.CancelExperimentJobsBegin | src/sandbox_mcp/execution/manager.py:207-210 | the sweep asks every registered job of the experiment to stop, in the order listed, and keeps the invariant |
| ExecutionManagers.ExecutionManager.CancelExperimentJobsEnd | src/sandbox_mcp/execution/manager.py:211-214 | the end of the sweep is the protocol's drop of the semaphore |
| ExecutionManagers.ExecutionManager.Restarted | src/sandbox_mcp/experiments/repository.py:459-480 | a new process starts with no tasks and every row terminal |
| ExperimentStates.TableEnds | src/sandbox_mcp/experiments/state.py:20-34 | no walk along the table leaves DESTROYED or enters CREATING |
| ExperimentStates.TableInWords | src/sandbox_mcp/experiments/state.py:20-34 | everything can be destroyed once and nothing is created twice; a creation succeeds or fails; a READY experiment runs, completes, fails or is cancelled; a RUNNING one goes anywhere; one that is over only runs again |
| ExperimentStates.TableReaches | src/sandbox_mcp/experiments/state.py:20-39 | from a live state every state but CREATING is at most two moves away |
| LifecycleTheorems.IllegalMovesExactly | src/sandbox_mcp/experiments/state.py:46-58 | in serial runs a transition is refused exactly when execute or run_tests meets a row whose creation never finished |
| LifecycleInvariant.RunKeepsInv | src/sandbox_mcp/experiments/manager.py:147-284 | every serial run, of any size and with crashes anywhere, keeps rows, container names, operations and audit log in agreement |
| LifecycleRecovery.StartupRecovers | src/sandbox_mcp/experiments/manager.py:82-103 | for every run of at most 500 rows that ends in a startup, with crashes and overlaps anywhere: every container left is named by exactly one live row; every live row's container is left unless that experiment's own destroy or failed creation had been at it; no startup of the run, finished or interrupted, took a container that a live row named |
| LifecycleRecovery.StartupKeepsNewestOnly | src/sandbox_mcp/experiments/manager.py:93-101 | after any run, overlapping or not, with a table of any size, a live row's container survives a startup if and only if the row is among the newest 500 |
| LifecycleRecovery.StartupKeepsLatest | src/sandbox_mcp/experiments/repository.py:300-312 | after any run that ends idle, a live row's container survives a startup if and only if fewer than 500 rows were created later |
| LifecycleOrder.CreatedInOrder | src/sandbox_mcp/experiments/manager.py:209-248 | in every run creation times are distinct and follow the order of the creates |
| LifecycleRecovery.LiveSandboxExists | src/sandbox_mcp/experiments/manager.py:260-284 | in every run of at most 500 rows, overlapping or not, a live row's container exists or was torn down by a step of its own experiment in that run; a live row without one is FAILED and was never READY |
| LifecycleRecovery.TornHasCause | src/sandbox_mcp/experiments/manager.py:396-406 | in every run a container marked as torn down was removed by a step of one experiment's destroy or failed creation, and no other experiment's row or operation names it |
| LifecycleRecovery.SerialTornHasCause | src/sandbox_mcp/experiments/manager.py:396-406 | in serial runs that experiment's row still names the container |
| LifecycleRecovery.RunKeepsNames | src/sandbox_mcp/experiments/manager.py:260-274 | in every run, overlapping or not, no two experiments ever hold one container, be it in a row, in an operation's copy or in a creation under way |
| LifecycleRecovery.RemovalHasReason | src/sandbox_mcp/sandbox/docker.py:594-615 | in serial runs a container disappears only at the hands of its own experiment's destroy or failed creation, or of a startup when no live row among the newest 500 names it |
| LifecycleRecovery.NoLeak | src/sandbox_mcp/experiments/manager.py:266-284 | in serial runs of any size without crashes and failed removals (after a failed start included) every container is named by a live row or held by the creation in progress |
| Recovery.ServerKeepsInvariants | src/sandbox_mcp/experiments/manager.py:82-103 | every run of the whole server, jobs and serial experiment operations interleaved with crashes and startups, keeps the invariants of both step systems |
| Recovery.StartupRecoversEverything | src/sandbox_mcp/experiments/manager.py:82-103 | one startup after any run of the whole server with at most 500 experiments: the containers left are exactly owned as above, no task or registry entry is left, no job row is PENDING or RUNNING, and every terminal row is as it was |
| LifecycleTheorems.AuditTrail | src/sandbox_mcp/experiments/manager.py:147-180 | in every serial run of any size: an experiment's recorded transitions are a path in the table from CREATING to the row's status, and each timestamp is set exactly if its state was visited, unless a crash cut its trail |
| LifecycleTheorems.StampsAreNow | src/sandbox_mcp/experiments/manager.py:147-171 | in serial runs a timestamp is set to the current time, together with the status it stands for; the first READY and the first RUNNING are kept |
| LifecycleTheorems.GapExactly | src/sandbox_mcp/experiments/manager.py:171-180 | the trail of an experiment was cut exactly if a crash fell between the save of its row and the audit entry for it |
| LifecycleTheorems.NoCrashNoGap | src/sandbox_mcp/experiments/manager.py:171-180 | without a crash no experiment is ever exempt from that |
| LifecycleTheorems.CrashGap | src/sandbox_mcp/experiments/manager.py:171-180 | after any serial run of any size, a crash spoils a sound trail if and only if it falls between the row's save and its audit entry |
| LifecycleTheorems.CompletedUnreachable | src/sandbox_mcp/experiments/manager.py:429-439 | no serial run of any size brings an experiment to COMPLETED |
| LifecycleTheorems.DestroyedForever | src/sandbox_mcp/experiments/manager.py:115-130 | in serial runs a destroyed experiment's row never changes again |
| LifecycleTheorems.DestroyAlwaysWorks | src/sandbox_mcp/experiments/manager.py:564-604 | destroy ends in DESTROYED from every other state, with one audit entry and whether or not the removal works; on a destroyed experiment it changes nothing; an exception that escapes the removal leaves row and log as they were |
| LifecycleTheorems.AtMostMaxLive | src/sandbox_mcp/experiments/manager.py:310-319 | in every run, overlapping or not, live rows never exceed the maximum if each create finds every live row among the newest 500 and no other experiment about to become live |
| LifecycleTheorems.RoomExactly | src/sandbox_mcp/experiments/manager.py:310-319 | there is room for a create exactly while fewer experiments than the maximum are past their creation, not destroyed, and older than fewer than 500 others; with at most 500 rows, exactly while fewer than the maximum are past their creation and not destroyed |
| LifecycleTheorems.SerialCreatesKeepMaximum | src/sandbox_mcp/experiments/manager.py:310-319 | in serial runs it is enough that no two creates overlap |
| LifecycleProspects.NextAddsNoProspect | src/sandbox_mcp/experiments/manager.py:147-171 | nothing but a create adds to the experiments that are live or that an operation in flight may still save as live |
| LifecycleOverlaps.OverlapUndoesDestroy | src/sandbox_mcp/experiments/manager.py:425-439 | from any state with a READY experiment, an execute that settles its stale copy after a destroy revives the row |
| LifecycleOverlaps.RevivesExactly | src/sandbox_mcp/experiments/manager.py:147-171 | with operations overlapping in any way, a destroyed experiment can come back if and only if an operation in flight on it holds an older copy that it is still going to save |
| LifecycleOverlaps.ProspectsComeTrue | src/sandbox_mcp/experiments/manager.py:147-171 | from any state there is a continuation after which exactly those experiments are live |
| LifecycleOverlaps.OverlappingCreatesExceedCapacity | src/sandbox_mcp/experiments/manager.py:209-248 | two overlapping creates end with two live rows under a maximum of one |
| LifecycleOverlaps.ExceedsExactly | src/sandbox_mcp/experiments/manager.py:209-248 | from any state, with operations overlapping in any way, live rows can come to exceed the maximum without a further create if and only if the experiments that are live or that an operation in flight may still save as live are already more than that |
| ExperimentManagers.ExperimentManager.Transition | src/sandbox_mcp/experiments/manager.py:147-171 | table check, status, timestamps and save carry out exactly the lifecycle's step |
| ExperimentManagers.ExperimentManager.Audit | src/sandbox_mcp/experiments/manager.py:172-180 | the audit entry carries out exactly the lifecycle's step |
| ExperimentManagers.ExperimentManager.CreateBody | src/sandbox_mcp/experiments/manager.py:260-274 | each piece of create's try block carries out exactly the lifecycle's step, raising or not |
| ExperimentManagers.ExperimentManager.FailCreation | src/sandbox_mcp/experiments/manager.py:396-406 | saving the error and removing the container carry out exactly the lifecycle's steps, also when an exception escapes the removal |
| ExperimentManagers.ExperimentManager.Settle | src/sandbox_mcp/experiments/manager.py:429-439 | the awaited job's status and exit code choose the lifecycle's next state |
| ExperimentManagers.ExperimentManager.Startup | src/sandbox_mcp/sandbox/docker.py:594-615 | the loop over containers, in any order, removes exactly those no live row names and whose removal does not fail; with failures it is the lifecycle's partial startup |
| ExperimentManagers.ExperimentManager.Create | src/sandbox_mcp/experiments/manager.py:193-284 | refused at capacity exactly if at least the maximum of such experiments exist and, with room, when path or policy reject it; otherwise outcome, status, error, container and the full audit trail are those of the point the creation reached, a container that could not be removed after a failed start included |
| ExperimentManagers.ExperimentManager.Admit | src/sandbox_mcp/experiments/manager.py:193-209 | the checks before anything is saved, with capacity counted in rows |
| ExperimentManagers.OutcomeInWords | src/sandbox_mcp/experiments/manager.py:250-284 | create succeeds exactly if neither start nor baseline raises, and otherwise raises the first reason, unless the removal after a failed baseline raises its own |
| ExperimentManagers.ExperimentManager.RunSetup | src/sandbox_mcp/experiments/manager.py:368-394 | the setup commands, one after the other, take READY to RUNNING and on to READY exactly if all complete with exit code 0, else FAILED, with both moves recorded |
| ExperimentManagers.ExperimentManager.AwaitCommands | src/sandbox_mcp/experiments/manager.py:379-387 | the loop stops at the first command that fails, and fails exactly if one does |
| ExperimentManagers.ExperimentManager.Execute | src/sandbox_mcp/experiments/manager.py:410-439 | refused without a sandbox, illegal exactly on an unfinished creation, and otherwise RUNNING and then the settled state, READY exactly for a clean exit and TIMEOUT or CANCELLED exactly for those jobs, with the moves recorded and nothing of other experiments changed |
| ExperimentManagers.ExperimentManager.Destroy | src/sandbox_mcp/experiments/manager.py:564-604 | no row, already destroyed and an escaping exception leave rows and log alone; otherwise the row ends DESTROYED and only this row, its trail and its container, if it has one, change |
| ExperimentManagers.ExperimentManager.GetLive | src/sandbox_mcp/experiments/manager.py:115-130 | the three refusals in order, and none exactly if an execute may start |
| SandboxPath.ValidateSandboxPath | src/sandbox_mcp/security/filesystem.py:123-157 | the loop with its stack returns the specified verdict |
| SandboxPath.NormaliseIsWalk | src/sandbox_mcp/security/filesystem.py:123-157 | in every tree the stack names the node the raw components lead to, and the loop gives up exactly when the walk rises above the root |
| SandboxPath.ValidateIsWalk | src/sandbox_mcp/security/filesystem.py:123-157 | for a non-blank path, read from the root of the tree if it starts with a slash and from the workspace otherwise: escaping exactly if the walk rises above the root, outside exactly if it ends outside the workspace or starts at the double-slash root, and otherwise the node's own path |
| SandboxPath.AcceptedIsConfined | src/sandbox_mcp/security/filesystem.py:123-157 | an accepted path is absolute, free of dot components, and has the workspace as a component prefix |
| SandboxPath.Idempotent | src/sandbox_mcp/security/filesystem.py:123-157 | validating an accepted path returns it unchanged |
| SandboxPath.RelativeIsUnderWorkspace | src/sandbox_mcp/security/filesystem.py:123-157 | a relative path and the same path under the workspace agree if and only if the workspace is not the bare root or the path escapes |
| SandboxPath.RootWorkspaceDiffers | src/sandbox_mcp/security/filesystem.py:123-157 | the input on which they differ: `a` under the workspace `/` |
| Paths.SplitJoin | src/sandbox_mcp/security/filesystem.py:123-157 | splitting joined slash-free components gives them back |
| Paths.ParseRender | src/sandbox_mcp/security/filesystem.py:123-157 | reading a written absolute path gives the same root and components |
| Paths.ParseOneMore | src/sandbox_mcp/security/filesystem.py:135-136 | one more component at the end of a text adds nothing if empty or a dot and itself otherwise, dot-dot included |
| Paths.RootCountsSlashes | src/sandbox_mcp/security/filesystem.py:135-136 | exactly two leading slashes are a root of their own, any other number is the one root |
| Patterns.MatchesAnyLoop | src/sandbox_mcp/security/filesystem.py:50-63 | the loop finds a match exactly if some pattern matches the name, the path or, being slash-free, a component |
| Patterns.MatchesConcat | src/sandbox_mcp/security/filesystem.py:57-62 | one pattern behind another matches exactly the texts that can be cut in two for them |
| Patterns.TokenMatches | src/sandbox_mcp/security/filesystem.py:57-62 | a character matches itself, a question mark any one, a star anything, a bracket one character in or out of its ranges |
| Patterns.ExcludedExactly | src/sandbox_mcp/security/filesystem.py:50-63 | a path is excluded exactly if some pattern matches its last name or its whole text, or is slash-free and matches one of its components |
| Patterns.SlashPatternExactly | src/sandbox_mcp/security/filesystem.py:50-63 | a pattern with a slash excludes exactly the paths whose last name or whole text it matches, and a plain one exactly the path it spells |
| Patterns.AroundMatches | src/sandbox_mcp/security/filesystem.py:57-62 | `u*v` matches exactly the texts that start with u and end with v without overlap |
| Patterns.PruningIsFiltering | src/sandbox_mcp/security/filesystem.py:204-214 | for patterns that look at one component at a time, a path is pruned away if and only if it is excluded by itself |
| Patterns.CommonShapesPruneAsFilter | src/sandbox_mcp/security/filesystem.py:204-214 | slash-free literals, `*suffix` and `prefix*` are such patterns |
| Patterns.StarInTheMiddleDiffers | src/sandbox_mcp/security/filesystem.py:204-214 | for every two non-empty slash-free words u and v, `u*v` prunes the directory uz/zv and all below it while the flat filter keeps the file uz/zv/z |
| Patterns.OneStarAgreesExactly | src/sandbox_mcp/security/filesystem.py:204-214 | for a slash-free `u*v` the pruned walk equals the flat filter on every path if and only if u or v is empty |
| Patterns.SlashPatternReachesDeep | src/sandbox_mcp/security/filesystem.py:50-63 | a pattern with a slash before its star matches at every depth |
| PatternLists.ListAgreesExactly | src/sandbox_mcp/security/filesystem.py:204-214 | for any list of slash-free names with at most one star each, in which some character does not occur: pruning equals filtering on every path if and only if for every `u*v` the list also holds a `p*` with p a beginning of u or a `*s` with s an ending of v |
| PatternLists.UncoveredStarDiffers | src/sandbox_mcp/security/filesystem.py:204-214 | otherwise the walk prunes uz/zv and the filter keeps the file uz/zv/z, for any character z that the list does not mention |
| PatternLists.ProtectedListDiffers | src/sandbox_mcp/config.py:79-96 | the whole list of protected patterns disagrees on service-accountZ/Z.json/Z |
| Snapshots.Snapshot | src/sandbox_mcp/security/filesystem.py:187-266 | whatever the visiting order, the walk fails exactly if the kept regular files exceed a limit, naming one that is exceeded, and otherwise records exactly the kept files, their count and their size |
| Snapshots.CopyEntry | src/sandbox_mcp/security/filesystem.py:221-258 | one entry is recorded exactly if it is to be kept, links by their target's hash and uncounted, files counted against both limits |
| Snapshots.PruneDirectories | src/sandbox_mcp/security/filesystem.py:203-214 | exactly the directories no pattern bars stay in the walk |
| Snapshots.SnapshotIsFlatFilter | src/sandbox_mcp/security/filesystem.py:187-266 | for component-wise patterns the manifest holds exactly the files and links that no pattern matches |
| Snapshots.ManifestExactly | src/sandbox_mcp/security/filesystem.py:187-266 | for any patterns: the manifest holds exactly the files and links of which no part of the path is excluded by either list, a file with its size and digest, a link as such with its target's hash |
| Snapshots.KeysAreDistinct | src/sandbox_mcp/security/filesystem.py:222-250 | different files never share a manifest key |
| Manifests.BreaksAre | src/sandbox_mcp/sandbox/docker.py:748-751 | the ten characters at which the reader breaks lines |
| Manifests.ParseSha256sumOutput | src/sandbox_mcp/sandbox/docker.py:748-759 | the loop over lines fills the specified dictionary, later lines winning |
| Manifests.OutputReadsBack | src/sandbox_mcp/sandbox/docker.py:748-759 | printing any listing of printable names and reading it back gives the listing's own digests |
| Manifests.ReadsBackExactly | src/sandbox_mcp/sandbox/docker.py:748-759 | the name of a file listed alone comes back with its digest if and only if it has no line break or backslash and does not end in white space |
| Manifests.ListingReadsBackExactly | src/sandbox_mcp/sandbox/docker.py:748-759 | a listing of any files reads back faithfully, each under its own path with its own digest and nothing else, if and only if every name in it is printable in that sense |
| Manifests.OtherNameReplacesDigest | src/sandbox_mcp/sandbox/docker.py:748-759 | the input that makes one name's failure another's: a listed file whose name goes on, after a vertical tab, like a line about a replaces the digest of a by whatever digest the name holds |
| Manifests.ManifestViaArchive | src/sandbox_mcp/sandbox/docker.py:455-486 | the loop over archive members fills the specified dictionary |
| Manifests.StripOfJoin | src/sandbox_mcp/sandbox/docker.py:718-721 | stripping the archive's own directory gives back the path below it |
| Manifests.Sha256sumRouteIsFlat | src/sandbox_mcp/sandbox/docker.py:425-446 | for printable names, pruning, listing, printing, parsing and filtering together report exactly the files no pattern matches |
| Manifests.Sha256sumRouteExactly | src/sandbox_mcp/sandbox/docker.py:425-446 | the shell route reports exactly the files no pattern matches if and only if every listed name is printable and either no prune name matches the starting dot or the filter leaves nothing; names filtered afterwards are taken to be printable |
| Manifests.ArchiveRouteIsFlat | src/sandbox_mcp/sandbox/docker.py:455-486 | the tar route reports exactly the files no pattern matches |
| Manifests.RoutesAgreeExactly | src/sandbox_mcp/sandbox/docker.py:425-486 | both routes give the same path-to-digest map under that same if-and-only-if condition, and the tar route's is always the flat filter's |
| Manifests.ReadManifest | src/sandbox_mcp/sandbox/docker.py:425-453 | the method gives the reading that the lemmas below speak of |
| Manifests.MissingExactly | src/sandbox_mcp/sandbox/docker.py:440-444 | the workspace is reported missing exactly for exit code 3 |
| Manifests.ArchiveAnswers | src/sandbox_mcp/sandbox/docker.py:445-453 | whenever the run was not clean the archive alone decides, whatever was printed: exactly the files no pattern matches |
| Manifests.ReadingSizes | src/sandbox_mcp/sandbox/docker.py:455-486 | the archive route gives every file's size, the other -1 |
| Manifests.ListedExactly | src/sandbox_mcp/sandbox/docker.py:724-745 | find lists exactly the files of which no component, nor the starting dot, matches a pattern without slash and star |
| Manifests.ReadingIsFlatExactly | src/sandbox_mcp/sandbox/docker.py:425-453 | a reading of a workspace that is there, where a clean run (exit code 0 with something printed or no complaint) printed what find and sha256sum say, holds exactly the files no pattern matches, if and only if it was no clean run, or every listed name is printable and either no slash-free star-free pattern matches the starting dot or every file is excluded; listed names that are filtered afterwards are taken to be printable |
| Changes.SortPaths | src/sandbox_mcp/experiments/changes.py:81-87 | the result is ascending without repeats and has exactly the set's elements |
| Changes.SortedUnique | src/sandbox_mcp/experiments/changes.py:81-87 | a set has only one such list |
| Changes.ComputeChanges | src/sandbox_mcp/experiments/changes.py:60-131 | the three sorted lists are the set differences and the digest differences; the first files up to the budget, modified then created then deleted, are detailed in order, the totals sum them, and truncated holds exactly if files were left over |
| Changes.DetailInWords | src/sandbox_mcp/experiments/changes.py:106-180 | of each file: the new copy from the sandbox unless deleted, the old one from the snapshot if not too long, lines counted from old to new exactly if the copy shown is not too long and its first 8000 bytes are text, its size, and its diff exactly if asked for |
| Changes.QueueInWords | src/sandbox_mcp/experiments/changes.py:96-104 | modified files come first, then created, then deleted ones, each in the order of its list |
| Changes.DiffsChangeOnlyText | src/sandbox_mcp/experiments/changes.py:134-165 | asking for diffs changes no list, count or total: of each detailed file at most the text differs |
| Changes.DeletedAreNotRead | src/sandbox_mcp/experiments/changes.py:106-122 | the details depend on the sandbox only through the created and modified files |
| Changes.ChangesTurnBaselineIntoCurrent | src/sandbox_mcp/experiments/changes.py:78-94 | the lists are disjoint, and applied to the baseline's digests they give exactly the current digests |
| Changes.NoChangesExactly | src/sandbox_mcp/experiments/changes.py:78-94 | the lists are all empty if and only if the digests agree |
| Changes.ChangesAreTheEdits | src/sandbox_mcp/experiments/manager.py:497-515 | between two readings of the workspace, each by whichever route, and with printable names where the shell route is taken, the lists name exactly the unexcluded files that were created, edited or deleted |
| Memory.FittingTextReads | src/sandbox_mcp/security/resources.py:12-68 | text that fits the pattern, with white space around its parts, is read as its digits, decimals and unit say, or refused for its unit or the floor |
| Memory.MalformedExactly | src/sandbox_mcp/security/resources.py:12-53 | text is malformed if and only if it does not fit the pattern |
| Memory.UnitsInWords | src/sandbox_mcp/security/resources.py:12-68 | digits with b, k, m, g or t, in either case and with or without b or ib, are that many times 1, 1024, 1048576 and so on; below 6291456 they are refused, and any other unit is unknown |
| Memory.CountsAreBytes | src/sandbox_mcp/security/resources.py:39-68 | a number is taken as bytes with the same floor |
| Memory.FormatInWords | src/sandbox_mcp/security/resources.py:71-78 | gigabytes, megabytes and kilobytes from one of each on and bytes below, with no decimal that is not needed |
| Memory.RoundedIsNearest | src/sandbox_mcp/security/resources.py:71-78 | the printed hundredths are the nearest, the even one of two |
| Memory.ParseFormat | src/sandbox_mcp/security/resources.py:39-78 | a printed size is read as the printed hundredths of its unit |
| Memory.RoundTripBound | src/sandbox_mcp/security/resources.py:39-78 | from the floor up it is always accepted and lands within a two-hundredth of the unit and a byte |
| Memory.QuartersAreExact | src/sandbox_mcp/security/resources.py:39-78 | multiples of a quarter unit come back exactly |
| Memory.Idempotent | src/sandbox_mcp/security/resources.py:39-78 | a second round trip changes nothing |
| Memory.UnchangedExactly | src/sandbox_mcp/security/resources.py:39-78 | a size from the floor up comes back unchanged if and only if its hundredfold is less than a hundred short of a multiple of its unit |
| Memory.JustBelowAGigabyte | src/sandbox_mcp/security/resources.py:71-78 | within half a hundredth of a megabyte below one gigabyte the text is 1024 megabytes and reads as one gigabyte |
| OutputCollectors.OutputCollector.constructor | src/sandbox_mcp/sandbox/docker.py:626-633 | a new collector holds two empty captures |
| OutputCollectors.OutputCollector.AddStdout | src/sandbox_mcp/sandbox/docker.py:635-643 | a non-empty chunk extends what is captured to the first max bytes of the longer stream, flagged exactly if bytes were dropped; an empty one only sets the flag of a full stream |
| OutputCollectors.OutputCollector.AddStderr | src/sandbox_mcp/sandbox/docker.py:645-653 | the same for the other stream, without touching this one |
| OutputCollectors.OutputCollector.Pump | src/sandbox_mcp/sandbox/docker.py:375-382 | whatever the chunks and their interleaving, each stream holds the first max bytes of everything that arrived on it and is flagged exactly if there was more |
| OutputCollectors.Kept | src/sandbox_mcp/sandbox/docker.py:639-643 | cutting a chunk to the room left keeps a capture a capture of the longer stream |
| Artifacts.MatchLines | src/sandbox_mcp/artifacts/manager.py:134-147 | matches are the validated lines in order of first occurrence, and every other non-blank line is skipped |
| Artifacts.DedupIsDistinct | src/sandbox_mcp/artifacts/manager.py:134-147 | no match comes twice and none is lost |
| Artifacts.DedupKeepsOrder | src/sandbox_mcp/artifacts/manager.py:134-147 | the matches keep the order of their first occurrence |
| Artifacts.ValidatedExactly | src/sandbox_mcp/artifacts/manager.py:134-147 | a path is a match exactly if some line is accepted as it |
| Artifacts.ValidatedConcat | src/sandbox_mcp/artifacts/manager.py:134-147 | line by line, in order |
| Artifacts.OutsidersConcat | src/sandbox_mcp/artifacts/manager.py:134-147 | and so with the lines that name nothing acceptable |
| Artifacts.Expand | src/sandbox_mcp/artifacts/manager.py:93-151 | patterns that are blank, absolute or climbing are refused, a missing workspace is an error only if something is searched, and an empty outcome is explained |
| Artifacts.RelativePatternExactly | src/sandbox_mcp/artifacts/manager.py:98-112 | a pattern is searched for exactly if it is not blank, does not start with a slash and has no dot-dot among its slash-separated pieces, with any white space around it |
| Artifacts.RefusedExactly | src/sandbox_mcp/artifacts/manager.py:98-112 | exactly the other patterns are reported |
| Artifacts.RefusedConcat | src/sandbox_mcp/artifacts/manager.py:98-112 | in the order they come |
| Artifacts.OutsidersExactly | src/sandbox_mcp/artifacts/manager.py:134-147 | exactly the non-blank lines that name nothing acceptable are reported |
| Artifacts.HostPathIsConfined | src/sandbox_mcp/artifacts/manager.py:70-71 | every validated path lands in its experiment's directory with no dot components on the way, and strictly below it if and only if it is not the workspace itself |
| Artifacts.HostPathMirrors | src/sandbox_mcp/artifacts/manager.py:70-71 | a path below the workspace lands at the same path below its experiment's directory |
| Artifacts.HostPathsAreDistinct | src/sandbox_mcp/artifacts/manager.py:70-71 | two host paths are equal if and only if experiment and sandbox path are |
| Artifacts.MatchesArePlacedApart | src/sandbox_mcp/artifacts/manager.py:41-71 | the matches handed to the collect loop always land in different places |
| Artifacts.Collect | src/sandbox_mcp/artifacts/manager.py:45-91 | exactly the readable matches before the cut-off are collected in order, within the limit; their files hold their payloads and no other file changes; failures and the limit are noted; total_bytes is the sum of sizes |
| Artifacts.FailuresConcat | src/sandbox_mcp/artifacts/manager.py:45-66 | unreadable matches are noted in the order of the matches |
| Artifacts.EveryMatchIsAccountedFor | src/sandbox_mcp/artifacts/manager.py:52-66 | a match before the cut-off is collected if and only if it is not noted as unreadable, and a cut-off means a full limit |
| Luhn.LuhnChecksum | examples/node-upgrade/src/validate.js:5-19 | the right-to-left loop computes the recursive sum modulo ten, and fails exactly for text with a non-digit |
| Luhn.SumConcat | examples/node-upgrade/src/validate.js:5-19 | the sum of two halves, the left one doubling by the right one's length |
| Luhn.SingleErrorDetected | examples/node-upgrade/src/validate.js:5-19 | in a text of any length two digits in one place give the same checksum only if equal |
| Luhn.SwapDetectedExceptNineZero | examples/node-upgrade/src/validate.js:5-19 | swapping neighbours keeps the checksum if and only if they are equal or 0 and 9 |
| Luhn.CheckDigitIsUnique | examples/node-upgrade/src/validate.js:5-19 | exactly one check digit completes any payload |
| Luhn.IsValidCardNumber | examples/node-upgrade/src/validate.js:21-30 | valid means 12 to 19 digits besides separators, with checksum zero |
| Luhn.LengthsExactly | examples/node-upgrade/src/validate.js:21-30 | there are valid numbers of 12 to 19 digits and of no other length |
| Luhn.SeparatorsDoNotMatter | examples/node-upgrade/src/validate.js:23-24 | a separator anywhere changes nothing |
| Luhn.MistypedDigitIsRefused | examples/node-upgrade/src/validate.js:21-30 | changing one digit of a valid number makes it invalid, however it is grouped |
| Luhn.SwappedDigitsAreRefused | examples/node-upgrade/src/validate.js:21-30 | swapping neighbouring digits of a valid number, even across separators, keeps it valid if and only if they are equal or 0 and 9 |
| Money.MalformedExactly | examples/node-upgrade/src/money.js:17-19 | trimmed text is malformed if and only if it is not an optional minus, digits, and optionally a point with digits |
| Money.AmountsInWords | examples/node-upgrade/src/money.js:13-30 | a well-formed amount between white space: three currencies have cents and JPY none, more decimals are refused, fewer are filled up, others are unsupported |
| Money.EmptyExactly | examples/node-upgrade/src/money.js:14-16 | the empty amount is exactly white space |
| Money.MalformedAmountExactly | examples/node-upgrade/src/money.js:14-19 | text is malformed exactly if it is neither empty nor such an amount |
| Money.ParseFormat | examples/node-upgrade/src/money.js:13-37 | parseAmount undoes formatAmount for every amount and supported currency |
| Money.FormatParse | examples/node-upgrade/src/money.js:13-37 | formatting a parsed amount gives canonical text of the same amount, and the same text if and only if that was canonical |
| Money.SplitConserves | examples/node-upgrade/src/money.js:46-51 | the parts are as many as asked, never increase and differ by at most one, and sum to the total if and only if it is non-negative or divides evenly |
| Money.NegativeSplitLoses | examples/node-upgrade/src/money.js:46-51 | a split of -10 in three sums to -9 |

## Left out

- Foreign effects: the Docker SDK, image pulls, networks, exec and pid-file signalling; the backend is an oracle and a set of containers.
- SQLite, JSON encoding and threads: a save is one atomic step that succeeds. A cancelled save that reaches the table only after later steps, from its worker thread, is not modelled.
- The MCP surface, command line, logging and settings loading: plumbing without branching of interest.
- Resource policy clamps and the parsing of test output: single-branch rules that would only add easy members.
- Coupling of the two step systems: Recovery runs them side by side, but an execute in the lifecycle does not name the job it waits for, and destroy's sweep of jobs is an event of the job protocol alone. Timestamps are a counter; created_at has no ties.
- JobDiscards.AtMostLimitRunning: assumes semaphores are dropped only when spent; JobDiscards.DiscardKeepsBoundExactly proves that any other drop can break the limit, and JobDiscards.SweepsKeepBound that sweeps without concurrent submits are of the good kind.
- LifecycleRecovery.StartupRecovers: at most 500 rows, because startup reads no more; the exact rule for larger tables is LifecycleRecovery.StartupKeepsNewestOnly. Removals that fail during a startup are interrupted startups, which may occur anywhere before the last one.
- LifecycleRecovery.LiveSandboxExists: at most 500 rows, for the same reason.
- Recovery.StartupRecoversEverything: the same bound.
- LifecycleTheorems.AuditTrail: for serial operations, since overlapping ones hold stale copies; LifecycleOverlaps.RevivesExactly says what those can do to a destroyed row.
- LifecycleTheorems.AtMostMaxLive: the condition on creates is needed, since the capacity check counts live rows among the newest 500 only; LifecycleOverlaps.ExceedsExactly is the exact condition at any moment.
- ExecutionManagers.ExecutionManager.RunFirst: job records are entries of a dictionary keyed by id; that several places share one Job object is expressed by there being one entry.
- ExperimentManagers.ExperimentManager.Destroy: the sweep of jobs, the last diff and the removal of the snapshot directory appear only as exceptions that may escape, and the report is not modelled.
- ExperimentManagers.ExperimentManager.Create: why a path or a policy rejects a create is not modelled, only that it does before anything is saved.
- LifecycleTheorems.IllegalMovesExactly: what execute does after the refusal, and the jobs a refused run_tests would have started, are not part of the lifecycle.
- Patterns.MatchesAnyLoop: a pattern arrives as tokens; how fnmatch reads bracket expressions from text is not modelled.
- Patterns.PruningIsFiltering: one way for lists of arbitrary patterns; the exact rule for lists with at most one star a name is PatternLists.ListAgreesExactly.
- Snapshots.Snapshot: the copied tree at the destination, the list of skipped entries and unreadable files are not modelled; manifest keys are lists of names, whose joins are distinct by Snapshots.KeysAreDistinct.
- Manifests.RoutesAgreeExactly: the listing must fit the output cap; names that are listed and filtered afterwards are taken to be printable; two hard-linked names of one file, which tar stores as a link, are not modelled.
- Changes.ComputeChanges: the diff text with its insertion and deletion counts is a given function, because the counts rest on difflib.
- Manifests.ReadingIsFlatExactly: an unprintable name that the filter would have dropped may or may not spoil the reading; the rule does not speak of it.
- Changes.ChangesAreTheEdits: assumes the hash tells the two contents of one path apart, and names printable in the sense of Manifests.ListingReadsBackExactly; Manifests.OtherNameReplacesDigest shows what an unprintable one can do.
- Memory.FittingTextReads: exact rationals instead of doubles. They agree on all sizes format_memory prints up to 2^48: the quotient is exact, and the product's error stays below a 32nd while its distance from the next integer is zero exactly or at least a 25th. Longer decimal texts may read a byte apart.
- Memory.MalformedExactly: ASCII digits only; Python also reads other decimal digits.
- Money.ParseFormat: whole numbers of any size, which agree with JavaScript's up to 2^53 - 1; minus zero is zero, and currency names inherited from Object.prototype are not modelled.
- Artifacts.Collect: the shell that expands the globs is an oracle; a file and a directory of the same name cannot both be matches and are not considered.
- OutputCollectors.OutputCollector.Pump: bytes only; decoding them with replacement characters is not modelled.
