# Verified models of TrueNAS middleware protocols

A Dafny project that models the small concurrent protocols and stateful objects at the core of the TrueNAS middleware,
and proves what they keep over every run and interleaving. `dafny verify dfyconfig.toml` checks all of it.

Each component is modelled twice where the source changes things in place: as a state with step functions, over which
the theorems range, and as a class with the source's fields, whose methods are proved to make those steps.

| component | files | result |
|---|---|---|
| job scheduler, `job.py` | `JobModel`, `JobSafety`, `JobTheorems`, `JobOutcome`, `JobProgress`, `JobOrder`, `JobsQueue` | one lock object per name, one holder per lock, no lost wake-up, first come first served, conservation of message ids, bounds on queue and deque, life cycle, progress |
| finish callbacks, `job.py` | `JobCallbacks` | when a callback runs exactly once |
| progress throttle, `job.py` | `ProgressBuffer` | spacing of sends, no loss of the latest submission |
| lockspace join and leave, `plugins/dlm.py` | `Dlm` | running nodes agree on the members at every moment; join and leave are inverse |
| roles, `role.py` | `RoleGraph`, `RoleManager` | downward recursion and upward fixpoint describe one relation |
| cloud sync locks, `plugins/cloud_sync.py` | `SyncLocks`, `FsLocks` | exclusion, notification, no deadlock; when locked paths are an antichain |
| rclone log cutter, `plugins/cloud_sync.py` | `LogCutter` | which lines survive |
| syslog queue, `logger.py` | `Syslog` | delivery, order and loss under every pattern of failures |
| key-value cache, `plugins/cache.py` | `Cache` | refinement of an eagerly purging map |
| account ids, `plugins/account.py` | `Xids` | least free id, no clash between concurrent creations |
| sessions, `auth.py` and `plugins/auth.py` | `Sessions` | an invalid session is invalid for good, token sessions do not outlive their root |

Python objects that are shared by reference (jobs, locks, credentials, tokens) are positions in a sequence, so sharing is
equality of positions. A stretch of code between two suspension points is one step. Clocks, random names, the failures
of the outside world and the order in which concurrent calls happen are parameters, and the theorems hold for all of them.

Where the code does not do what it is for, the model follows the code, and a lemma says when it does:

* A job that is refused or merged was attached to its lock before, and is never detached, so that lock stays in the
  registry for ever (`TurnedAwayPinsLock`, `MergeLeaksLock`).
* Of two callbacks registered on one merged job before it finishes, the first never runs (`FirstOfTwoIsLost`).
* Two entries of the role table include themselves (`role.py`, lines 64 and 248); `roles_for_role` has no answer for
  them or for any role that includes them (`SelfIncludeNeverReturns`, `ReturnsIffAcyclic`).
* A role that includes a full administrator would be allowed methods and events whose role list does not name it
  (`AllowlistMatchesRoles`, `AdminBelowIsNotListed`). No role of the shipped table includes FULL_ADMIN.
* A request above several locked paths gets the lock of whichever comes first in the dictionary (`OrderMattersIff`,
  `ParentDependsOnOrder`).
* A path with two leading slashes, which `normpath` keeps, can be locked together with one below it
  (`AboveAnotherIff`, `TwoSlashesBreakAntichain`) and is locked anew each time it is asked for (`SamePathSameLockIff`,
  `SlashesLockedAnew`).
* A remote folder that climbs out of its credential gives a key such as `..`, which `commonpath` compares by spelling: it
  is locked together with everything below it that begins otherwise (`AboveAnotherIff`, `ClimbingBreaksAntichain`), and
  shares a lock with paths it is not related to (`TestIsRightIff`, `ClimbingSharesLock`). Tables of the remaining, firm
  paths are antichains (`FirmTableIsAntichain`).
* `pop` and `has_key` of the cache see expired entries (`AnswerRefines`, `PopSeesExpired`).
* A reservation of an account id lapses after an hour although its creation may still be under way (`GivenAgainIff`,
  `LateInsertClashes`).
* In the log cutter, the branch that restarts a report on a first line inside an open report (lines 334-338) is not
  reached, because the test before it accepts that line too (`HeadInsideIsBuffered`, `TwoHeadsOneReport`).

## Model

| member | source | states |
|---|---|---|
| `JobSafety.HandleLockInv` | src/middlewared/middlewared/job.py:198-209 | attaching a new job to the lock of its name, registered or freshly made, keeps the scheduler invariant: one lock per name, a lock lists exactly the jobs that have not released it, a lock is registered exactly while it lists a job |
| `JobSafety.AddInv` | src/middlewared/middlewared/job.py:154-193 | `add` keeps the invariant whether it accepts, merges, refuses, or the lock name cannot be computed |
| `JobSafety.EnqueueInv` | src/middlewared/middlewared/job.py:186-193 | appending to deque and queue keeps the invariant; unfinished jobs stay in the deque through eviction |
| `JobSafety.NextInv` | src/middlewared/middlewared/job.py:227-251 | taking a job keeps one holder per lock, and clearing the event leaves no runnable job in the queue |
| `JobSafety.StartInv` | src/middlewared/middlewared/job.py:598-615 | starting a taken job, aborted or not, keeps the invariant and trips no assertion of `set_state` |
| `JobSafety.EndMethodInv` | src/middlewared/middlewared/job.py:605-662 | the end of a method by return, exception or cancellation keeps the invariant |
| `JobSafety.FinishInv` | src/middlewared/middlewared/job.py:626-636 | releasing the lock and setting the finished event keeps the invariant; the lock was held and its registry entry exists when it is popped |
| `JobSafety.FinishLocks` | src/middlewared/middlewared/job.py:211-225 | a release frees exactly its own lock, and drops the registry entry exactly when no job is left on it |
| `JobSafety.AbortInv` | src/middlewared/middlewared/job.py:578-586 | `abort` at any moment keeps the invariant |
| `JobSafety.ForgetInv` | src/middlewared/middlewared/job.py:634-636 | dropping a finished transient job from the deque keeps the invariant |
| `JobSafety.RunInv` | src/middlewared/middlewared/job.py:154-251 | the invariant holds after every interleaving of add, next, start, end of method, finish, abort and forget |
| `JobTheorems.NoInternalError` | src/middlewared/middlewared/job.py:211-225 | in no reachable state did a release of a free lock, a pop of a missing key or an assertion of `set_state` raise |
| `JobTheorems.OneLockPerName` | src/middlewared/middlewared/job.py:198-251 | live jobs with one lock name share one lock object, the registered one, however often the name was dropped and remade, and at most one of them is between being taken and releasing |
| `JobTheorems.LockedIffHeld` | src/middlewared/middlewared/job.py:104-111 | a lock is locked exactly when a job between taking and releasing has it |
| `JobTheorems.NoLostWakeUp` | src/middlewared/middlewared/job.py:227-251 | while the event is clear, every queued job waits for a lock that another job holds |
| `JobTheorems.RunnableSetsEvent` | src/middlewared/middlewared/job.py:154-251 | after every step that leaves a runnable job in the queue the event is set |
| `JobTheorems.RunEvolves` | src/middlewared/middlewared/job.py:453-461 | over any run each job keeps request, lock and id, moves only forward through its phases, never loses its abort, start or finished flags, and only gains message ids |
| `JobTheorems.OneTerminalState` | src/middlewared/middlewared/job.py:453-461 | a terminal state and its finishing time never change again |
| `JobTheorems.FinishedMeansReleased` | src/middlewared/middlewared/job.py:626-632 | `time_finished` is set exactly in terminal states; once the finished event is set the state is terminal and no lock lists the job |
| `JobTheorems.AbortedWhileWaiting` | src/middlewared/middlewared/job.py:578-615 | a job aborted while waiting never enters its method in any continuation, and when finished it is ABORTED |
| `JobTheorems.TakenJobAdvances` | src/middlewared/middlewared/job.py:588-636 | the next step of a taken job is always enabled and moves it strictly towards finished |
| `JobProgress.FinishedAfterThree` | src/middlewared/middlewared/job.py:588-636 | over any run, whatever other jobs do in between, a taken job is finished once its task has taken three steps |
| `JobProgress.NeverStuck` | src/middlewared/middlewared/job.py:227-256 | while a job is live, the scheduling loop is awake or some taken job can take its next step |
| `JobProgress.EveryRunIsShort` | src/middlewared/middlewared/job.py:227-256 | left to itself the scheduler comes to rest: no run of its passes and of the steps of taken jobs, in any order and with any outcome, is longer than a bound given by the work at hand |
| `JobProgress.EveryRunFinishes` | src/middlewared/middlewared/job.py:227-256 | every such run that goes on until no step is left brings all live jobs to their end, within the bound |
| `JobProgress.AllCanFinish` | src/middlewared/middlewared/job.py:227-256 | there is such a run from every reachable state |
| `JobTheorems.RegisteredIff` | src/middlewared/middlewared/job.py:198-225 | a lock is registered exactly when a live job, or one that `add` turned away, has it |
| `JobTheorems.TurnedAwayPinsLock` | src/middlewared/middlewared/job.py:154-193 | the lock of a job that was refused or merged after `handle_lock` stays registered for ever |
| `JobProgress.MergeLeaksLock` | src/middlewared/middlewared/job.py:154-225 | a run of two requests on one name after which no job is live and the name is still registered |
| `JobTheorems.ZeroSizeRefused` | src/middlewared/middlewared/job.py:156-160 | with queue size 0 a job is refused exactly when some job on its lock is RUNNING; looking only in the deque misses none |
| `JobTheorems.MergedIntoNewest` | src/middlewared/middlewared/job.py:161-184 | with a size other than 0 a job is accepted exactly while fewer wait on its lock; otherwise it joins the newest queued job of its lock that its caller may join, and is refused exactly when there is none |
| `JobOutcome.NoSizeIsQueued` | src/middlewared/middlewared/job.py:154-193 | a job without a queue size is always queued and the scheduler woken |
| `JobOutcome.UserJoinsOwnJobs` | src/middlewared/middlewared/job.py:164-184 | a user who is not full administrator is merged only into a job of their own, and refused only when none of their own waits on the lock |
| `JobOutcome.OthersJoinAnyJob` | src/middlewared/middlewared/job.py:164-184 | a full administrator, a session of no user or an internal call joins the newest job that waits on the lock, and is refused only when none does |
| `JobOutcome.PassEvent` | src/middlewared/middlewared/job.py:227-251 | after a pass the event is set exactly when a job was taken and others wait |
| `JobOutcome.AllowedTransitions` | src/middlewared/middlewared/job.py:453-458 | the six state transitions that `set_state` allows |
| `JobOutcome.OutcomeStays` | src/middlewared/middlewared/job.py:605-662 | in every continuation a job is SUCCESS, FAILED or ABORTED exactly as its method returned, raised or was cancelled, with the time it ended |
| `JobOutcome.AbortedEventStays` | src/middlewared/middlewared/job.py:578-579 | `abort` sets the aborted event in every state, for good |
| `JobOutcome.NotAbortedRuns` | src/middlewared/middlewared/job.py:578-615 | a job that nobody aborts has no mark of it and has entered its method when it is finished |
| `JobOutcome.EvictsOldestFinished` | src/middlewared/middlewared/job.py:288-297 | only with more than maxlen jobs before it does a new job push one out, the oldest finished one if any; the others keep their order |
| `JobOutcome.ForgottenIff` | src/middlewared/middlewared/job.py:299-302 | apart from eviction a job leaves the deque exactly when it is finished, transient and removed |
| `JobOutcome.IdsCountAdmissions` | src/middlewared/middlewared/job.py:284-289 | the n-th admitted job has the id n |
| `JobTheorems.IdsAndEviction` | src/middlewared/middlewared/job.py:284-302 | ids grow strictly with admission, and an unfinished job is always in the deque |
| `JobTheorems.DequeBound` | src/middlewared/middlewared/job.py:288-297 | over any run the deque is never longer than the larger of maxlen + 1 and the peak number of unfinished jobs |
| `JobOrder.SameLockIffSameName` | src/middlewared/middlewared/job.py:198-209 | two jobs that have not released share a lock object exactly when their lock names are equal |
| `JobOrder.FirstComeFirstServed` | src/middlewared/middlewared/job.py:227-251 | per lock name, over any run, jobs taken followed by jobs queued are jobs queued at first followed by jobs admitted: no overtaking, no loss, no job taken twice |
| `JobOrder.AheadCountsReleases` | src/middlewared/middlewared/job.py:211-251 | while a job waits, each release of its lock brings it one place forward and nothing else does |
| `JobOrder.TakenAfterExactlyAhead` | src/middlewared/middlewared/job.py:211-251 | a job with n earlier live jobs on its lock is taken only after exactly n releases of that lock |
| `JobOrder.RunnableAfterAhead` | src/middlewared/middlewared/job.py:211-251 | and after n releases it is runnable, first of its lock in the queue |
| `JobOrder.AtMostSizeWait` | src/middlewared/middlewared/job.py:161-184 | if all requests of a lock name use one size k >= 1, at most k jobs of that name ever wait |
| `JobOrder.MessageIdsConserved` | src/middlewared/middlewared/job.py:178-193 | the multiplicity of a message id over all admitted jobs is what it was plus what was accepted |
| `JobOrder.AcceptedOnceAttachedOnce` | src/middlewared/middlewared/job.py:178-193 | a message id accepted once in a run is on exactly one job, new or merged |
| `JobModel.FirstFinished` | src/middlewared/middlewared/job.py:288-297 | the evicted job is the oldest finished one: everything older is unfinished |
| `JobModel.FirstRunnable` | src/middlewared/middlewared/job.py:227-251 | the scan stops at the first runnable job: everything before it waits for a held lock |
| `JobsQueueObject.JobsQueue.constructor` | src/middlewared/middlewared/job.py:120-130 | a new queue is empty with a clear event |
| `JobsQueueObject.AnswerMeans` | src/middlewared/middlewared/job.py:154-193 | a caller is given a job that waits in the queue on the lock of their request and carries their message ids, or one of three errors, each in its own case, with the queue as it was |
| `JobsQueueObject.NoSizeIsAnswered` | src/middlewared/middlewared/job.py:156-193 | a request without a queue size is answered with its own new job |
| `JobsQueueObject.JobsQueue.HandleLock` | src/middlewared/middlewared/job.py:198-209 | in place: the new job and the lock, reused or created and registered |
| `JobsQueueObject.JobsQueue.DequeAdd` | src/middlewared/middlewared/job.py:288-297 | the deque loop drops at most one job, the oldest finished one, and only when over the limit; the new id is the next number |
| `JobsQueueObject.JobsQueue.AnyRunning` | src/middlewared/middlewared/job.py:157-160 | the scan of the deque answers whether a RUNNING job has the lock |
| `JobsQueueObject.JobsQueue.QueuedOn` | src/middlewared/middlewared/job.py:161-163 | the loop collects the queued jobs of the lock in queue order |
| `JobsQueueObject.JobsQueue.MergeTarget` | src/middlewared/middlewared/job.py:164-178 | the backward loop finds the newest queued job the caller may merge with |
| `JobsQueueObject.JobsQueue.Admit` | src/middlewared/middlewared/job.py:156-184 | accept, merge or refuse as the queue size rules say |
| `JobsQueueObject.JobsQueue.Append` | src/middlewared/middlewared/job.py:186-193 | an accepted job gets the next id, joins deque and queue, and the event is set |
| `JobsQueueObject.JobsQueue.Merge` | src/middlewared/middlewared/job.py:178-182 | the merge target gains the message ids and nothing else changes |
| `JobsQueueObject.JobsQueue.Add` | src/middlewared/middlewared/job.py:154-193 | the state and the answer of `add` for every request, the failing lock name included |
| `JobsQueueObject.JobsQueue.Next` | src/middlewared/middlewared/job.py:227-251 | one pass takes a job exactly when one is runnable, otherwise clears the event |
| `JobsQueueObject.JobsQueue.Take` | src/middlewared/middlewared/job.py:235-248 | in place: the lock of the found job is acquired and the job leaves the queue |
| `JobsQueueObject.JobsQueue.Pass` | src/middlewared/middlewared/job.py:227-251 | a pass keeps the invariant and takes exactly the job that it gives back off the queue |
| `JobsQueueObject.JobsQueue.Schedule` | src/middlewared/middlewared/job.py:227-256 | repeated passes come to a suspension, and there no queued job could run |
| `JobsQueueObject.JobsQueue.MoveOn` | src/middlewared/middlewared/job.py:598-617 | in place: the state and phase that a job's task goes on to |
| `JobsQueueObject.JobsQueue.Start` | src/middlewared/middlewared/job.py:598-615 | in place, the start of a job's task |
| `JobsQueueObject.JobsQueue.EndMethod` | src/middlewared/middlewared/job.py:605-662 | in place, the end of a job's method |
| `JobsQueueObject.JobsQueue.SetState` | src/middlewared/middlewared/job.py:453-461 | the assertions, the new state and the finishing time |
| `JobsQueueObject.JobsQueue.ReleaseLock` | src/middlewared/middlewared/job.py:211-225 | lock, registry and event after a release |
| `JobsQueueObject.JobsQueue.Finish` | src/middlewared/middlewared/job.py:626-636 | after it the finished event is set and no lock lists the job |
| `JobsQueueObject.JobsQueue.Abort` | src/middlewared/middlewared/job.py:578-586 | in place, `abort` |
| `JobCallbacks.RunsOnceIff` | src/middlewared/middlewared/job.py:889-901 | a registered callback runs once exactly when it comes after the job's own call, or before it and is not replaced; otherwise never |
| `JobCallbacks.CallIsOverIff` | src/middlewared/middlewared/job.py:894-901 | the job's own call is over at once if there was nothing to call, and otherwise exactly when the callback has returned |
| `JobCallbacks.SingleRegistrationRunsOnce` | src/middlewared/middlewared/job.py:889-901 | the only callback of a job runs exactly once, registered before or after the finish |
| `JobCallbacks.FirstOfTwoIsLost` | src/middlewared/middlewared/main.py:1118-1129 | when two callers of one merged job register before it finishes, the first callback never runs |
| `JobCallbacks.JobCallback.constructor` | src/middlewared/middlewared/job.py:377-378 | no callback, none called |
| `JobCallbacks.JobCallback.SetOnFinishCb` | src/middlewared/middlewared/job.py:889-892 | registration, with the immediate call once the job has made its own |
| `JobCallbacks.JobCallback.JobCallsOnFinishCb` | src/middlewared/middlewared/job.py:894-899 | the job's call up to its suspension |
| `JobCallbacks.JobCallback.CallbackReturned` | src/middlewared/middlewared/job.py:901 | the flag set after the call |
| `ProgressBuffer.SubmitInv` | src/middlewared/middlewared/job.py:921-942 | a submission, sent or held back, keeps the throttling invariant |
| `ProgressBuffer.EmitInv` | src/middlewared/middlewared/job.py:957-963 | sending the held body keeps the invariant when the interval has passed or `flush` sends |
| `ProgressBuffer.RunInv` | src/middlewared/middlewared/job.py:911-963 | the invariant holds after every run of submissions, timer callbacks, cancels and flushes |
| `ProgressBuffer.Throttled` | src/middlewared/middlewared/job.py:911-963 | sends are a subsequence of submissions; each not made by `flush` comes at least an interval after the previous one; the latest submission is delivered, held under an armed timer, or was cancelled |
| `ProgressBuffer.NothingLostWithoutCancel` | src/middlewared/middlewared/job.py:911-963 | without `cancel` the latest submission is delivered or its timer will deliver it |
| `ProgressBuffer.TimerSends` | src/middlewared/middlewared/job.py:957-963 | a timer that fires sends the latest submission and leaves nothing held |
| `ProgressBuffer.SentAtOnceIff` | src/middlewared/middlewared/job.py:927-942 | a submission is sent at once exactly when an interval has passed since the last send; otherwise it replaces the one held, and an armed timer is not moved |
| `ProgressBuffer.FirstSentIff` | src/middlewared/middlewared/job.py:916-937 | the first submission is sent at once exactly when the clock shows an interval |
| `ProgressBuffer.TimerStands` | src/middlewared/middlewared/job.py:938-942 | any number of submissions leaves an armed timer as it is until something is sent |
| `ProgressBuffer.FlushSends` | src/middlewared/middlewared/job.py:951-963 | `flush` sends what is held at once, and does nothing otherwise |
| `ProgressBuffer.CancelledIsNeverSent` | src/middlewared/middlewared/job.py:944-949 | what `cancel` drops is sent in no continuation |
| `ProgressBuffer.JobProgressBuffer.constructor` | src/middlewared/middlewared/job.py:911-919 | a new buffer holds nothing |
| `ProgressBuffer.JobProgressBuffer.SetProgress` | src/middlewared/middlewared/job.py:921-942 | in place, a submission |
| `ProgressBuffer.JobProgressBuffer.Cancel` | src/middlewared/middlewared/job.py:944-949 | in place, dropping the held body and its timer |
| `ProgressBuffer.JobProgressBuffer.Flush` | src/middlewared/middlewared/job.py:951-955 | in place, sending the held body at once |
| `ProgressBuffer.JobProgressBuffer.TimerFires` | src/middlewared/middlewared/job.py:957-963 | the timer callback delivers the latest submission; its assertion cannot fail |
| `Dlm.BeginInv` | src/middlewared/middlewared/plugins/dlm.py:229-275 | starting a join or leave from rest establishes the phase invariant, with the old members plus or minus the node as target |
| `Dlm.ActJoinInv` | src/middlewared/middlewared/plugins/dlm.py:160-198 | each kernel call of the join phase keeps the invariant |
| `Dlm.ActLeaveInv` | src/middlewared/middlewared/plugins/dlm.py:201-226 | each kernel call of the leave phase keeps the invariant |
| `Dlm.ActInv` | src/middlewared/middlewared/plugins/dlm_/kernel.py:137-200 | each kernel call of any phase keeps the invariant, the target and the set of nodes |
| `Dlm.AdvanceInv` | src/middlewared/middlewared/plugins/dlm.py:229-275 | passing from one gather to the next keeps the invariant and the target |
| `Dlm.RunningNodesAgree` | src/middlewared/middlewared/plugins/dlm.py:131-275 | at every moment of any number of joins and leaves, under any order inside each gather, two running nodes hold the same members |
| `Dlm.MembersAddOnlyJoiner` | src/middlewared/middlewared/plugins/dlm.py:160-198 | in every run a node that is a member already adds only the joiner |
| `Dlm.ZeroIsNoMember` | src/middlewared/middlewared/plugins/dlm.py:114-128 | the members asked for are the present nodes whose id is truthy |
| `Dlm.CompletedOperation` | src/middlewared/middlewared/plugins/dlm.py:229-275 | at completion every member runs with exactly the old members plus the joiner, or minus the leaver, and everyone else is out |
| `Dlm.JoinThenLeaveRestores` | src/middlewared/middlewared/plugins/dlm.py:229-275 | a join followed by a leave of the same node restores the state of every node |
| `Dlm.ActShrinks` | src/middlewared/middlewared/plugins/dlm.py:160-226 | every kernel call brings its phase closer to the end |
| `Dlm.Lockspace.KernelCall` | src/middlewared/middlewared/plugins/dlm.py:131-226 | one call in place keeps agreement, target and phase, and makes progress |
| `Dlm.Lockspace.Gather` | src/middlewared/middlewared/plugins/dlm.py:229-275 | a gather ends, in whatever order it makes its calls, and no moment of it breaks agreement |
| `Dlm.Lockspace.Begin` | src/middlewared/middlewared/plugins/dlm.py:114-128 | the members asked for at the start are those whose lockspace is present |
| `Dlm.Lockspace.EndGather` | src/middlewared/middlewared/plugins/dlm.py:229-275 | in place, passing to the next phase |
| `Dlm.Lockspace.Phase` | src/middlewared/middlewared/plugins/dlm.py:229-275 | a phase with its gather keeps target and agreement and is followed by the next phase of the operation |
| `Dlm.Lockspace.JoinLockspace` | src/middlewared/middlewared/plugins/dlm.py:229-249 | the whole join: the final state of every node, and agreement at every moment on the way |
| `Dlm.Lockspace.LeaveLockspace` | src/middlewared/middlewared/plugins/dlm.py:252-275 | the whole leave: the final state of every node, and agreement at every moment on the way |
| `RoleGraph.Sound` | src/middlewared/middlewared/role.py:364-379 | every role in the answer of `roles_for_role` is reached by a walk along includes that pass the STIG check |
| `RoleGraph.Complete` | src/middlewared/middlewared/role.py:364-379 | every role reached by such a walk is in the answer |
| `RoleGraph.StigCheckMeans` | src/middlewared/middlewared/role.py:346-362 | a role passes exactly without a STIG, or when it has STIG settings of its own and one of them is enabled |
| `RoleGraph.RolesForRoleMeaning` | src/middlewared/middlewared/role.py:346-379 | the recursion, when it returns, answers exactly the reachability relation along includes that are available on their own STIG settings |
| `RoleGraph.AnswerUnderStig` | src/middlewared/middlewared/role.py:346-379 | under a STIG everything granted besides the role itself is available on its own settings, and a full administrator is granted exactly that |
| `RoleGraph.NoKeyError` | src/middlewared/middlewared/role.py:353-357 | if every role included by a known role is known, or no STIG is set, the STIG check raises no `KeyError` |
| `RoleGraph.UnknownIncludeRaises` | src/middlewared/middlewared/role.py:357-379 | under a STIG a role that includes an unknown one has no answer |
| `RoleGraph.ReturnsIffAcyclic` | src/middlewared/middlewared/role.py:364-379 | with no cycle in reach a depth beyond the number of roles suffices; with one in reach no recursion limit does |
| `RoleGraph.SelfIncludeNeverReturns` | src/middlewared/middlewared/role.py:64 | a role that includes itself has no answer at any recursion limit |
| `RoleGraph.RolesAbove` | src/middlewared/middlewared/role.py:312-325 | the fixpoint loop terminates, with exactly the roles that reach the seed through includes, whatever the iteration order |
| `RoleGraph.Pass` | src/middlewared/middlewared/role.py:317-323 | a round adds a role that reaches the seed, or there is none left to add |
| `RoleGraph.UpMeetsDown` | src/middlewared/middlewared/role.py:312-379 | without STIG the downward closure of a role meets a seed exactly when the upward closure of the seed has the role, or the role reaches a full administrator and the seed is not empty |
| `RoleManager.RolesError` | src/middlewared/middlewared/role.py:300-305 | no objection exactly when every role is known and none is a read role on a writing resource |
| `RoleManager.BlacklistMeans` | src/middlewared/middlewared/role.py:272-276 | the refusal concerns exactly roles named `..._READ` and resources that end in one of six writing verbs |
| `RoleManager.FirstObjection` | src/middlewared/middlewared/role.py:300-305 | the error says what the first refused role is refused for |
| `RoleManager.AddRolesMeans` | src/middlewared/middlewared/role.py:296-310 | all roles are added, in order, exactly when the resource is known and all may be granted it; otherwise nothing changes |
| `RoleManager.RegisterMeans` | src/middlewared/middlewared/role.py:287-294 | when a registration is refused and for what, that an accepted one adds all its roles, and what a refused one leaves behind |
| `RoleManager.RolesAreThoseGiven` | src/middlewared/middlewared/role.py:287-310 | after any run of registrations a resource has exactly the roles that accepted calls gave it |
| `RoleManager.AppendAllEffect` | src/middlewared/middlewared/role.py:309-310 | appending adds exactly one entry per listed role and nothing else |
| `RoleManager.ApplyInv` | src/middlewared/middlewared/role.py:287-310 | every registration, accepted or refused, keeps allowlists and resource lists in step |
| `RoleManager.RegisteredConsistent` | src/middlewared/middlewared/role.py:287-310 | after any registrations both managers are in step |
| `RoleManager.CollectedIff` | src/middlewared/middlewared/role.py:392-395 | a method or event is collected for a set of roles exactly when one of them is among its own |
| `RoleManager.AllowlistMatchesRoles` | src/middlewared/middlewared/role.py:381-407 | without STIG a method or event is on the allowlist of a role that is not itself full administrator exactly when the role list of the resource has the role, or the role reaches a full administrator and the resource has roles |
| `RoleManager.AllowlistIffListed` | src/middlewared/middlewared/role.py:287-407 | after any run of registrations, with no cycle and no full administrator in reach, allowlist and role list describe the same relation, for methods and for events |
| `RoleManager.AdminBelowIsNotListed` | src/middlewared/middlewared/role.py:381-395 | a table and a registration where a role that includes a full administrator is allowed a method whose role list does not have it |
| `RoleManager.AdminAllowlist` | src/middlewared/middlewared/role.py:381-390 | a full administrator is allowed everything without a STIG, and under one exactly the methods and events with a role available under it |
| `RoleManager.StigRestricts` | src/middlewared/middlewared/role.py:346-395 | what a role, a full administrator included, may do under a STIG it may do without |
| `RoleManager.ResourceManager.constructor` | src/middlewared/middlewared/role.py:280-285 | a new manager knows no resource |
| `RoleManager.ResourceManager.RegisterResource` | src/middlewared/middlewared/role.py:287-294 | in place: registration, and the state left behind when it raises |
| `RoleManager.ResourceManager.AddRolesToResource` | src/middlewared/middlewared/role.py:296-310 | in place: nothing changes when a role is refused |
| `RoleManager.ResourceManager.CheckRoles` | src/middlewared/middlewared/role.py:300-305 | the loop reports the first objection |
| `RoleManager.ResourceManager.RolesForResource` | src/middlewared/middlewared/role.py:312-328 | the listed roles are exactly those that reach an atomic role of the resource |
| `SyncLocks.TryEnterInv` | src/middlewared/middlewared/plugins/cloud_sync.py:465-488 | one pass of a wait loop keeps counters equal to holders, a writer alone, and all waiters blocked |
| `SyncLocks.LeaveInv` | src/middlewared/middlewared/plugins/cloud_sync.py:474-496 | leaving, with the notification it sends or omits, keeps the same |
| `SyncLocks.RunInv` | src/middlewared/middlewared/plugins/cloud_sync.py:1067-1087 | the same over every interleaving of threads taking a local lock and then a remote one |
| `SyncLocks.WriterIsAlone` | src/middlewared/middlewared/plugins/cloud_sync.py:455-496 | a lock held for writing has no other holder |
| `SyncLocks.WaitersAreBlocked` | src/middlewared/middlewared/plugins/cloud_sync.py:468-496 | a waiting thread has a holder that blocks it: no waiter whose guard became true was left unnotified |
| `SyncLocks.NotifiesWhenEmpty` | src/middlewared/middlewared/plugins/cloud_sync.py:474-494 | leaving notifies exactly when it leaves the lock empty, and so free in both directions |
| `SyncLocks.NoDeadlock` | src/middlewared/middlewared/plugins/cloud_sync.py:1067-1087 | while a thread is inside `_sync`, some thread inside can take a step |
| `SyncLocks.SyncRWLock.constructor` | src/middlewared/middlewared/plugins/cloud_sync.py:457-463 | a new lock has nobody inside |
| `SyncLocks.SyncRWLock.TryEnter` | src/middlewared/middlewared/plugins/cloud_sync.py:465-488 | enters exactly when the guard allows it |
| `SyncLocks.SyncRWLock.Exit` | src/middlewared/middlewared/plugins/cloud_sync.py:474-496 | counters, notification and removal on the way out |
| `FsLocks.CommonParts` | src/middlewared/middlewared/plugins/cloud_sync.py:507 | the common prefix of two paths is one of them exactly when that one is a prefix of the other |
| `FsLocks.MatchesMeans` | src/middlewared/middlewared/plugins/cloud_sync.py:507 | the `commonpath` test holds exactly when one path spells a beginning of the other and is neither `.` nor written with two leading slashes |
| `FsLocks.AboveMeans` | src/middlewared/middlewared/plugins/cloud_sync.py:505 | the ancestor order used here: one normalised path is at or above another exactly when the place it names is, from whatever directory both are followed |
| `FsLocks.TestIsRightIff` | src/middlewared/middlewared/plugins/cloud_sync.py:507 | for two plain paths the test tells whether one is an ancestor of the other exactly when both begin with equally many `..`, or both consist of `..` only, or neither does |
| `FsLocks.FirstMatch` | src/middlewared/middlewared/plugins/cloud_sync.py:506-508 | the first key in dictionary order that matches |
| `FsLocks.LockInv` | src/middlewared/middlewared/plugins/cloud_sync.py:503-513 | a request leaves no key that passes the test against another, and the firm keys an antichain in the ancestor order: a key above another is `.`, consists of `..` only, or has two leading slashes; lock objects stay distinct |
| `FsLocks.RemoveInv` | src/middlewared/middlewared/plugins/cloud_sync.py:529-530 | a removal keeps the same |
| `FsLocks.FirmTableIsAntichain` | src/middlewared/middlewared/plugins/cloud_sync.py:503-530 | in every run that locks only firm paths (not `.`, not only `..`, no two leading slashes) no key is an ancestor of another |
| `FsLocks.AboveAnotherIff` | src/middlewared/middlewared/plugins/cloud_sync.py:503-513 | a normalised path can be locked together with one below it, in some run, exactly when it is not firm |
| `FsLocks.TwoSlashesBreakAntichain` | src/middlewared/middlewared/plugins/cloud_sync.py:505-510 | `//a` and `//a/b` are locked at the same time |
| `FsLocks.ClimbingBreaksAntichain` | src/middlewared/middlewared/plugins/cloud_sync.py:1082 | the remote keys `..` and `5/x`, for the folders `../..` and `x` of credential 5, are locked at the same time |
| `FsLocks.ClimbingSharesLock` | src/middlewared/middlewared/plugins/cloud_sync.py:503-508 | a run after which `..` gets the lock of `../../x`, neither being an ancestor of the other |
| `FsLocks.BelowAKeyGetsIt` | src/middlewared/middlewared/plugins/cloud_sync.py:503-530 | in every reachable table a request at or below a plain key that begins with as many `..`, in particular any firm key, matches that key alone and gets its lock; at or below any other key it does so exactly when it is the plain spelling of the same path, or both consist of `..` only, and that key matches first |
| `FsLocks.SeveralLieBelow` | src/middlewared/middlewared/plugins/cloud_sync.py:503-513 | a request that matches several keys spells a beginning of all; it lies above each that begins with no more `..`, hence above all if it is firm |
| `FsLocks.OrderMattersIff` | src/middlewared/middlewared/plugins/cloud_sync.py:506-508 | the dictionary order can change the lock chosen exactly when the request matches two keys |
| `FsLocks.ParentDependsOnOrder` | src/middlewared/middlewared/plugins/cloud_sync.py:506-508 | a run after which `/a` gets the lock of `/a/b` or of `/a/c`, whichever comes first |
| `FsLocks.SamePathSameLockIff` | src/middlewared/middlewared/plugins/cloud_sync.py:503-513 | asking again for a locked path gives the same lock exactly when the path is neither `.` nor written with two leading slashes |
| `FsLocks.SlashesLockedAnew` | src/middlewared/middlewared/plugins/cloud_sync.py:503-513 | a run after which `//a` is locked and asking for it gives another lock |
| `FsLocks.RemoveMeans` | src/middlewared/middlewared/plugins/cloud_sync.py:529-530 | removing a path takes out its entry alone and keeps the order of the others; removing one that is not there does nothing |
| `FsLocks.LockThenRemoveRestores` | src/middlewared/middlewared/plugins/cloud_sync.py:510-530 | locking a path that matches nothing and removing it restores the table |
| `FsLocks.FsLockManager.constructor` | src/middlewared/middlewared/plugins/cloud_sync.py:500-501 | a new table is empty |
| `FsLocks.FsLockManager.Find` | src/middlewared/middlewared/plugins/cloud_sync.py:506-508 | the loop finds the first match |
| `FsLocks.FsLockManager.Lock` | src/middlewared/middlewared/plugins/cloud_sync.py:503-513 | in place: table and lock handed out, with the invariant of `LockInv` kept |
| `FsLocks.FsLockManager.AddLock` | src/middlewared/middlewared/plugins/cloud_sync.py:510-513 | in place: the new lock and its entry when nothing matches |
| `FsLocks.FsLockManager.RemoveLock` | src/middlewared/middlewared/plugins/cloud_sync.py:529-530 | in place: the entry is gone, with the invariant of `LockInv` kept |
| `LogCutter.ParseIsSegmentation` | src/middlewared/middlewared/plugins/cloud_sync.py:316-365 | every text splits into single lines and progress reports |
| `LogCutter.SegmentationIsUnique` | src/middlewared/middlewared/plugins/cloud_sync.py:316-365 | in one way only, so "the n-th complete report" is well defined |
| `LogCutter.OutputIsThinned` | src/middlewared/middlewared/plugins/cloud_sync.py:316-371 | from any state with an open report buffered, the rest of the output is the thinned text of buffer and rest |
| `LogCutter.CutterThins` | src/middlewared/middlewared/plugins/cloud_sync.py:310-371 | over any text followed by `flush`, the output is the input in order with whole complete reports deleted, the n-th kept exactly when n is a multiple of the interval |
| `LogCutter.EveryTextIsSegmented` | src/middlewared/middlewared/plugins/cloud_sync.py:310-371 | and this covers every text |
| `LogCutter.IntervalOneKeepsAll` | src/middlewared/middlewared/plugins/cloud_sync.py:310-371 | with interval 1 nothing is deleted |
| `LogCutter.HeadInsideIsBuffered` | src/middlewared/middlewared/plugins/cloud_sync.py:325-338 | a first line inside an open report is buffered like any other; the branch that would start again is not reached |
| `LogCutter.TwoHeadsOneReport` | src/middlewared/middlewared/plugins/cloud_sync.py:316-365 | two first lines and a blank one are a single report |
| `LogCutter.BlankMeans` | src/middlewared/middlewared/plugins/cloud_sync.py:322 | a line ends a report exactly when it consists of newlines |
| `LogCutter.RcloneVerboseLogCutter.constructor` | src/middlewared/middlewared/plugins/cloud_sync.py:310-314 | nothing buffered, no report seen |
| `LogCutter.RcloneVerboseLogCutter.Notify` | src/middlewared/middlewared/plugins/cloud_sync.py:316-365 | in place: state and text returned for one line |
| `LogCutter.RcloneVerboseLogCutter.Flush` | src/middlewared/middlewared/plugins/cloud_sync.py:367-371 | returns what is buffered |
| `LogCutter.RcloneVerboseLogCutter.CopyLog` | src/middlewared/middlewared/plugins/cloud_sync.py:374-416 | the log written by the reading loop is the thinned text |
| `Syslog.DrainInv` | src/middlewared/middlewared/logger.py:222-242 | draining keeps sent, lost and pending apart and in order, and reports success exactly when nothing is left |
| `Syslog.EmitInv` | src/middlewared/middlewared/logger.py:265-285 | `emit` does too, for every pattern of failures |
| `Syslog.NothingLostUnbounded` | src/middlewared/middlewared/logger.py:222-285 | with an unbounded queue delivered followed by pending is submitted |
| `Syslog.BoundedFate` | src/middlewared/middlewared/logger.py:222-285 | with bound m pending is the last records, at most m; delivery is in order and once each; every other record is delivered or lost, never both |
| `Syslog.LostIffFull` | src/middlewared/middlewared/logger.py:265-285 | a record is lost exactly when a new one cannot be sent and finds the queue full, and then it is the oldest pending one |
| `Syslog.FallsBackIff` | src/middlewared/middlewared/logger.py:272-285 | the fallback handler gets exactly the records that are not sent when they come |
| `Syslog.RecoveryDelivers` | src/middlewared/middlewared/logger.py:222-285 | once syslog works again the next record brings out everything waiting and itself |
| `Syslog.TNSyslogHandler.constructor` | src/middlewared/middlewared/logger.py:218-220 | nothing submitted, nothing pending |
| `Syslog.TNSyslogHandler.DrainPendingQueue` | src/middlewared/middlewared/logger.py:222-242 | in place: the loop, and its answer |
| `Syslog.TNSyslogHandler.Append` | src/middlewared/middlewared/logger.py:265-285 | the bounded deque drops its oldest entry when full |
| `Syslog.TNSyslogHandler.Emit` | src/middlewared/middlewared/logger.py:265-285 | in place: one record |
| `Cache.StepRefines` | src/middlewared/middlewared/plugins/cache.py:47-159 | every operation keeps the lazily purged store a refinement of an eagerly purging timed map |
| `Cache.AnswerRefines` | src/middlewared/middlewared/plugins/cache.py:37-145 | `get` and `get_or_put` answer as the eager map; `pop` and `has_key` do so exactly when no expired entry of the key lies in the store |
| `Cache.PopSeesExpired` | src/middlewared/middlewared/plugins/cache.py:37-107 | a value that has expired for `get` and is still found by `has_key` and `pop` |
| `Cache.CleanedAnswers` | src/middlewared/middlewared/plugins/cache.py:147-159 | a clean-up deletes exactly what has expired, and right after it every operation answers as the eager map |
| `Cache.GetForgetsExpired` | src/middlewared/middlewared/plugins/cache.py:60-62 | after a `get` of a key `pop` and `has_key` of it answer as the eager map |
| `Cache.RunRefines` | src/middlewared/middlewared/plugins/cache.py:47-159 | over every run on a monotone clock all answers of `get` and `get_or_put` are those of the eager map |
| `Cache.LooksChangeNothing` | src/middlewared/middlewared/plugins/cache.py:47-64 | inserting any number of `cleanup_expired` calls and `get`s into a run changes no other answer |
| `Cache.ProperOnPositiveClock` | src/middlewared/middlewared/plugins/cache.py:66-79 | on a positive clock with timeouts that are not negative no deadline falls on the value that means none |
| `Cache.KVCache.constructor` | src/middlewared/middlewared/plugins/cache.py:25-35 | a new store is empty |
| `Cache.KVCache.Get` | src/middlewared/middlewared/plugins/cache.py:47-64 | in place: an expired entry is deleted and reported missing |
| `Cache.KVCache.HasKey` | src/middlewared/middlewared/plugins/cache.py:37-45 | whether the key is stored, expired or not |
| `Cache.KVCache.Put` | src/middlewared/middlewared/plugins/cache.py:66-79 | in place: value and deadline |
| `Cache.KVCache.Pop` | src/middlewared/middlewared/plugins/cache.py:81-107 | in place: removed and returned even if expired |
| `Cache.KVCache.GetOrPut` | src/middlewared/middlewared/plugins/cache.py:118-145 | in place: the live value, or the one made |
| `Cache.KVCache.CleanupExpired` | src/middlewared/middlewared/plugins/cache.py:147-159 | the two loops delete exactly the expired entries |
| `Xids.NextXid` | src/middlewared/middlewared/plugins/account.py:1262-1284 | the choice made from gaps and maximum is the least free id at or above 3000 |
| `Xids.ReserveInv` | src/middlewared/middlewared/plugins/account.py:2247-2271 | reserving keeps ids held by creations distinct from each other and from stored ones |
| `Xids.InsertInv` | src/middlewared/middlewared/plugins/account.py:718-740 | storing within the life of the reservation keeps it, and the id was not stored before |
| `Xids.ReleaseInv` | src/middlewared/middlewared/plugins/account.py:738-740 | releasing after storing keeps it |
| `Xids.NoClash` | src/middlewared/middlewared/plugins/account.py:688-740 | however creations interleave, as long as each stores and releases within the life of its reservation, no two get one id and none gets a stored one |
| `Xids.ReservesLeastFree` | src/middlewared/middlewared/plugins/account.py:1262-1284 | the id reserved is the least one neither stored nor reserved at that moment |
| `Xids.HoldsForAnHour` | src/middlewared/middlewared/utils/reserved_ids.py:5-24 | a reservation keeps its id taken for exactly 3600 seconds |
| `Xids.ReleasedAtTheEnd` | src/middlewared/middlewared/plugins/account.py:718-740 | a creation that is through, stored or failed, leaves no reservation; one that is given up leaves it |
| `Xids.GivenAgainIff` | src/middlewared/middlewared/utils/reserved_ids.py:12-30 | an id still held by one creation is given to another exactly when it is free in store and reservations, swept or not, and all lower ids are taken; that is only after the hour of the first |
| `Xids.LateInsertClashes` | src/middlewared/middlewared/utils/reserved_ids.py:5 | two creations, the second an hour and a second after the first, store the same id |
| `Xids.ReservedXid.constructor` | src/middlewared/middlewared/utils/reserved_ids.py:8-10 | no reservation |
| `Xids.ReservedXid.Available` | src/middlewared/middlewared/utils/reserved_ids.py:12-20 | available exactly when no reservation holds; a lapsed one is dropped |
| `Xids.ReservedXid.AddEntry` | src/middlewared/middlewared/utils/reserved_ids.py:22-24 | in place: a reservation for an hour |
| `Xids.ReservedXid.RemoveEntry` | src/middlewared/middlewared/utils/reserved_ids.py:26-27 | in place: removal, also of nothing |
| `Xids.ReservedXid.InUseNow` | src/middlewared/middlewared/utils/reserved_ids.py:29-30 | the loop returns exactly the reservations that hold and drops the others |
| `Sessions.InvalidForGood` | src/middlewared/middlewared/auth.py:114-128 | once a user credential is invalid, no later use makes it valid |
| `Sessions.NeverOutlivesMaximumAge` | src/middlewared/middlewared/auth.py:80-128 | a valid session is never older than the maximum age of its assurance level |
| `Sessions.SteadyUseIsValid` | src/middlewared/middlewared/auth.py:114-128 | used at gaps below the limit, a session is valid exactly until its age or the inactivity after the last use runs out |
| `Sessions.ValidFromLogin` | src/middlewared/middlewared/auth.py:80-128 | from the login on, in steady use: valid exactly within the maximum age and the inactivity limit of the level, within the age alone where there is no limit, and always without a level |
| `Sessions.LoginAdds` | src/middlewared/middlewared/auth.py:80-93 | a login adds one credential, valid as its level says; the peer node's is always valid |
| `Sessions.Root` | src/middlewared/middlewared/plugins/auth.py:144-152 | the walk to the root ends, at a credential that is not a token session |
| `Sessions.StepFlat` | src/middlewared/middlewared/plugins/auth.py:73-89 | every login, token creation, authentication and use keeps token parents from being token sessions |
| `Sessions.RootIsParent` | src/middlewared/middlewared/plugins/auth.py:73-152 | in every run each token's parent is not a token session, root lookup returns that parent, and a session's root is the root of its token |
| `Sessions.CreatedToken` | src/middlewared/middlewared/plugins/auth.py:73-89 | a token hangs on the caller's credential, or its root if that is a token session, and is valid for exactly its lifetime |
| `Sessions.TokenLoginOpens` | src/middlewared/middlewared/auth.py:215-239 | a login with a token makes a session on that token and its root, not valid yet |
| `Sessions.ValidNeedsPam` | src/middlewared/middlewared/auth.py:241-261 | in every run a token session that is valid was agreed to by PAM |
| `Sessions.PamSuffices` | src/middlewared/middlewared/auth.py:241-261 | once PAM has agreed the session is valid exactly while root and token are |
| `Sessions.NeverOutlivesRoot` | src/middlewared/middlewared/auth.py:252-261 | once its root is invalid a token session is invalid, for good and whatever happens |
| `Sessions.LapsedForGood` | src/middlewared/middlewared/plugins/auth.py:207-217 | a token that has lapsed is renewed by nothing: it stays as it is in every run of logins, token creations, messages and logouts |
| `Sessions.SessionInvalidForGood` | src/middlewared/middlewared/plugins/auth.py:207-217 | a session found invalid, by age, inactivity, its root or its token, is invalid for good in every run |
| `Sessions.MessageRenews` | src/middlewared/middlewared/plugins/auth.py:207-217 | a message of a valid session is a use of its credential, or of its root and its token, and changes nothing else |
| `Sessions.LoggedOut` | src/middlewared/middlewared/plugins/auth.py:189-217 | a session that is closed or found invalid is logged out until it is opened again, and no other session is touched |
| `Sessions.OpenedWith` | src/middlewared/middlewared/plugins/auth.py:160-180 | a session has the credential it was opened with |
| `Sessions.UserSessionManagerCredentials.constructor` | src/middlewared/middlewared/auth.py:80-93 | expiry and inactivity from the assurance level, neither without one |
| `Sessions.UserSessionManagerCredentials.NotifyUsed` | src/middlewared/middlewared/auth.py:114-118 | in place; an invalid credential stays invalid |
| `Sessions.UserSessionManagerCredentials.IsValid` | src/middlewared/middlewared/auth.py:120-128 | valid exactly within age and inactivity |
| `Sessions.RootCredentials` | src/middlewared/middlewared/plugins/auth.py:144-152 | the loop terminates on every chain of tokens and returns the root |
| `Sessions.TokenManager.constructor` | src/middlewared/middlewared/plugins/auth.py:70-71 | no token is known |
| `Sessions.TokenManager.Create` | src/middlewared/middlewared/plugins/auth.py:73-89 | in place: the new token hangs on a credential that is not a token session, and the invariant is kept |
| `Sessions.TokenManager.Get` | src/middlewared/middlewared/plugins/auth.py:91-106 | in place: returned exactly when known, valid and asked for from its origin; dropped exactly when expired |
| `Sessions.SessionManager.constructor` | src/middlewared/middlewared/plugins/auth.py:156-158 | no session is open |
| `Sessions.SessionManager.Login` | src/middlewared/middlewared/plugins/auth.py:160-180 | in place: the session is opened or gets other credentials, and the invariant is kept |
| `Sessions.SessionManager.Logout` | src/middlewared/middlewared/plugins/auth.py:189-205 | in place: the session is closed, also when there was none |
| `Sessions.SessionManager.AppOnMessage` | src/middlewared/middlewared/plugins/auth.py:207-217 | the session stays logged in exactly when its credential is valid; otherwise it is closed and nothing is marked used |

## Left out

- `JobsQueue.receive` and `JobsDeque.receive`, which take over jobs from the other node with their ids.
- Job logs, pipes, events, result encoding, credential access checks and descriptions: input and output, or thin
  predicates. They are taken not to raise.
- Cancellation of the future of a running method is one of the three ways the method may end.
- Jobs and locks as heap objects: the classes hold them in sequences, so aliasing is equality of positions.
- RoleGraph.ReturnsIffAcyclic: Python's recursion limit is a parameter `depth`; the answer is proved for limits above the
  number of roles.
- RoleManager.AllowlistIffListed: membership in the allowlist, not the order or repetition of entries across roles, which
  depends on the iteration order of a set; the same holds for the sorting of `roles_for_resource`.
- LogCutter.CutterThins: the regular expressions are arbitrary predicates, of which the first line's is contained in the
  one for progress lines; interval 0, on which the source divides by zero, is excluded.
- FsLocks.AboveMeans: paths are in the normal form that `normpath` returns; its text processing and symbolic links are
  not modelled, and all paths of one manager are absolute or all are relative.
- Exclusion between overlapping paths across the whole lock manager: an entry goes when its last holder leaves, even if
  threads still wait for it. `SyncLocks` proves exclusion per lock object.
- The handler without a pending queue, and what the fallback handler of the syslog handler does with a record.
- ProgressBuffer.Throttled: the timer fires no earlier than it is due, and the buffer is used from one thread.
- Dlm.RunningNodesAgree: one operation at a time, connected peers, and no failing or timed-out kernel call; the reset and
  peer-down paths of `dlm.py` are not modelled.
- Xids.NoClash: ids chosen by the caller, and ids of builtin accounts, which the allocator does not look at.
- Sessions.SessionInvalidForGood: one reading of the clock serves all tests of `is_valid`, and a later one all updates of
  `notify_used`. A session that PAM was not asked about yet is not covered.
- RoleManager.StigRestricts: an allowlist permits what it lists, and everything if it has the full administrator's entry;
  other wildcards in entries are not interpreted.
- PAM, SCRAM and one-time passwords, `destroy` and `destroy_by_session_id` of the token manager, and origin matching,
  whose outcome is a parameter of `Get`.
- `main.py` beyond the registration of callbacks, `apps`, `etc.py`, `failover.py`, `pipewatcher.c`, migrations and the
  other plugins: plumbing over the operating system, the datastore and external tools, or only easy members.
