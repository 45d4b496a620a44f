/**
 The job scheduler: the queue with its per-name shared locks, its wake-up event and its bounded,
 id-assigning deque, and the life cycle of the jobs that pass through it.

 Every function below is one stretch of code between two suspension points of the event loop. Job and
 lock objects are references: a job is its position in `Sys.jobs`, a lock its position in `Sys.locks`,
 so two jobs share a lock object exactly when their `lock` fields are equal.
 */
module JobModel {
  import opened Prelude

  datatype State = Waiting | Running | Success | Failed | Aborted

  predicate Terminal(st: State) {
    st.Success? || st.Failed? || st.Aborted?
  }

  /** What evaluating the `lock` option of a job yields. */
  datatype LockName = NoLock | Named(name: string) | NameError

  datatype Credential = Credential(userSession: bool, fullAdmin: bool, username: string)

  datatype Request = Request(lockName: LockName, queueSize: Option<int>, creds: Option<Credential>,
                             messageIds: seq<string>, transient: bool)

  /** Where a job stands: in the queue, taken off it, running its method, closing logs and pipes,
      finished; or turned away by `add`. */
  datatype Phase = Queued | Taken | InMethod | Closing | Finished | TurnedAway

  datatype Job = Job(req: Request, lock: Option<nat>, messageIds: seq<string>, id: Option<nat>, state: State,
                     aborted: bool, abortedEvent: bool, started: bool, timeFinished: Option<int>,
                     finishedEvent: bool, phase: Phase)

  datatype SharedLock = SharedLock(name: string, jobs: set<nat>, locked: bool)

  /** `crashed` records that an assertion, a release of a free lock or a pop of a missing key raised. */
  datatype Sys = Sys(jobs: seq<Job>, locks: seq<SharedLock>, registry: map<string, nat>, queue: seq<nat>,
                     deque: seq<nat>, count: nat, event: bool, maxlen: nat, crashed: bool)

  function Init(maxlen: nat): Sys {
    Sys([], [], map[], [], [], 0, false, maxlen, false)
  }

  /** Every reference points at an existing job or lock. */
  predicate Refs(s: Sys) {
    && (forall j :: 0 <= j < |s.jobs| && s.jobs[j].lock.Some? ==> s.jobs[j].lock.value < |s.locks|)
    && (forall i :: 0 <= i < |s.queue| ==> s.queue[i] < |s.jobs|)
    && (forall i :: 0 <= i < |s.deque| ==> s.deque[i] < |s.jobs|)
    && (forall n :: n in s.registry ==> s.registry[n] < |s.locks|)
  }

  // ----- adding a job

  function NewJob(req: Request, lock: Option<nat>): Job {
    Job(req, lock, req.messageIds, None, Waiting, false, false, false, None, false, TurnedAway)
  }

  /** Create the job object and attach the lock of its name, making that lock when the registry lacks it. */
  function HandleLock(s: Sys, req: Request): (s': Sys)
    requires Refs(s) && !req.lockName.NameError?
    ensures Refs(s')
  {
    match req.lockName
    case Named(n) =>
      var l := if n in s.registry then s.registry[n] else |s.locks|;
      var locks := if n in s.registry then s.locks else s.locks + [SharedLock(n, {}, false)];
      s.(jobs := s.jobs + [NewJob(req, Some(l))],
         locks := locks[l := locks[l].(jobs := locks[l].jobs + {|s.jobs|})],
         registry := s.registry[n := l])
    case _ =>
      s.(jobs := s.jobs + [NewJob(req, None)])
  }

  predicate LimitedToOwnJobs(c: Option<Credential>) {
    c.Some? && c.value.userSession && !c.value.fullAdmin
  }

  predicate MayMerge(mine: Option<Credential>, queued: Option<Credential>) {
    || !LimitedToOwnJobs(mine)
    || (queued.Some? && queued.value.userSession && mine.value.username == queued.value.username)
  }

  /** The queued jobs holding the given lock reference, in queue order. */
  function OnLock(jobs: seq<Job>, q: seq<nat>, lock: Option<nat>): (r: seq<nat>)
    requires forall i :: 0 <= i < |q| ==> q[i] < |jobs|
    ensures forall i :: 0 <= i < |r| ==> r[i] in q && r[i] < |jobs| && jobs[r[i]].lock == lock
  {
    if q == [] then []
    else
      var rest := OnLock(jobs, q[..|q| - 1], lock);
      if jobs[q[|q| - 1]].lock == lock then rest + [q[|q| - 1]] else rest
  }

  function LastMergeable(jobs: seq<Job>, q: seq<nat>, mine: Option<Credential>): (r: Option<nat>)
    requires forall i :: 0 <= i < |q| ==> q[i] < |jobs|
    ensures r.Some? ==> r.value in q
  {
    if q == [] then None
    else if MayMerge(mine, jobs[q[|q| - 1]].req.creds) then Some(q[|q| - 1])
    else LastMergeable(jobs, q[..|q| - 1], mine)
  }

  datatype Verdict = Accept | MergeInto(job: nat) | Busy | BusyOtherUser

  predicate RunningOnLock(s: Sys, lock: Option<nat>)
    requires Refs(s)
  {
    exists i :: 0 <= i < |s.deque| && s.jobs[s.deque[i]].state.Running? && s.jobs[s.deque[i]].lock == lock
  }

  function Admission(s: Sys, j: nat): (v: Verdict)
    requires Refs(s) && j < |s.jobs|
    ensures v.MergeInto? ==> v.job in s.queue && s.jobs[v.job].lock == s.jobs[j].lock
  {
    match s.jobs[j].req.queueSize
    case None => Accept
    case Some(size) =>
      if size == 0 then
        if RunningOnLock(s, s.jobs[j].lock) then Busy else Accept
      else
        var queued := OnLock(s.jobs, s.queue, s.jobs[j].lock);
        if |queued| < size then Accept
        else
          match LastMergeable(s.jobs, queued, s.jobs[j].req.creds)
          case Some(q) => MergeInto(q)
          case None => BusyOtherUser
  }

  /** Position of the oldest finished job of the deque, or its length. */
  function FirstFinished(jobs: seq<Job>, d: seq<nat>): (i: nat)
    requires forall k :: 0 <= k < |d| ==> d[k] < |jobs|
    ensures i <= |d|
    ensures i < |d| ==> Terminal(jobs[d[i]].state)
    ensures forall k :: 0 <= k < i ==> !Terminal(jobs[d[k]].state)
  {
    if d == [] then 0
    else if Terminal(jobs[d[0]].state) then 0
    else
      assert forall k :: 0 <= k < |d[1..]| ==> d[1..][k] == d[k + 1];
      1 + FirstFinished(jobs, d[1..])
  }

  function Evict(s: Sys): (d: seq<nat>)
    requires Refs(s)
    ensures forall x :: x in d ==> x in s.deque
  {
    var i := FirstFinished(s.jobs, s.deque);
    if |s.deque| > s.maxlen && i < |s.deque| then RemoveAt(s.deque, i) else s.deque
  }

  function Enqueue(s: Sys, j: nat): (s': Sys)
    requires Refs(s) && j < |s.jobs|
    ensures Refs(s')
  {
    s.(jobs := s.jobs[j := s.jobs[j].(id := Some(s.count + 1), phase := Queued)],
       count := s.count + 1,
       deque := Evict(s) + [j],
       queue := s.queue + [j],
       event := true)
  }

  function Add(s: Sys, req: Request): (s': Sys)
    requires Refs(s)
    ensures Refs(s')
  {
    if req.lockName.NameError? then s
    else
      var s1 := HandleLock(s, req);
      var j := |s.jobs|;
      match Admission(s1, j)
      case Accept => Enqueue(s1, j)
      case MergeInto(q) =>
        s1.(jobs := s1.jobs[q := s1.jobs[q].(messageIds := s1.jobs[q].messageIds + req.messageIds)])
      case _ => s1
  }

  // ----- taking the next job

  predicate Runnable(s: Sys, j: nat)
    requires Refs(s) && j < |s.jobs|
  {
    s.jobs[j].lock.None? || !s.locks[s.jobs[j].lock.value].locked
  }

  /** Position of the first runnable job at or after position `i` of the queue, or the queue's length. */
  function FirstRunnable(s: Sys, i: nat): (r: nat)
    requires Refs(s) && i <= |s.queue|
    ensures i <= r <= |s.queue|
    ensures r < |s.queue| ==> Runnable(s, s.queue[r])
    ensures forall k :: i <= k < r ==> !Runnable(s, s.queue[k])
    decreases |s.queue| - i
  {
    if i == |s.queue| || Runnable(s, s.queue[i]) then i else FirstRunnable(s, i + 1)
  }

  function Acquire(s: Sys, lock: Option<nat>): seq<SharedLock>
    requires lock.Some? ==> lock.value < |s.locks|
  {
    if lock.Some? then s.locks[lock.value := s.locks[lock.value].(locked := true)] else s.locks
  }

  function Next(s: Sys): (s': Sys)
    requires Refs(s)
    ensures Refs(s')
  {
    if !s.event then s
    else
      var i := FirstRunnable(s, 0);
      if i == |s.queue| then s.(event := false)
      else
        var j := s.queue[i];
        s.(locks := Acquire(s, s.jobs[j].lock),
           jobs := s.jobs[j := s.jobs[j].(phase := Taken)],
           queue := RemoveAt(s.queue, i),
           event := |s.queue| > 1)
  }

  // ----- running a job

  /** The assertions of `set_state`. */
  predicate MaySet(from: State, to: State) {
    && (from.Waiting? ==> !to.Waiting? && !to.Success?)
    && (from.Running? ==> !to.Waiting? && !to.Running?)
    && !Terminal(from)
  }

  /** The job after `set_state`, or as it was if that raises. */
  function WithState(job: Job, st: State, now: int): Job {
    if MaySet(job.state, st) then
      job.(state := st, timeFinished := if Terminal(st) then Some(now) else job.timeFinished)
    else job
  }

  function SetState(s: Sys, j: nat, st: State, now: int): (s': Sys)
    requires Refs(s) && j < |s.jobs|
    ensures Refs(s')
  {
    if !MaySet(s.jobs[j].state, st) then s.(crashed := true)
    else s.(jobs := s.jobs[j := WithState(s.jobs[j], st, now)])
  }

  /** The job's task sets its state and goes on to the next phase. */
  function Move(s: Sys, j: nat, st: State, now: int, ph: Phase, started: bool): (s': Sys)
    requires Refs(s) && j < |s.jobs|
    ensures Refs(s')
  {
    s.(jobs := s.jobs[j := WithState(s.jobs[j], st, now).(phase := ph, started := started)],
       crashed := s.crashed || !MaySet(s.jobs[j].state, st))
  }

  /** A taken job starts: an aborted job is cancelled on the spot, any other enters its method. */
  function Start(s: Sys, j: nat, now: int): (s': Sys)
    requires Refs(s) && j < |s.jobs|
    ensures Refs(s')
  {
    if s.jobs[j].aborted then Move(s, j, Aborted, now, Closing, false)
    else Move(s, j, Running, now, InMethod, true)
  }

  /** How the method ends: it returns, raises, or is cancelled (or raises `JobCancelledException`). */
  datatype Outcome = Returned | Raised | Cancelled

  function FinalState(o: Outcome): State {
    match o
    case Returned => Success
    case Raised => Failed
    case Cancelled => Aborted
  }

  function EndMethod(s: Sys, j: nat, o: Outcome, now: int): (s': Sys)
    requires Refs(s) && j < |s.jobs|
    ensures Refs(s')
  {
    Move(s, j, FinalState(o), now, Closing, s.jobs[j].started)
  }

  function ReleaseLock(s: Sys, j: nat): (s': Sys)
    requires Refs(s) && j < |s.jobs|
    ensures Refs(s')
  {
    if s.jobs[j].lock.None? then s
    else
      var l := s.jobs[j].lock.value;
      var lock := s.locks[l];
      var rest := lock.jobs - {j};
      if !lock.locked || (rest == {} && lock.name !in s.registry) then s.(crashed := true)
      else
        s.(locks := s.locks[l := lock.(jobs := rest, locked := false)],
           registry := if rest == {} then s.registry - {lock.name} else s.registry,
           event := true)
  }

  /** Logs and pipes are closed: release the lock, then set the finished event. */
  function Finish(s: Sys, j: nat): (s': Sys)
    requires Refs(s) && j < |s.jobs|
    ensures Refs(s')
  {
    var s1 := ReleaseLock(s, j);
    s1.(jobs := s1.jobs[j := s1.jobs[j].(finishedEvent := true, phase := Finished)])
  }

  function Abort(s: Sys, j: nat): (s': Sys)
    requires Refs(s) && j < |s.jobs|
    ensures Refs(s')
  {
    var job := s.jobs[j];
    s.(jobs := s.jobs[j := job.(abortedEvent := true,
                                aborted := job.aborted || (!job.started && job.state.Waiting?))])
  }

  /** A transient job leaves the deque once it is finished. */
  function Forget(s: Sys, j: nat): (s': Sys)
    requires Refs(s)
    ensures Refs(s')
  {
    var d := Without(s.deque, j);
    assert forall i :: 0 <= i < |d| ==> d[i] in s.deque;
    s.(deque := d)
  }

  // ----- interleavings

  /** `Add` may happen at any time; the others name the job whose task (or aborter) runs. */
  datatype Action =
    | DoAdd(req: Request)
    | DoNext
    | DoStart(job: nat, now: int)
    | DoEndMethod(job: nat, outcome: Outcome, now: int)
    | DoFinish(job: nat)
    | DoAbort(job: nat)
    | DoForget(job: nat)

  predicate Enabled(s: Sys, a: Action) {
    match a
    case DoAdd(_) => true
    case DoNext => s.event
    case DoStart(j, _) => j < |s.jobs| && s.jobs[j].phase.Taken?
    case DoEndMethod(j, _, _) => j < |s.jobs| && s.jobs[j].phase.InMethod?
    case DoFinish(j) => j < |s.jobs| && s.jobs[j].phase.Closing?
    case DoAbort(j) => j < |s.jobs|
    case DoForget(j) => j < |s.jobs| && s.jobs[j].phase.Finished? && s.jobs[j].req.transient
  }

  function Step(s: Sys, a: Action): (s': Sys)
    requires Refs(s)
    ensures Refs(s')
  {
    if !Enabled(s, a) then s
    else
      match a
      case DoAdd(req) => Add(s, req)
      case DoNext => Next(s)
      case DoStart(j, now) => Start(s, j, now)
      case DoEndMethod(j, o, now) => EndMethod(s, j, o, now)
      case DoFinish(j) => Finish(s, j)
      case DoAbort(j) => Abort(s, j)
      case DoForget(j) => Forget(s, j)
  }

  function Run(s: Sys, acts: seq<Action>): (s': Sys)
    requires Refs(s)
    ensures Refs(s')
    decreases |acts|
  {
    if acts == [] then s
    else
      Run(Step(s, acts[0]), acts[1..])
  }

  lemma {:induction false} RunConcat(s: Sys, a: seq<Action>, b: seq<Action>)
    requires Refs(s)
    ensures Run(s, a + b) == Run(Run(s, a), b)
    decreases |a|
  {
    if a == [] {
      assert a + b == b;
    } else {
      assert (a + b)[1..] == a[1..] + b;
      RunConcat(Step(s, a[0]), a[1..], b);
    }
  }

  lemma RunAppend(s: Sys, acts: seq<Action>, a: Action)
    requires Refs(s)
    ensures Run(s, acts + [a]) == Step(Run(s, acts), a)
  {
    RunConcat(s, acts, [a]);
    assert Run(Step(Run(s, acts), a), []) == Step(Run(s, acts), a);
  }
}
