/** Safety over whole runs of the scheduler, from the empty queue and under every interleaving. */
module JobTheorems {
  import opened Prelude
  import opened JobModel
  import opened JobSafety

  /** Some interleaving leads from the empty queue to `s`. */
  ghost predicate Reachable(s: Sys) {
    exists maxlen: nat, acts: seq<Action> :: s == Run(Init(maxlen), acts)
  }

  lemma InitInv(maxlen: nat)
    ensures Inv(Init(maxlen))
  {
  }

  lemma ReachableInv(s: Sys)
    requires Reachable(s)
    ensures Inv(s)
  {
    var maxlen: nat, acts: seq<Action> :| s == Run(Init(maxlen), acts);
    InitInv(maxlen);
    RunInv(Init(maxlen), acts);
  }

  /** No reachable step trips an assertion of `set_state`, releases a free lock or pops a missing registry key. */
  lemma NoInternalError(s: Sys)
    requires Reachable(s)
    ensures !s.crashed
  {
    ReachableInv(s);
  }

  /** Live jobs of one lock name share one lock object, the registered one, however often the name was dropped and
      remade; at most one of them is between being taken and releasing. */
  lemma OneLockPerName(s: Sys, j: nat, k: nat)
    requires Reachable(s)
    requires j < |s.jobs| && k < |s.jobs| && Live(s.jobs[j]) && Live(s.jobs[k])
    requires s.jobs[j].req.lockName.Named? && s.jobs[k].req.lockName == s.jobs[j].req.lockName
    ensures s.jobs[j].lock.Some? && s.jobs[k].lock == s.jobs[j].lock
    ensures Registers(s.registry, s.jobs[j].req.lockName.name, s.jobs[j].lock.value)
    ensures Holds(s.jobs[j]) && Holds(s.jobs[k]) ==> j == k
  {
    ReachableInv(s);
    var l, m := s.jobs[j].lock.value, s.jobs[k].lock.value;
    assert HasLock(s.jobs, j, l) && HasLock(s.jobs, k, m);
    assert Owes(s.jobs, j, l) && Owes(s.jobs, k, m);
    assert j in s.locks[l].jobs && k in s.locks[m].jobs;
    assert Holds(s.jobs[j]) && Holds(s.jobs[k]) ==> HolderOf(s.jobs, j, l) && HolderOf(s.jobs, k, l);
  }

  /** A lock is held exactly when some job between taking and releasing has it. */
  lemma LockedIffHeld(s: Sys, l: nat)
    requires Reachable(s) && l < |s.locks|
    ensures s.locks[l].locked <==> exists j: nat :: HolderOf(s.jobs, j, l)
  {
    ReachableInv(s);
  }

  /** While the wake-up event is clear, every queued job waits for a lock that somebody holds. */
  lemma NoLostWakeUp(s: Sys, j: nat)
    requires Reachable(s) && !s.event && j in s.queue
    ensures j < |s.jobs| && s.jobs[j].lock.Some?
    ensures exists k: nat :: k != j && HolderOf(s.jobs, k, s.jobs[j].lock.value)
  {
    ReachableInv(s);
    var i :| 0 <= i < |s.queue| && s.queue[i] == j;
    assert !Runnable(s, s.queue[i]);
    var l := s.jobs[j].lock.value;
    assert HasLock(s.jobs, j, l);
    assert s.locks[l].locked;
  }

  ghost predicate WaitsRunnable(s: Sys, j: nat)
    requires Refs(s)
  {
    j < |s.jobs| && j in s.queue && Runnable(s, j)
  }

  /** A step that makes a job runnable leaves the event set. */
  lemma RunnableSetsEvent(s: Sys, a: Action, j: nat)
    requires Reachable(s) && Refs(s) && WaitsRunnable(Step(s, a), j)
    ensures Step(s, a).event
  {
    ReachableInv(s);
    StepInv(s, a);
    var s1 := Step(s, a);
    var i :| 0 <= i < |s1.queue| && s1.queue[i] == j;
  }

  // ----- life cycle

  function Rank(p: Phase): nat {
    match p
    case Queued => 0
    case Taken => 1
    case InMethod => 2
    case Closing => 3
    case Finished => 4
    case TurnedAway => 5
  }

  /** How one job may change over time. */
  ghost predicate Evolves(a: Job, b: Job) {
    && b.req == a.req && b.lock == a.lock && (a.id.Some? ==> b.id == a.id)
    && Rank(a.phase) <= Rank(b.phase) && (a.phase.TurnedAway? <==> b.phase.TurnedAway?)
    && (a.aborted ==> b.aborted) && (a.abortedEvent ==> b.abortedEvent)
    && (a.started ==> b.started) && (a.finishedEvent ==> b.finishedEvent)
    && (Terminal(a.state) ==> b.state == a.state && b.timeFinished == a.timeFinished)
    && a.messageIds <= b.messageIds
  }

  ghost predicate AllEvolve(s: Sys, s': Sys) {
    && |s.jobs| <= |s'.jobs|
    && (forall j :: 0 <= j < |s.jobs| ==> Evolves(s.jobs[j], s'.jobs[j]))
  }

  lemma NewJobAdded(s: Sys, req: Request)
    requires Refs(s) && !req.lockName.NameError?
    ensures var s1 := HandleLock(s, req);
            |s1.jobs| == |s.jobs| + 1 && s1.jobs[..|s.jobs|] == s.jobs && s1.queue == s.queue
  {
  }

  /** What `add` does to the jobs after `handle_lock`, by its verdict. */
  ghost predicate JobsAfter(s1: Sys, j: nat, req: Request, v: Verdict, jobs: seq<Job>)
    requires j < |s1.jobs|
  {
    match v
    case Accept => jobs == s1.jobs[j := s1.jobs[j].(id := Some(s1.count + 1), phase := Queued)]
    case MergeInto(q) =>
      && q in s1.queue && q < j
      && jobs == s1.jobs[q := s1.jobs[q].(messageIds := s1.jobs[q].messageIds + req.messageIds)]
    case _ => jobs == s1.jobs
  }

  lemma AddJobs(s: Sys, req: Request)
    requires Refs(s) && !req.lockName.NameError?
    ensures var s1, j := HandleLock(s, req), |s.jobs|;
            && |s1.jobs| == j + 1 && s1.jobs[..j] == s.jobs && s1.queue == s.queue
            && JobsAfter(s1, j, req, Admission(s1, j), Add(s, req).jobs)
  {
    NewJobAdded(s, req);
    var s1 := HandleLock(s, req);
    var v := Admission(s1, |s.jobs|);
    if v.MergeInto? {
      var i :| 0 <= i < |s.queue| && s.queue[i] == v.job;
    }
  }

  /** The jobs present before an `add` keep everything but, for the merge target, a longer message id list. */
  lemma AddEvolves(s: Sys, req: Request)
    requires Refs(s)
    ensures AllEvolve(s, Add(s, req))
  {
    if !req.lockName.NameError? {
      AddJobs(s, req);
      var s1, j, s2 := HandleLock(s, req), |s.jobs|, Add(s, req);
      match Admission(s1, j)
      case MergeInto(q) =>
        assert s1.jobs[..j][q] == s1.jobs[q];
        NewerEvolves(s, s1.jobs, s2, q);
      case _ =>
        NewerEvolves(s, s1.jobs, s2, j);
    }
  }

  /** One job more, and one job changed. */
  lemma NewerEvolves(s: Sys, jobs: seq<Job>, s': Sys, k: nat)
    requires |jobs| == |s.jobs| + 1 == |s'.jobs| && jobs[..|s.jobs|] == s.jobs
    requires k < |jobs| && s'.jobs == jobs[k := s'.jobs[k]]
    requires k < |s.jobs| ==> Evolves(s.jobs[k], s'.jobs[k])
    ensures AllEvolve(s, s')
  {
    forall j | 0 <= j < |s.jobs|
      ensures Evolves(s.jobs[j], s'.jobs[j])
    {
      assert jobs[..|s.jobs|][j] == jobs[j];
    }
  }

  lemma OneEvolves(s: Sys, s': Sys, j: nat)
    requires j < |s.jobs| && |s'.jobs| == |s.jobs| && s'.jobs == s.jobs[j := s'.jobs[j]]
    requires Evolves(s.jobs[j], s'.jobs[j])
    ensures AllEvolve(s, s')
  {
  }

  lemma NextEvolves(s: Sys)
    requires Inv(s)
    ensures AllEvolve(s, Next(s))
  {
    var i := FirstRunnable(s, 0);
    if s.event && i < |s.queue| {
      assert s.queue[i] in s.queue;
      OneEvolves(s, Next(s), s.queue[i]);
    }
  }

  lemma StartEvolves(s: Sys, j: nat, now: int)
    requires Refs(s) && j < |s.jobs| && s.jobs[j].phase.Taken? && LifeOk(s.jobs[j])
    ensures AllEvolve(s, Start(s, j, now))
    ensures Rank(Taken) < Rank(Start(s, j, now).jobs[j].phase) <= Rank(Closing)
  {
    var s1 := Start(s, j, now);
    OneEvolves(s, s1, j);
  }

  lemma EndMethodEvolves(s: Sys, j: nat, o: Outcome, now: int)
    requires Refs(s) && j < |s.jobs| && s.jobs[j].phase.InMethod? && LifeOk(s.jobs[j])
    ensures AllEvolve(s, EndMethod(s, j, o, now)) && EndMethod(s, j, o, now).jobs[j].phase.Closing?
  {
    var s1 := EndMethod(s, j, o, now);
    OneEvolves(s, s1, j);
  }

  lemma FinishEvolves(s: Sys, j: nat)
    requires Inv(s) && j < |s.jobs| && s.jobs[j].phase.Closing?
    ensures AllEvolve(s, Finish(s, j)) && Finish(s, j).jobs[j].phase.Finished?
  {
    OneEvolves(s, Finish(s, j), j);
  }

  lemma StepEvolves(s: Sys, a: Action)
    requires Inv(s)
    ensures AllEvolve(s, Step(s, a))
  {
    if Enabled(s, a) {
      match a
      case DoAdd(req) => AddEvolves(s, req);
      case DoNext => NextEvolves(s);
      case DoStart(j, now) => assert LifeOk(s.jobs[j]); StartEvolves(s, j, now);
      case DoEndMethod(j, o, now) => assert LifeOk(s.jobs[j]); EndMethodEvolves(s, j, o, now);
      case DoFinish(j) => FinishEvolves(s, j);
      case DoAbort(j) => OneEvolves(s, Abort(s, j), j);
      case DoForget(_) =>
    }
  }

  lemma {:induction false} RunEvolves(s: Sys, acts: seq<Action>)
    requires Inv(s)
    ensures AllEvolve(s, Run(s, acts))
    decreases |acts|
  {
    if acts != [] {
      var s1 := Step(s, acts[0]);
      StepEvolves(s, acts[0]);
      StepInv(s, acts[0]);
      RunEvolves(s1, acts[1..]);
      var s2 := Run(s, acts);
      forall j | 0 <= j < |s.jobs|
        ensures Evolves(s.jobs[j], s2.jobs[j])
      {
        assert Evolves(s.jobs[j], s1.jobs[j]) && Evolves(s1.jobs[j], s2.jobs[j]);
      }
    }
  }

  /** Once a job is in a terminal state, that state and its finishing time never change. */
  lemma OneTerminalState(s: Sys, acts: seq<Action>, j: nat)
    requires Reachable(s) && Refs(s) && j < |s.jobs| && Terminal(s.jobs[j].state)
    ensures var s' := Run(s, acts);
            j < |s'.jobs| && s'.jobs[j].state == s.jobs[j].state && s'.jobs[j].timeFinished == s.jobs[j].timeFinished
  {
    ReachableInv(s);
    RunEvolves(s, acts);
  }

  /** `time_finished` is set exactly in terminal states, and by the time the finished event is set the job has a
      terminal state and its lock no longer lists it. */
  lemma FinishedMeansReleased(s: Sys, j: nat)
    requires Reachable(s) && j < |s.jobs|
    ensures s.jobs[j].timeFinished.Some? <==> Terminal(s.jobs[j].state)
    ensures s.jobs[j].finishedEvent ==> Terminal(s.jobs[j].state)
    ensures s.jobs[j].finishedEvent ==> forall l: nat :: l < |s.locks| ==> j !in s.locks[l].jobs
  {
    ReachableInv(s);
    assert LifeOk(s.jobs[j]);
    forall l: nat | l < |s.locks| && s.jobs[j].finishedEvent
      ensures j !in s.locks[l].jobs
    {
      assert !Owes(s.jobs, j, l);
    }
  }

  /** A job aborted while it waits, at whatever later time it is looked at, has not entered its method, and when it
      is finished its state is ABORTED. */
  lemma AbortedWhileWaiting(s: Sys, acts: seq<Action>, j: nat)
    requires Reachable(s) && Refs(s) && j < |s.jobs| && s.jobs[j].state.Waiting?
    ensures var s' := Run(Abort(s, j), acts);
            && j < |s'.jobs| && !s'.jobs[j].started
            && (s'.jobs[j].state.Waiting? || s'.jobs[j].state.Aborted?)
            && (s'.jobs[j].finishedEvent ==> s'.jobs[j].state.Aborted?)
  {
    ReachableInv(s);
    assert LifeOk(s.jobs[j]);
    AbortInv(s, j);
    RunEvolves(Abort(s, j), acts);
    RunInv(Abort(s, j), acts);
    assert LifeOk(Run(Abort(s, j), acts).jobs[j]);
  }

  /** The step that a taken job's own task takes next. */
  function OwnStep(job: Job, j: nat, o: Outcome, now: int): Action {
    match job.phase
    case Taken => DoStart(j, now)
    case InMethod => DoEndMethod(j, o, now)
    case _ => DoFinish(j)
  }

  /** A taken job is never stuck: its task's next step is enabled and moves it strictly forward. */
  lemma TakenJobAdvances(s: Sys, j: nat, o: Outcome, now: int)
    requires Refs(s) && j < |s.jobs| && Holds(s.jobs[j])
    ensures var a := OwnStep(s.jobs[j], j, o, now);
            && Enabled(s, a) && j < |Step(s, a).jobs|
            && Rank(s.jobs[j].phase) < Rank(Step(s, a).jobs[j].phase) <= Rank(Finished)
  {
    match s.jobs[j].phase
    case Taken => StartAdvances(s, j, now);
    case InMethod => EndMethodAdvances(s, j, o, now);
    case Closing => FinishAdvances(s, j);
  }

  lemma StartAdvances(s: Sys, j: nat, now: int)
    requires Refs(s) && j < |s.jobs| && s.jobs[j].phase.Taken?
    ensures var s1 := Step(s, DoStart(j, now));
            |s1.jobs| == |s.jobs| && s1.jobs[j].phase == if s.jobs[j].aborted then Closing else InMethod
  {
  }

  lemma EndMethodAdvances(s: Sys, j: nat, o: Outcome, now: int)
    requires Refs(s) && j < |s.jobs| && s.jobs[j].phase.InMethod?
    ensures var s1 := Step(s, DoEndMethod(j, o, now)); |s1.jobs| == |s.jobs| && s1.jobs[j].phase == Closing
  {
  }

  lemma FinishAdvances(s: Sys, j: nat)
    requires Refs(s) && j < |s.jobs| && s.jobs[j].phase.Closing?
    ensures var s1 := Step(s, DoFinish(j)); |s1.jobs| == |s.jobs| && s1.jobs[j].phase == Finished
  {
  }

  // ----- what keeps a lock registered

  /** A registered lock has a live job, or one that `add` turned away after `handle_lock`; and conversely. */
  lemma RegisteredIff(s: Sys, l: nat)
    requires Reachable(s) && l < |s.locks|
    ensures Registers(s.registry, s.locks[l].name, l)
       <==> exists j: nat :: HasLock(s.jobs, j, l) && (Live(s.jobs[j]) || s.jobs[j].phase.TurnedAway?)
  {
    ReachableInv(s);
    if s.locks[l].jobs != {} {
      var j :| j in s.locks[l].jobs;
      assert Owes(s.jobs, j, l);
    }
    if j: nat :| HasLock(s.jobs, j, l) && (Live(s.jobs[j]) || s.jobs[j].phase.TurnedAway?) {
      assert Owes(s.jobs, j, l);
    }
  }

  /** A turned-away job is never removed from its lock, so that lock stays registered for good. */
  lemma TurnedAwayPinsLock(s: Sys, acts: seq<Action>, j: nat)
    requires Reachable(s) && Refs(s) && j < |s.jobs| && s.jobs[j].phase.TurnedAway? && s.jobs[j].lock.Some?
    ensures var s' := Run(s, acts);
            && s.jobs[j].lock.value < |s'.locks|
            && Registers(s'.registry, s'.locks[s.jobs[j].lock.value].name, s.jobs[j].lock.value)
  {
    ReachableInv(s);
    RunEvolves(s, acts);
    RunInv(s, acts);
    var s' := Run(s, acts);
    var l := s.jobs[j].lock.value;
    assert Evolves(s.jobs[j], s'.jobs[j]);
    assert HasLock(s'.jobs, j, l) && Owes(s'.jobs, j, l);
    assert j in s'.locks[l].jobs;
  }

  // ----- admission with queue size zero, and the deque

  lemma RunningIsKept(s: Sys, k: nat)
    requires Reachable(s) && k < |s.jobs| && s.jobs[k].state.Running?
    ensures k in s.deque
  {
    ReachableInv(s);
    assert LifeOk(s.jobs[k]) && Admitted(s.jobs, k);
  }

  /** A size-zero job is refused exactly when some job with the same lock is RUNNING, in or out of the deque. */
  lemma ZeroSizeRefused(s: Sys, req: Request)
    requires Reachable(s) && Refs(s) && !req.lockName.NameError? && req.queueSize == Some(0)
    ensures var s1 := HandleLock(s, req);
            Admission(s1, |s.jobs|).Busy?
            <==> exists k: nat :: k < |s.jobs| && s.jobs[k].state.Running? && s.jobs[k].lock == s1.jobs[|s.jobs|].lock
  {
    var s1 := HandleLock(s, req);
    assert s1.deque == s.deque && forall k: nat :: k < |s.jobs| ==> s1.jobs[k] == s.jobs[k];
    var lock := s1.jobs[|s.jobs|].lock;
    if k: nat :| k < |s.jobs| && s.jobs[k].state.Running? && s.jobs[k].lock == lock {
      RunningIsKept(s, k);
      var i :| 0 <= i < |s.deque| && s.deque[i] == k;
      assert s1.jobs[s1.deque[i]] == s.jobs[k];
    }
    if RunningOnLock(s1, lock) {
      var i :| 0 <= i < |s1.deque| && s1.jobs[s1.deque[i]].state.Running? && s1.jobs[s1.deque[i]].lock == lock;
      assert s1.jobs[s1.deque[i]] == s.jobs[s.deque[i]];
    }
  }

  /** The caller may be merged into this queued job. */
  predicate Mergeable(jobs: seq<Job>, q: nat, lock: Option<nat>, mine: Option<Credential>)
    requires q < |jobs|
  {
    jobs[q].lock == lock && MayMerge(mine, jobs[q].req.creds)
  }

  /** Position `i` of `q` is the last with a job the caller may be merged into. */
  ghost predicate Newest(jobs: seq<Job>, q: seq<nat>, lock: Option<nat>, mine: Option<Credential>, i: nat)
    requires forall k :: 0 <= k < |q| ==> q[k] < |jobs|
  {
    && i < |q| && Mergeable(jobs, q[i], lock, mine)
    && forall k :: i < k < |q| ==> !Mergeable(jobs, q[k], lock, mine)
  }

  ghost predicate NoneMergeable(jobs: seq<Job>, q: seq<nat>, lock: Option<nat>, mine: Option<Credential>)
    requires forall k :: 0 <= k < |q| ==> q[k] < |jobs|
  {
    forall k :: 0 <= k < |q| ==> !Mergeable(jobs, q[k], lock, mine)
  }

  /** The last job of the queue is passed over when it is on another lock or belongs to somebody else. */
  lemma SkipLast(jobs: seq<Job>, q: seq<nat>, lock: Option<nat>, mine: Option<Credential>)
    requires q != [] && forall k :: 0 <= k < |q| ==> q[k] < |jobs|
    ensures var n := |q| - 1;
            LastMergeable(jobs, OnLock(jobs, q, lock), mine)
            == if Mergeable(jobs, q[n], lock, mine) then Some(q[n])
               else LastMergeable(jobs, OnLock(jobs, q[..n], lock), mine)
  {
    var rest := OnLock(jobs, q[..|q| - 1], lock);
    if jobs[q[|q| - 1]].lock == lock {
      assert (rest + [q[|q| - 1]])[..|rest|] == rest;
    }
  }

  /** A last job that cannot be joined changes neither the newest one that can nor the absence of any. */
  lemma SkippedLast(jobs: seq<Job>, q: seq<nat>, lock: Option<nat>, mine: Option<Credential>)
    requires q != [] && (forall k :: 0 <= k < |q| ==> q[k] < |jobs|) && !Mergeable(jobs, q[|q| - 1], lock, mine)
    ensures var r := q[..|q| - 1];
            && (NoneMergeable(jobs, r, lock, mine) ==> NoneMergeable(jobs, q, lock, mine))
            && forall i: nat :: Newest(jobs, r, lock, mine, i) ==> Newest(jobs, q, lock, mine, i) && q[i] == r[i]
  {
    var r := q[..|q| - 1];
    assert forall k :: 0 <= k < |r| ==> r[k] == q[k];
    forall i: nat | Newest(jobs, r, lock, mine, i)
      ensures Newest(jobs, q, lock, mine, i) && q[i] == r[i]
    {
      forall k | i < k < |q|
        ensures !Mergeable(jobs, q[k], lock, mine)
      {
        assert k < |r| ==> !Mergeable(jobs, r[k], lock, mine);
      }
    }
  }

  lemma {:induction false} NewestMergeable(jobs: seq<Job>, q: seq<nat>, lock: Option<nat>, mine: Option<Credential>)
    requires forall i :: 0 <= i < |q| ==> q[i] < |jobs|
    ensures match LastMergeable(jobs, OnLock(jobs, q, lock), mine)
            case None => NoneMergeable(jobs, q, lock, mine)
            case Some(x) => exists i: nat :: Newest(jobs, q, lock, mine, i) && q[i] == x
  {
    if q != [] {
      var n := |q| - 1;
      SkipLast(jobs, q, lock, mine);
      if Mergeable(jobs, q[n], lock, mine) {
        assert Newest(jobs, q, lock, mine, n);
      } else {
        NewestMergeable(jobs, q[..n], lock, mine);
        SkippedLast(jobs, q, lock, mine);
      }
    }
  }

  /** A job with a queue size other than 0 is accepted exactly while fewer jobs than that wait on its lock. Otherwise it
      is merged into the newest queued job of its lock that its caller may join, and refused exactly when there is
      none. */
  lemma MergedIntoNewest(s: Sys, j: nat, size: int)
    requires Refs(s) && j < |s.jobs| && s.jobs[j].req.queueSize == Some(size) && size != 0
    ensures var lock, mine := s.jobs[j].lock, s.jobs[j].req.creds;
            var full := |OnLock(s.jobs, s.queue, lock)| >= size;
            match Admission(s, j)
            case Accept => !full
            case Busy => false
            case BusyOtherUser => full && NoneMergeable(s.jobs, s.queue, lock, mine)
            case MergeInto(q) => full && exists i: nat :: Newest(s.jobs, s.queue, lock, mine, i) && s.queue[i] == q
  {
    NewestMergeable(s.jobs, s.queue, s.jobs[j].lock, s.jobs[j].req.creds);
  }

  /** Ids grow in order of admission, and an unfinished job is always in the deque. */
  lemma IdsAndEviction(s: Sys, j: nat, k: nat)
    requires Reachable(s) && j < k < |s.jobs| && Admitted(s.jobs, j) && Admitted(s.jobs, k)
    ensures s.jobs[j].id.Some? && s.jobs[k].id.Some? && s.jobs[j].id.value < s.jobs[k].id.value
    ensures !Terminal(s.jobs[j].state) ==> j in s.deque
  {
    ReachableInv(s);
  }

  ghost function Unfinished(s: Sys): set<nat> {
    set j: nat | j < |s.jobs| && Admitted(s.jobs, j) && !Terminal(s.jobs[j].state)
  }

  /** The largest number of unfinished jobs seen at any moment of a run. */
  ghost function Peak(s: Sys, acts: seq<Action>): (p: nat)
    requires Refs(s)
    decreases |acts|
  {
    if acts == [] then |Unfinished(s)|
    else Max(|Unfinished(s)|, Peak(Step(s, acts[0]), acts[1..]))
  }

  lemma StepDequeSize(s: Sys, a: Action)
    requires Inv(s)
    ensures |Step(s, a).deque| <= Max(|s.deque|, Max(s.maxlen + 1, |Unfinished(Step(s, a))|))
    ensures Step(s, a).maxlen == s.maxlen
  {
    if a.DoAdd? && !a.req.lockName.NameError? {
      AddDequeSize(s, a.req);
    }
  }

  lemma AddDequeSize(s: Sys, req: Request)
    requires Inv(s) && !req.lockName.NameError?
    ensures |Add(s, req).deque| <= Max(|s.deque|, Max(s.maxlen + 1, |Unfinished(Add(s, req))|))
    ensures Add(s, req).maxlen == s.maxlen
  {
    var s1 := HandleLock(s, req);
    if Admission(s1, |s.jobs|).Accept? {
      assert DequeOk(Add(s, req).jobs, Add(s, req).deque, Add(s, req).count) by {
        AddInv(s, req);
      }
      EnqueueDequeSize(s1, |s.jobs|);
    }
  }

  /** When nothing can be evicted, all of the deque is unfinished. */
  lemma EnqueueDequeSize(s: Sys, j: nat)
    requires Refs(s) && j < |s.jobs| && s.jobs[j].state.Waiting?
    requires var s1 := Enqueue(s, j); DequeOk(s1.jobs, s1.deque, s1.count)
    ensures |Enqueue(s, j).deque| <= Max(|s.deque|, Max(s.maxlen + 1, |Unfinished(Enqueue(s, j))|))
  {
    var s1 := Enqueue(s, j);
    if FirstFinished(s.jobs, s.deque) == |s.deque| > s.maxlen {
      assert s1.deque == s.deque + [j];
      forall i | 0 <= i < |s1.deque|
        ensures s1.deque[i] in Unfinished(s1)
      {
        assert s1.deque[i] in s1.deque;
        assert s1.jobs[s1.deque[i]].state == s.jobs[s1.deque[i]].state;
      }
      DistinctFits(s1.deque, Unfinished(s1));
    }
  }

  /** The deque never outgrows the larger of `maxlen + 1` and the peak number of unfinished jobs. */
  lemma {:induction false} DequeBound(maxlen: nat, acts: seq<Action>)
    ensures |Run(Init(maxlen), acts).deque| <= Max(maxlen + 1, Peak(Init(maxlen), acts))
  {
    InitInv(maxlen);
    DequeBoundFrom(Init(maxlen), acts);
  }

  lemma {:induction false} DequeBoundFrom(s: Sys, acts: seq<Action>)
    requires Inv(s)
    ensures |Run(s, acts).deque| <= Max(|s.deque|, Max(s.maxlen + 1, Peak(s, acts)))
    decreases |acts|
  {
    if acts != [] {
      StepInv(s, acts[0]);
      StepDequeSize(s, acts[0]);
      DequeBoundFrom(Step(s, acts[0]), acts[1..]);
    }
  }
}
