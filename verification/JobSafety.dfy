/**
 What every interleaving of the scheduler keeps: one lock object per name, one holder per lock, no lost
 wake-up, no unfinished job evicted, a well-behaved life cycle and no internal error.
 */
module JobSafety {
  import opened Prelude
  import opened JobModel

  /** The job was taken off the queue and has not released its lock yet. */
  predicate Holds(job: Job) {
    job.phase.Taken? || job.phase.InMethod? || job.phase.Closing?
  }

  /** Queued, or taken and not yet released. */
  predicate Live(job: Job) {
    job.phase.Queued? || Holds(job)
  }

  ghost predicate LifeOk(job: Job) {
    && (job.timeFinished.Some? <==> Terminal(job.state))
    && (job.finishedEvent <==> job.phase.Finished?)
    && match job.phase
       case InMethod => job.state.Running? && job.started && !job.aborted
       case Closing | Finished =>
         && Terminal(job.state)
         && (job.started <==> !job.aborted)
         && (job.aborted ==> job.state.Aborted?)
       case _ => job.state.Waiting? && !job.started
  }

  ghost predicate LivesOk(jobs: seq<Job>) {
    forall j :: 0 <= j < |jobs| ==> LifeOk(jobs[j])
  }

  ghost predicate QueueOk(jobs: seq<Job>, queue: seq<nat>) {
    && Distinct(queue)
    && (forall j: nat :: j in queue <==> j < |jobs| && jobs[j].phase.Queued?)
  }

  // ----- locks

  ghost predicate HasLock(jobs: seq<Job>, j: nat, l: nat) {
    j < |jobs| && jobs[j].lock == Some(l)
  }

  ghost predicate Owes(jobs: seq<Job>, j: nat, l: nat) {
    HasLock(jobs, j, l) && !jobs[j].phase.Finished?
  }

  ghost predicate HolderOf(jobs: seq<Job>, j: nat, l: nat) {
    HasLock(jobs, j, l) && Holds(jobs[j])
  }

  ghost predicate NamesOk(jobs: seq<Job>, locks: seq<SharedLock>) {
    && (forall j: nat, l: nat :: HasLock(jobs, j, l) ==> l < |locks| && jobs[j].req.lockName == Named(locks[l].name))
    && (forall j: nat :: j < |jobs| && jobs[j].lock.None? ==> jobs[j].req.lockName == NoLock)
  }

  /** A lock lists exactly the jobs that were given it and have not released it: live ones, and turned-away ones. */
  ghost predicate TrackedOk(jobs: seq<Job>, locks: seq<SharedLock>) {
    forall l: nat, j: nat :: l < |locks| ==> (j in locks[l].jobs <==> Owes(jobs, j, l))
  }

  ghost predicate Registers(registry: map<string, nat>, name: string, l: nat) {
    name in registry && registry[name] == l
  }

  /** A lock is registered, under its own name, exactly while it lists a job. */
  ghost predicate RegistryOk(locks: seq<SharedLock>, registry: map<string, nat>) {
    && (forall n :: n in registry ==> registry[n] < |locks| && locks[registry[n]].name == n)
    && (forall l: nat :: l < |locks| ==> (locks[l].jobs != {} <==> Registers(registry, locks[l].name, l)))
  }

  ghost predicate ExclusiveOk(jobs: seq<Job>, locks: seq<SharedLock>) {
    && (forall j: nat, k: nat, l: nat :: HolderOf(jobs, j, l) && HolderOf(jobs, k, l) ==> j == k)
    && (forall l: nat :: l < |locks| ==> (locks[l].locked <==> exists j: nat :: HolderOf(jobs, j, l)))
  }

  ghost predicate LocksOk(jobs: seq<Job>, locks: seq<SharedLock>, registry: map<string, nat>) {
    NamesOk(jobs, locks) && TrackedOk(jobs, locks) && RegistryOk(locks, registry) && ExclusiveOk(jobs, locks)
  }

  // ----- wake-up and deque

  ghost predicate WakeOk(s: Sys)
    requires Refs(s)
  {
    !s.event ==> forall i :: 0 <= i < |s.queue| ==> !Runnable(s, s.queue[i])
  }

  ghost predicate Admitted(jobs: seq<Job>, j: nat) {
    j < |jobs| && !jobs[j].phase.TurnedAway?
  }

  /** Admitted jobs have ids that grow with the order of admission, and the unfinished ones are all in the deque. */
  ghost predicate DequeOk(jobs: seq<Job>, deque: seq<nat>, count: nat) {
    && Increasing(deque)
    && (forall j: nat :: j in deque ==> Admitted(jobs, j))
    && (forall j: nat :: Admitted(jobs, j) ==> jobs[j].id.Some? && jobs[j].id.value <= count)
    && (forall j: nat :: Admitted(jobs, j) && !Terminal(jobs[j].state) ==> j in deque)
    && (forall j: nat, k: nat :: j < k && Admitted(jobs, j) && Admitted(jobs, k) ==>
          jobs[j].id.value < jobs[k].id.value)
  }

  ghost predicate Inv(s: Sys) {
    && !s.crashed && Refs(s)
    && LivesOk(s.jobs) && QueueOk(s.jobs, s.queue) && LocksOk(s.jobs, s.locks, s.registry)
    && WakeOk(s) && DequeOk(s.jobs, s.deque, s.count)
  }

  // ----- adding

  /** A new job joins lock `l`, which is either registered under the job's lock name or freshly made. */
  lemma NewLocks(jobs: seq<Job>, x: Job, locks: seq<SharedLock>, registry: map<string, nat>, l: nat)
    requires LocksOk(jobs, locks, registry)
    requires x.lock == Some(l) && x.phase.TurnedAway? && x.req.lockName.Named?
    requires var n := x.req.lockName.name;
             && (n in registry ==> l == registry[n])
             && (n !in registry ==> l + 1 == |locks| && locks[l] == SharedLock(n, {}, false))
    ensures var n := x.req.lockName.name;
            LocksOk(jobs + [x], locks[l := locks[l].(jobs := locks[l].jobs + {|jobs|})], registry[n := l])
  {
    var jobs', k := jobs + [x], |jobs|;
    var locks' := locks[l := locks[l].(jobs := locks[l].jobs + {k})];
    NewExclusive(jobs, x, locks, l);
    NewRegistered(locks, registry, x.req.lockName.name, l, k);
    assert forall j: nat, m: nat :: HasLock(jobs', j, m) <==> HasLock(jobs, j, m) || (j == k && m == l);
    assert forall j: nat, m: nat :: Owes(jobs', j, m) <==> Owes(jobs, j, m) || (j == k && m == l);
  }

  lemma NewRegistered(locks: seq<SharedLock>, registry: map<string, nat>, n: string, l: nat, k: nat)
    requires RegistryOk(locks, registry)
    requires (n in registry ==> l == registry[n])
    requires n !in registry ==> l + 1 == |locks| && locks[l] == SharedLock(n, {}, false)
    ensures RegistryOk(locks[l := locks[l].(jobs := locks[l].jobs + {k})], registry[n := l])
  {
    var locks' := locks[l := locks[l].(jobs := locks[l].jobs + {k})];
    assert k in locks'[l].jobs;
  }

  lemma NewExclusive(jobs: seq<Job>, x: Job, locks: seq<SharedLock>, l: nat)
    requires ExclusiveOk(jobs, locks) && x.phase.TurnedAway? && l < |locks|
    ensures ExclusiveOk(jobs + [x], locks[l := locks[l].(jobs := locks[l].jobs + {|jobs|})])
  {
    assert forall j: nat, m: nat :: HolderOf(jobs + [x], j, m) <==> HolderOf(jobs, j, m);
  }

  /** A freshly made lock, listing no job yet, disturbs nothing. */
  lemma FreshLock(jobs: seq<Job>, locks: seq<SharedLock>, registry: map<string, nat>, name: string)
    requires LocksOk(jobs, locks, registry) && name !in registry
    ensures LocksOk(jobs, locks + [SharedLock(name, {}, false)], registry)
  {
    assert forall j: nat :: !HasLock(jobs, j, |locks|);
  }

  lemma LocklessNew(jobs: seq<Job>, x: Job, locks: seq<SharedLock>, registry: map<string, nat>)
    requires LocksOk(jobs, locks, registry) && x.lock.None? && x.req.lockName.NoLock?
    ensures LocksOk(jobs + [x], locks, registry)
  {
    var jobs' := jobs + [x];
    assert forall j: nat, m: nat :: HasLock(jobs', j, m) <==> HasLock(jobs, j, m);
    assert forall j: nat, m: nat :: Owes(jobs', j, m) <==> Owes(jobs, j, m);
    assert forall j: nat, m: nat :: HolderOf(jobs', j, m) <==> HolderOf(jobs, j, m);
  }

  lemma HandleLockInv(s: Sys, req: Request)
    requires Inv(s) && !req.lockName.NameError?
    ensures Inv(HandleLock(s, req))
  {
    NewRest(s, req);
    NewWake(s, req);
    match req.lockName
    case Named(n) =>
      if n in s.registry {
        NewLocks(s.jobs, NewJob(req, Some(s.registry[n])), s.locks, s.registry, s.registry[n]);
      } else {
        FreshLock(s.jobs, s.locks, s.registry, n);
        NewLocks(s.jobs, NewJob(req, Some(|s.locks|)), s.locks + [SharedLock(n, {}, false)], s.registry, |s.locks|);
      }
    case _ =>
      LocklessNew(s.jobs, NewJob(req, None), s.locks, s.registry);
  }

  lemma NewRest(s: Sys, req: Request)
    requires Refs(s) && !req.lockName.NameError?
    requires QueueOk(s.jobs, s.queue) && DequeOk(s.jobs, s.deque, s.count)
    ensures var s1 := HandleLock(s, req);
            QueueOk(s1.jobs, s1.queue) && DequeOk(s1.jobs, s1.deque, s1.count)
  {
    var s1 := HandleLock(s, req);
    assert forall j: nat :: Admitted(s1.jobs, j) <==> Admitted(s.jobs, j);
  }

  lemma NewWake(s: Sys, req: Request)
    requires Refs(s) && !req.lockName.NameError? && WakeOk(s)
    ensures WakeOk(HandleLock(s, req))
  {
    var s1 := HandleLock(s, req);
    forall i | 0 <= i < |s1.queue| && !s1.event
      ensures !Runnable(s1, s1.queue[i])
    {
      assert !Runnable(s, s.queue[i]);
    }
  }

  lemma EvictOk(s: Sys)
    requires Refs(s) && Increasing(s.deque)
    ensures Increasing(Evict(s))
    ensures forall j: nat :: j < |s.jobs| && !Terminal(s.jobs[j].state) && j in s.deque ==> j in Evict(s)
  {
    var i := FirstFinished(s.jobs, s.deque);
    if |s.deque| > s.maxlen && i < |s.deque| {
      RemoveAtMembers(s.deque, i);
    }
  }

  lemma EnqueueDeque(s: Sys, j: nat)
    requires Refs(s) && j < |s.jobs| && s.jobs[j].phase.TurnedAway? && DequeOk(s.jobs, s.deque, s.count)
    requires forall k: nat :: Admitted(s.jobs, k) ==> k < j
    ensures var s1 := Enqueue(s, j); DequeOk(s1.jobs, s1.deque, s1.count)
  {
    var s1 := Enqueue(s, j);
    EvictOk(s);
    assert Increasing(Evict(s) + [j]) by {
      assert forall i :: 0 <= i < |Evict(s)| ==> Evict(s)[i] in s.deque;
    }
    assert forall k: nat :: Admitted(s1.jobs, k) <==> Admitted(s.jobs, k) || k == j;
    assert forall k: nat :: k in s1.deque <==> k in Evict(s) || k == j;
  }

  lemma EnqueueInv(s: Sys, j: nat)
    requires Inv(s) && j < |s.jobs| && s.jobs[j].phase.TurnedAway?
    requires forall k: nat :: Admitted(s.jobs, k) ==> k < j
    ensures Inv(Enqueue(s, j))
  {
    var s1 := Enqueue(s, j);
    EnqueueDeque(s, j);
    SameView(s.jobs, j, s1.jobs[j], s.locks, s.registry);
    assert QueueOk(s1.jobs, s1.queue);
    assert LifeOk(s.jobs[j]);
  }

  /** Changing a job without touching its lock, its hold on it or its debt to it keeps the lock invariant. */
  lemma SameView(jobs: seq<Job>, j: nat, x: Job, locks: seq<SharedLock>, registry: map<string, nat>)
    requires LocksOk(jobs, locks, registry) && j < |jobs|
    requires x.req == jobs[j].req && x.lock == jobs[j].lock && (Holds(x) <==> Holds(jobs[j]))
    requires x.phase.Finished? <==> jobs[j].phase.Finished?
    ensures LocksOk(jobs[j := x], locks, registry)
  {
    var jobs' := jobs[j := x];
    assert forall k: nat, l: nat :: HasLock(jobs', k, l) <==> HasLock(jobs, k, l);
    assert forall k: nat, l: nat :: Owes(jobs', k, l) <==> Owes(jobs, k, l);
    assert forall k: nat, l: nat :: HolderOf(jobs', k, l) <==> HolderOf(jobs, k, l);
  }

  /** `x` may replace job `a` without disturbing the queue, the locks or the deque. */
  ghost predicate Compatible(a: Job, x: Job) {
    && x.req == a.req && x.lock == a.lock && x.id == a.id
    && (Holds(a) <==> Holds(x)) && (a.phase.Queued? <==> x.phase.Queued?)
    && (a.phase.Finished? <==> x.phase.Finished?) && (a.phase.TurnedAway? <==> x.phase.TurnedAway?)
    && (Terminal(a.state) ==> Terminal(x.state))
    && LifeOk(x)
  }

  lemma UpdateInv(s: Sys, j: nat, x: Job)
    requires Inv(s) && j < |s.jobs| && Compatible(s.jobs[j], x)
    ensures Inv(s.(jobs := s.jobs[j := x]))
  {
    var s1 := s.(jobs := s.jobs[j := x]);
    SameView(s.jobs, j, x, s.locks, s.registry);
    assert QueueOk(s1.jobs, s1.queue);
    UpdateDeque(s.jobs, j, x, s.deque, s.count);
    assert WakeOk(s1);
  }

  lemma UpdateDeque(jobs: seq<Job>, j: nat, x: Job, deque: seq<nat>, count: nat)
    requires DequeOk(jobs, deque, count) && j < |jobs| && x.id == jobs[j].id
    requires x.phase.TurnedAway? <==> jobs[j].phase.TurnedAway?
    requires Terminal(jobs[j].state) ==> Terminal(x.state)
    ensures DequeOk(jobs[j := x], deque, count)
  {
    assert forall k: nat :: Admitted(jobs[j := x], k) <==> Admitted(jobs, k);
  }

  lemma AddInv(s: Sys, req: Request)
    requires Inv(s)
    ensures Inv(Add(s, req))
  {
    if !req.lockName.NameError? {
      HandleLockInv(s, req);
      var s1 := HandleLock(s, req);
      var j := |s.jobs|;
      match Admission(s1, j)
      case Accept => EnqueueInv(s1, j);
      case MergeInto(q) =>
        var x := s1.jobs[q].(messageIds := s1.jobs[q].messageIds + req.messageIds);
        assert LifeOk(s1.jobs[q]);
        UpdateInv(s1, q, x);
      case _ =>
    }
  }

  // ----- taking, running, finishing

  lemma TakeLocks(jobs: seq<Job>, j: nat, x: Job, locks: seq<SharedLock>, locks': seq<SharedLock>,
                  registry: map<string, nat>)
    requires LocksOk(jobs, locks, registry) && j < |jobs| && jobs[j].phase.Queued? && x == jobs[j].(phase := Taken)
    requires match jobs[j].lock
             case None => locks' == locks
             case Some(l) => l < |locks| && !locks[l].locked && locks' == locks[l := locks[l].(locked := true)]
    ensures LocksOk(jobs[j := x], locks', registry)
  {
    var jobs' := jobs[j := x];
    assert forall k: nat, l: nat :: HasLock(jobs', k, l) <==> HasLock(jobs, k, l);
    assert forall k: nat, l: nat :: Owes(jobs', k, l) <==> Owes(jobs, k, l);
    assert forall k: nat, l: nat :: HolderOf(jobs', k, l) <==> HolderOf(jobs, k, l) || (k == j && HasLock(jobs, j, l));
    assert forall l: nat :: HasLock(jobs, j, l) ==> HolderOf(jobs', j, l) && l < |locks| && !locks[l].locked;
    assert forall k: nat, l: nat :: HasLock(jobs, j, l) ==> !HolderOf(jobs, k, l);
    forall l: nat | l < |locks|
      ensures locks'[l].locked <==> exists k: nat :: HolderOf(jobs', k, l)
    {
      if HasLock(jobs, j, l) {
        assert HolderOf(jobs', j, l);
      } else {
        assert locks'[l] == locks[l];
      }
    }
    assert forall l: nat :: l < |locks| ==> locks'[l].name == locks[l].name && locks'[l].jobs == locks[l].jobs;
  }

  lemma TakeQueue(jobs: seq<Job>, i: nat, x: Job, queue: seq<nat>)
    requires QueueOk(jobs, queue) && i < |queue| && queue[i] < |jobs| && !x.phase.Queued?
    ensures QueueOk(jobs[queue[i] := x], RemoveAt(queue, i))
  {
    RemoveAtMembers(queue, i);
  }

  lemma NextInv(s: Sys)
    requires Inv(s)
    ensures Inv(Next(s))
  {
    var i := FirstRunnable(s, 0);
    if s.event && i < |s.queue| {
      var s1 := Next(s);
      var j := s.queue[i];
      assert j in s.queue;
      var x := s.jobs[j].(phase := Taken);
      TakeLocks(s.jobs, j, x, s.locks, s1.locks, s.registry);
      TakeQueue(s.jobs, i, x, s.queue);
      UpdateDeque(s.jobs, j, x, s.deque, s.count);
      assert LifeOk(s.jobs[j]);
      assert LifeOk(x);
    }
  }

  lemma StartInv(s: Sys, j: nat, now: int)
    requires Inv(s) && j < |s.jobs| && s.jobs[j].phase.Taken?
    ensures Inv(Start(s, j, now))
  {
    assert LifeOk(s.jobs[j]);
    var s1 := Start(s, j, now);
    UpdateInv(s, j, s1.jobs[j]);
  }

  lemma EndMethodInv(s: Sys, j: nat, o: Outcome, now: int)
    requires Inv(s) && j < |s.jobs| && s.jobs[j].phase.InMethod?
    ensures Inv(EndMethod(s, j, o, now))
  {
    assert LifeOk(s.jobs[j]);
    var s1 := EndMethod(s, j, o, now);
    UpdateInv(s, j, s1.jobs[j]);
  }

  lemma AbortInv(s: Sys, j: nat)
    requires Inv(s) && j < |s.jobs|
    ensures Inv(Abort(s, j))
  {
    assert LifeOk(s.jobs[j]);
    UpdateInv(s, j, Abort(s, j).jobs[j]);
  }

  /** With its last job gone a lock is dropped from the registry, and only that lock. */
  lemma DropRegistered(locks: seq<SharedLock>, registry: map<string, nat>, l: nat, rest: set<nat>)
    requires RegistryOk(locks, registry) && l < |locks| && locks[l].jobs != {}
    ensures RegistryOk(locks[l := locks[l].(jobs := rest, locked := false)],
                       if rest == {} then registry - {locks[l].name} else registry)
  {
    assert Registers(registry, locks[l].name, l);
  }

  lemma FinishExclusive(jobs: seq<Job>, j: nat, x: Job, locks: seq<SharedLock>, l: nat, rest: set<nat>)
    requires ExclusiveOk(jobs, locks) && HolderOf(jobs, j, l) && l < |locks| && x.phase.Finished?
    ensures ExclusiveOk(jobs[j := x], locks[l := locks[l].(jobs := rest, locked := false)])
  {
    var jobs' := jobs[j := x];
    forall k: nat, m: nat
      ensures HolderOf(jobs', k, m) <==> HolderOf(jobs, k, m) && k != j
    {
      assert k < |jobs| && k != j ==> jobs'[k] == jobs[k];
    }
  }

  lemma FinishLocks(jobs: seq<Job>, j: nat, x: Job, locks: seq<SharedLock>, registry: map<string, nat>, l: nat)
    requires LocksOk(jobs, locks, registry) && HolderOf(jobs, j, l) && l < |locks|
    requires x.req == jobs[j].req && x.lock == jobs[j].lock && x.phase.Finished?
    ensures locks[l].locked && Registers(registry, locks[l].name, l)
    ensures var rest := locks[l].jobs - {j};
            LocksOk(jobs[j := x], locks[l := locks[l].(jobs := rest, locked := false)],
                    if rest == {} then registry - {locks[l].name} else registry)
  {
    assert Owes(jobs, j, l);
    assert j in locks[l].jobs;
    var jobs', rest := jobs[j := x], locks[l].jobs - {j};
    FinishExclusive(jobs, j, x, locks, l, rest);
    DropRegistered(locks, registry, l, rest);
    assert forall k: nat, m: nat :: HasLock(jobs', k, m) <==> HasLock(jobs, k, m);
    assert forall k: nat, m: nat :: Owes(jobs', k, m) <==> Owes(jobs, k, m) && k != j;
  }

  lemma FinishInv(s: Sys, j: nat)
    requires Inv(s) && j < |s.jobs| && s.jobs[j].phase.Closing?
    ensures Inv(Finish(s, j))
  {
    assert LifeOk(s.jobs[j]);
    if s.jobs[j].lock.Some? {
      FinishWithLock(s, j, s.jobs[j].lock.value);
    } else {
      FinishWithoutLock(s, j);
    }
  }

  function FinishedJob(job: Job): Job {
    job.(finishedEvent := true, phase := Finished)
  }

  lemma FinishRest(jobs: seq<Job>, queue: seq<nat>, deque: seq<nat>, count: nat, j: nat)
    requires LivesOk(jobs) && QueueOk(jobs, queue) && DequeOk(jobs, deque, count)
    requires j < |jobs| && jobs[j].phase.Closing?
    ensures var jobs' := jobs[j := FinishedJob(jobs[j])];
            LivesOk(jobs') && QueueOk(jobs', queue) && DequeOk(jobs', deque, count)
  {
    assert LifeOk(jobs[j]);
    UpdateDeque(jobs, j, FinishedJob(jobs[j]), deque, count);
  }

  lemma FinishWithLock(s: Sys, j: nat, l: nat)
    requires Inv(s) && j < |s.jobs| && s.jobs[j].phase.Closing? && s.jobs[j].lock == Some(l)
    ensures Inv(Finish(s, j))
  {
    FinishRest(s.jobs, s.queue, s.deque, s.count, j);
    assert HolderOf(s.jobs, j, l);
    FinishLocks(s.jobs, j, FinishedJob(s.jobs[j]), s.locks, s.registry, l);
  }

  lemma FinishWithoutLock(s: Sys, j: nat)
    requires Inv(s) && j < |s.jobs| && s.jobs[j].phase.Closing? && s.jobs[j].lock.None?
    ensures Inv(Finish(s, j))
  {
    var s1 := Finish(s, j);
    FinishRest(s.jobs, s.queue, s.deque, s.count, j);
    LocklessFinish(s.jobs, j, FinishedJob(s.jobs[j]), s.locks, s.registry);
    assert forall i :: 0 <= i < |s1.queue| ==> Runnable(s1, s1.queue[i]) == Runnable(s, s.queue[i]);
  }

  lemma LocklessFinish(jobs: seq<Job>, j: nat, x: Job, locks: seq<SharedLock>, registry: map<string, nat>)
    requires LocksOk(jobs, locks, registry) && j < |jobs| && jobs[j].lock.None? && x.lock.None? && x.req == jobs[j].req
    ensures LocksOk(jobs[j := x], locks, registry)
  {
    var jobs' := jobs[j := x];
    assert forall k: nat, l: nat :: HasLock(jobs', k, l) <==> HasLock(jobs, k, l);
    assert forall k: nat, l: nat :: Owes(jobs', k, l) <==> Owes(jobs, k, l);
    assert forall k: nat, l: nat :: HolderOf(jobs', k, l) <==> HolderOf(jobs, k, l);
  }

  lemma ForgetInv(s: Sys, j: nat)
    requires Inv(s) && j < |s.jobs| && s.jobs[j].phase.Finished?
    ensures Inv(Forget(s, j))
  {
    assert LifeOk(s.jobs[j]);
    WithoutIncreasing(s.deque, j);
  }

  lemma {:induction false} WithoutIncreasing(d: seq<nat>, j: nat)
    requires Increasing(d)
    ensures Increasing(Without(d, j))
  {
    if d != [] {
      WithoutIncreasing(d[1..], j);
      assert forall x :: x in d[1..] ==> d[0] < x;
      assert forall i :: 0 <= i < |Without(d[1..], j)| ==> Without(d[1..], j)[i] in d[1..];
    }
  }

  lemma StepInv(s: Sys, a: Action)
    requires Inv(s)
    ensures Inv(Step(s, a))
  {
    if Enabled(s, a) {
      match a
      case DoAdd(req) => AddInv(s, req);
      case DoNext => NextInv(s);
      case DoStart(j, now) => StartInv(s, j, now);
      case DoEndMethod(j, o, now) => EndMethodInv(s, j, o, now);
      case DoFinish(j) => FinishInv(s, j);
      case DoAbort(j) => AbortInv(s, j);
      case DoForget(j) => ForgetInv(s, j);
    }
  }

  lemma {:induction false} RunInv(s: Sys, acts: seq<Action>)
    requires Inv(s)
    ensures Inv(Run(s, acts))
    decreases |acts|
  {
    if acts != [] {
      StepInv(s, acts[0]);
      RunInv(Step(s, acts[0]), acts[1..]);
    }
  }
}
