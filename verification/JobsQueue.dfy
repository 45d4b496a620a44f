/** The queue object itself, updated in place. Each method is one stretch between suspension points and is tied to
    the step of the same name in `JobModel`. */
module JobsQueueObject {
  import opened Prelude
  import opened JobModel
  import opened JobSafety
  import opened JobTheorems

  /** What `add` gives its caller: a job (new, or the one merged into) or a `CallError`. */
  datatype AddResult = Job(job: nat) | AlreadyPerformed | PerformedByOtherUser | BadLockArguments

  function ResultOf(s: Sys, req: Request): AddResult
    requires Refs(s)
  {
    if req.lockName.NameError? then BadLockArguments
    else
      match Admission(JobModel.HandleLock(s, req), |s.jobs|)
      case Accept => AddResult.Job(|s.jobs|)
      case MergeInto(q) => AddResult.Job(q)
      case Busy => AlreadyPerformed
      case BusyOtherUser => PerformedByOtherUser
  }

  /** A caller that is given a job is given one that waits in the queue, on the lock of their own request and with
      their message ids. A caller that is refused leaves the queue as it was: with size 0 because the job is being
      performed, with any other size because of other users. */
  lemma AnswerMeans(s: Sys, req: Request)
    requires Refs(s)
    ensures var s1 := Add(s, req);
            match ResultOf(s, req)
            case Job(k) =>
              && !req.lockName.NameError? && k in s1.queue && k < |s1.jobs| && |s1.jobs| == |s.jobs| + 1
              && s1.jobs[k].lock == s1.jobs[|s.jobs|].lock
              && s1.jobs[k].messageIds == (if k < |s.jobs| then s.jobs[k].messageIds else []) + req.messageIds
            case BadLockArguments => req.lockName.NameError? && s1 == s
            case AlreadyPerformed => !req.lockName.NameError? && req.queueSize == Some(0) && s1.queue == s.queue
            case PerformedByOtherUser =>
              !req.lockName.NameError? && req.queueSize.Some? && req.queueSize != Some(0) && s1.queue == s.queue
  {
    if !req.lockName.NameError? {
      AddJobs(s, req);
      NewJobIs(s, req);
      var s1, j := JobModel.HandleLock(s, req), |s.jobs|;
      match Admission(s1, j)
      case MergeInto(q) => assert s1.jobs[..j][q] == s1.jobs[q];
      case Accept => assert Add(s, req).queue[|s.queue|] == j;
      case _ =>
    }
  }

  lemma NewJobIs(s: Sys, req: Request)
    requires Refs(s) && !req.lockName.NameError?
    ensures var s1 := JobModel.HandleLock(s, req);
            |s1.jobs| > |s.jobs| && s1.jobs[|s.jobs|].messageIds == req.messageIds
  {
  }

  /** A request without a queue size is answered with its own new job. */
  lemma NoSizeIsAnswered(s: Sys, req: Request)
    requires Refs(s) && !req.lockName.NameError? && req.queueSize.None?
    ensures ResultOf(s, req) == AddResult.Job(|s.jobs|) && Add(s, req).queue == s.queue + [|s.jobs|]
  {
  }

  /** `n` passes of the scheduling loop. */
  function Passes(n: nat): seq<Action> {
    seq(n, _ => DoNext)
  }

  lemma PassIsStep(s: Sys)
    requires Refs(s) && s.event
    ensures Step(s, DoNext) == JobModel.Next(s)
  {
  }

  lemma OneMorePass(n: nat)
    ensures Passes(n + 1) == Passes(n) + [DoNext]
  {
  }

  lemma MorePasses(s: Sys, n: nat)
    requires Refs(s) && Run(s, Passes(n)).event
    ensures Run(s, Passes(n + 1)) == JobModel.Next(Run(s, Passes(n)))
  {
    OneMorePass(n);
    RunAppend(s, Passes(n), DoNext);
    PassIsStep(Run(s, Passes(n)));
  }

  class JobsQueue {
    var jobs: seq<Job>
    var locks: seq<SharedLock>
    var registry: map<string, nat>
    var queue: seq<nat>
    var deque: seq<nat>
    var count: nat
    var event: bool
    var crashed: bool
    const maxlen: nat

    ghost function State(): Sys
      reads this
    {
      Sys(jobs, locks, registry, queue, deque, count, event, maxlen, crashed)
    }

    constructor (maxlen: nat)
      ensures State() == Init(maxlen)
    {
      jobs, locks, registry, queue, deque, count := [], [], map[], [], [], 0;
      event, crashed, this.maxlen := false, false, maxlen;
    }

    method HandleLock(req: Request) returns (j: nat)
      requires Refs(State()) && !req.lockName.NameError?
      modifies this
      ensures State() == JobModel.HandleLock(old(State()), req) && j == |old(jobs)|
    {
      j := |jobs|;
      if req.lockName.Named? {
        var n := req.lockName.name;
        if n !in registry {
          locks := locks + [SharedLock(n, {}, false)];
          registry := registry[n := |locks| - 1];
        }
        var l := registry[n];
        locks := locks[l := locks[l].(jobs := locks[l].jobs + {j})];
        jobs := jobs + [NewJob(req, Some(l))];
        assert registry == old(registry)[n := l];
      } else {
        jobs := jobs + [NewJob(req, None)];
      }
    }

    /** Assign the next id, make room by dropping the oldest finished job when over the limit, and insert. */
    method DequeAdd(j: nat)
      requires Refs(State()) && j < |jobs|
      modifies this`jobs, this`deque, this`count
      ensures jobs == old(jobs)[j := old(jobs)[j].(id := Some(count))] && count == old(count) + 1
      ensures deque == Evict(old(State())) + [j]
    {
      if |deque| > maxlen {
        var i := 0;
        while i < |deque| && !Terminal(jobs[deque[i]].state)
          invariant 0 <= i <= |deque|
          invariant forall k :: 0 <= k < i ==> !Terminal(jobs[deque[k]].state)
        {
          i := i + 1;
        }
        FirstFinishedAt(jobs, deque, i);
        if i < |deque| {
          deque := deque[..i] + deque[i + 1..];
        }
      }
      count := count + 1;
      jobs := jobs[j := jobs[j].(id := Some(count))];
      deque := deque + [j];
    }

    method AnyRunning(lock: Option<nat>) returns (b: bool)
      requires Refs(State())
      ensures b == RunningOnLock(State(), lock)
    {
      for i := 0 to |deque|
        invariant forall k :: 0 <= k < i ==> !(jobs[deque[k]].state.Running? && jobs[deque[k]].lock == lock)
      {
        if jobs[deque[i]].state.Running? && jobs[deque[i]].lock == lock {
          return true;
        }
      }
      b := false;
    }

    method QueuedOn(lock: Option<nat>) returns (queued: seq<nat>)
      requires Refs(State())
      ensures queued == OnLock(jobs, queue, lock)
    {
      queued := [];
      for i := 0 to |queue|
        invariant queued == OnLock(jobs, queue[..i], lock)
      {
        assert queue[..i + 1][..i] == queue[..i];
        if jobs[queue[i]].lock == lock {
          queued := queued + [queue[i]];
        }
      }
      assert queue[..|queue|] == queue;
    }

    method MergeTarget(queued: seq<nat>, mine: Option<Credential>) returns (r: Option<nat>)
      requires forall i :: 0 <= i < |queued| ==> queued[i] < |jobs|
      ensures r == LastMergeable(jobs, queued, mine)
    {
      var i := |queued|;
      assert queued[..i] == queued;
      while i > 0
        invariant 0 <= i <= |queued|
        invariant LastMergeable(jobs, queued, mine) == LastMergeable(jobs, queued[..i], mine)
      {
        i := i - 1;
        assert queued[..i + 1][..i] == queued[..i];
        if MayMerge(mine, jobs[queued[i]].req.creds) {
          return Some(queued[i]);
        }
      }
      r := None;
    }

    /** Apply the `lock_queue_size` rules to the job just attached to its lock. */
    method Admit(j: nat) returns (v: Verdict)
      requires Refs(State()) && j < |jobs|
      ensures v == Admission(State(), j)
    {
      match jobs[j].req.queueSize
      case None => v := Accept;
      case Some(size) =>
        if size == 0 {
          var busy := AnyRunning(jobs[j].lock);
          v := if busy then Busy else Accept;
        } else {
          var queued := QueuedOn(jobs[j].lock);
          v := Accept;
          if |queued| >= size {
            var target := MergeTarget(queued, jobs[j].req.creds);
            v := if target.Some? then MergeInto(target.value) else BusyOtherUser;
          }
        }
    }

    method Append(j: nat)
      requires Refs(State()) && j < |jobs|
      modifies this
      ensures State() == Enqueue(old(State()), j)
    {
      DequeAdd(j);
      queue := queue + [j];
      jobs := jobs[j := jobs[j].(phase := Queued)];
      event := true;
    }

    method Merge(q: nat, ids: seq<string>)
      requires q < |jobs|
      modifies this`jobs
      ensures jobs == old(jobs)[q := old(jobs)[q].(messageIds := old(jobs)[q].messageIds + ids)]
    {
      if ids != [] {
        jobs := jobs[q := jobs[q].(messageIds := jobs[q].messageIds + ids)];
      } else {
        assert jobs[q].messageIds + ids == jobs[q].messageIds;
      }
    }

    method Add(req: Request) returns (r: AddResult)
      requires Refs(State())
      modifies this
      ensures State() == JobModel.Add(old(State()), req)
      ensures r == ResultOf(old(State()), req)
    {
      if req.lockName.NameError? {
        return BadLockArguments;
      }
      var j := HandleLock(req);
      var v := Admit(j);
      match v
      case Accept =>
        Append(j);
        r := AddResult.Job(j);
      case MergeInto(q) =>
        Merge(q, req.messageIds);
        r := AddResult.Job(q);
      case Busy => r := AlreadyPerformed;
      case BusyOtherUser => r := PerformedByOtherUser;
    }

    /** One pass of the scheduling loop with the event set: take the first runnable job, or clear the event. */
    method Next() returns (found: Option<nat>)
      requires Refs(State()) && event
      modifies this
      ensures State() == JobModel.Next(old(State()))
      ensures found.None? <==> forall i :: 0 <= i < |old(queue)| ==> !Runnable(old(State()), old(queue)[i])
      ensures var i := FirstRunnable(old(State()), 0);
              found == if i < |old(queue)| then Some(old(queue)[i]) else None
    {
      var i := 0;
      while i < |queue| && jobs[queue[i]].lock.Some? && locks[jobs[queue[i]].lock.value].locked
        invariant 0 <= i <= |queue|
        invariant FirstRunnable(State(), 0) == FirstRunnable(State(), i)
        invariant forall k :: 0 <= k < i ==> !Runnable(State(), queue[k])
      {
        i := i + 1;
      }
      if i < |queue| {
        found := Some(queue[i]);
        Take(i);
      } else {
        event := false;
        found := None;
      }
    }

    /** Acquire the lock of the job found and take the job off the queue. */
    method Take(i: nat)
      requires Refs(State()) && event && i == FirstRunnable(State(), 0) && i < |queue|
      modifies this
      ensures State() == JobModel.Next(old(State()))
    {
      var j := queue[i];
      if jobs[j].lock.Some? {
        var l := jobs[j].lock.value;
        locks := locks[l := locks[l].(locked := true)];
      }
      jobs := jobs[j := jobs[j].(phase := Taken)];
      queue := queue[..i] + queue[i + 1..];
      if |queue| == 0 {
        event := false;
      }
    }

    /** One pass keeps the invariant, and takes exactly the job that it gives back off the queue. */
    method Pass() returns (found: Option<nat>)
      requires Inv(State()) && event
      modifies this
      ensures State() == JobModel.Next(old(State())) && Inv(State())
      ensures found.None? ==> queue == old(queue) && !event
      ensures found.Some? ==> |queue| == |old(queue)| - 1
      ensures found.Some? ==> forall x :: x in old(queue) <==> x in queue || x == found.value
    {
      ghost var s := State();
      NextInv(s);
      found := Next();
      if found.Some? {
        RemoveAtMembers(s.queue, FirstRunnable(s, 0));
      }
    }

    /** The scheduling loop up to the point where it suspends: it gets there, and then no queued job could run. */
    method Schedule() returns (started: seq<nat>)
      requires Inv(State())
      modifies this
      ensures Inv(State()) && !event
      ensures forall i :: 0 <= i < |queue| ==> !Runnable(State(), queue[i])
      ensures |started| + |queue| == |old(queue)|
      ensures forall x :: x in old(queue) <==> x in started || x in queue
      ensures exists n: nat :: State() == Run(old(State()), Passes(n))
    {
      started := [];
      ghost var n := 0;
      ghost var s0 := State();
      assert Run(s0, Passes(0)) == s0;
      while event
        invariant Inv(State()) && State().maxlen == s0.maxlen
        invariant |started| + |queue| == |s0.queue|
        invariant forall x :: x in s0.queue <==> x in started || x in queue
        invariant State() == Run(s0, Passes(n))
        decreases |queue|, event
      {
        MorePasses(s0, n);
        var found := Pass();
        if found.Some? {
          started := started + [found.value];
        }
        n := n + 1;
      }
    }

    /** The job's task sets its state and goes on to the next phase. */
    method MoveOn(j: nat, st: State, now: int, ph: Phase, started: bool)
      requires Refs(State()) && j < |jobs|
      modifies this`jobs, this`crashed
      ensures State() == Move(old(State()), j, st, now, ph, started)
    {
      SetState(j, st, now);
      jobs := jobs[j := jobs[j].(phase := ph, started := started)];
    }

    /** `Start` of a job's task. */
    method Start(j: nat, now: int)
      requires Refs(State()) && j < |jobs|
      modifies this`jobs, this`crashed
      ensures State() == JobModel.Start(old(State()), j, now)
    {
      if jobs[j].aborted {
        MoveOn(j, Aborted, now, Closing, false);
      } else {
        MoveOn(j, Running, now, InMethod, true);
      }
    }

    method EndMethod(j: nat, o: Outcome, now: int)
      requires Refs(State()) && j < |jobs|
      modifies this`jobs, this`crashed
      ensures State() == JobModel.EndMethod(old(State()), j, o, now)
    {
      MoveOn(j, FinalState(o), now, Closing, jobs[j].started);
    }

    method SetState(j: nat, st: State, now: int)
      requires Refs(State()) && j < |jobs|
      modifies this`jobs, this`crashed
      ensures State() == JobModel.SetState(old(State()), j, st, now)
    {
      if !MaySet(jobs[j].state, st) {
        crashed := true;
        return;
      }
      jobs := jobs[j := jobs[j].(state := st)];
      if Terminal(st) {
        jobs := jobs[j := jobs[j].(timeFinished := Some(now))];
      }
    }

    method ReleaseLock(j: nat)
      requires Refs(State()) && j < |jobs|
      modifies this`locks, this`registry, this`event, this`crashed
      ensures State() == JobModel.ReleaseLock(old(State()), j)
    {
      if jobs[j].lock.None? {
        return;
      }
      var l := jobs[j].lock.value;
      var rest := locks[l].jobs - {j};
      if !locks[l].locked || (rest == {} && locks[l].name !in registry) {
        crashed := true;
        return;
      }
      locks := locks[l := locks[l].(jobs := rest, locked := false)];
      if rest == {} {
        registry := registry - {locks[l].name};
      }
      event := true;
    }

    /** The last stretch of a job's task: release the lock, then set the finished event. */
    method Finish(j: nat)
      requires Inv(State()) && j < |jobs| && jobs[j].phase.Closing?
      modifies this
      ensures State() == JobModel.Finish(old(State()), j) && Inv(State())
      ensures jobs[j].finishedEvent && forall l: nat :: l < |locks| ==> j !in locks[l].jobs
    {
      FinishInv(State(), j);
      ReleaseLock(j);
      jobs := jobs[j := jobs[j].(finishedEvent := true, phase := Finished)];
      forall l: nat | l < |locks|
        ensures j !in locks[l].jobs
      {
        assert !Owes(jobs, j, l);
      }
    }

    method Abort(j: nat)
      requires Refs(State()) && j < |jobs|
      modifies this`jobs
      ensures State() == JobModel.Abort(old(State()), j)
    {
      jobs := jobs[j := jobs[j].(abortedEvent := true)];
      if !jobs[j].started && jobs[j].state.Waiting? {
        jobs := jobs[j := jobs[j].(aborted := true)];
      }
    }
  }

  lemma FirstFinishedAt(jobs: seq<Job>, d: seq<nat>, i: nat)
    requires i <= |d| && forall k :: 0 <= k < |d| ==> d[k] < |jobs|
    requires forall k :: 0 <= k < i ==> !Terminal(jobs[d[k]].state)
    requires i < |d| ==> Terminal(jobs[d[i]].state)
    ensures FirstFinished(jobs, d) == i
  {
  }
}
