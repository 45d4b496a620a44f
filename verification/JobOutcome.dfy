/** What the scheduler promises about single jobs: who is accepted or merged, how a job ends, what aborting does, and
    which jobs leave the deque. */
module JobOutcome {
  import opened Prelude
  import opened JobModel
  import opened JobSafety
  import opened JobTheorems

  // ----- admission

  /** A job without a queue size is never discarded. */
  lemma NoSizeIsQueued(s: Sys, req: Request)
    requires Refs(s) && !req.lockName.NameError? && req.queueSize.None?
    ensures var s1 := Add(s, req);
            && s1.queue == s.queue + [|s.jobs|] && s1.event
            && |s1.jobs| == |s.jobs| + 1 && s1.jobs[|s.jobs|].req == req && s1.jobs[|s.jobs|].phase.Queued?
  {
  }

  /** The job was submitted in a session of the given user. */
  predicate SubmittedBy(job: Job, user: string) {
    job.req.creds.Some? && job.req.creds.value.userSession && job.req.creds.value.username == user
  }

  /** A user who is not a full administrator is merged only into jobs of their own, and refused only when none of their
      own waits on the lock. */
  lemma UserJoinsOwnJobs(s: Sys, j: nat, user: string)
    requires Refs(s) && j < |s.jobs| && s.jobs[j].req.creds == Some(Credential(true, false, user))
    ensures match Admission(s, j)
            case MergeInto(q) => q < |s.jobs| && SubmittedBy(s.jobs[q], user)
            case BusyOtherUser =>
              forall i :: 0 <= i < |s.queue| && s.jobs[s.queue[i]].lock == s.jobs[j].lock ==>
                !SubmittedBy(s.jobs[s.queue[i]], user)
            case _ => true
  {
    NewestMergeable(s.jobs, s.queue, s.jobs[j].lock, s.jobs[j].req.creds);
    if Admission(s, j).BusyOtherUser? {
      forall i | 0 <= i < |s.queue| && s.jobs[s.queue[i]].lock == s.jobs[j].lock
        ensures !SubmittedBy(s.jobs[s.queue[i]], user)
      {
        assert !Mergeable(s.jobs, s.queue[i], s.jobs[j].lock, s.jobs[j].req.creds);
      }
    }
  }

  /** Everybody else (a full administrator, a session of no user, or an internal call) joins the newest job that
      waits on the lock, whoever submitted it, and is refused only when none waits. */
  lemma OthersJoinAnyJob(s: Sys, j: nat)
    requires Refs(s) && j < |s.jobs|
    requires var c := s.jobs[j].req.creds; c.None? || !c.value.userSession || c.value.fullAdmin
    ensures match Admission(s, j)
            case MergeInto(q) =>
              exists i :: 0 <= i < |s.queue| && s.queue[i] == q && s.jobs[s.queue[i]].lock == s.jobs[j].lock
                          && forall k :: i < k < |s.queue| ==> s.jobs[s.queue[k]].lock != s.jobs[j].lock
            case BusyOtherUser => forall i :: 0 <= i < |s.queue| ==> s.jobs[s.queue[i]].lock != s.jobs[j].lock
            case _ => true
  {
    var lock, mine := s.jobs[j].lock, s.jobs[j].req.creds;
    NewestMergeable(s.jobs, s.queue, lock, mine);
    assert forall i :: 0 <= i < |s.queue| ==>
        (Mergeable(s.jobs, s.queue[i], lock, mine) <==> s.jobs[s.queue[i]].lock == lock);
    if Admission(s, j).MergeInto? {
      var i: nat :| Newest(s.jobs, s.queue, lock, mine, i) && s.queue[i] == Admission(s, j).job;
      assert forall k :: i < k < |s.queue| ==> !Mergeable(s.jobs, s.queue[k], lock, mine);
    }
  }

  // ----- the scheduling loop

  /** A pass leaves the event set exactly when it took a job and others wait. */
  lemma PassEvent(s: Sys)
    requires Refs(s) && s.event
    ensures Next(s).event <==> Next(s).queue != [] && |Next(s).queue| < |s.queue|
  {
  }

  // ----- how a job ends

  /** The transitions that `set_state` allows. */
  lemma AllowedTransitions(before: State, after: State)
    ensures MaySet(before, after)
       <==> (before, after) in {(Waiting, Running), (Waiting, Failed), (Waiting, Aborted),
                                (Running, Success), (Running, Failed), (Running, Aborted)}
  {
  }

  /** The state a job ends in says how its method ended, and when, for good. */
  lemma OutcomeStays(s: Sys, j: nat, o: Outcome, now: int, acts: seq<Action>)
    requires Reachable(s) && Refs(s) && j < |s.jobs| && s.jobs[j].phase.InMethod?
    ensures var s1 := Run(Step(s, DoEndMethod(j, o, now)), acts);
            && j < |s1.jobs|
            && (s1.jobs[j].state.Success? <==> o.Returned?)
            && (s1.jobs[j].state.Failed? <==> o.Raised?)
            && (s1.jobs[j].state.Aborted? <==> o.Cancelled?)
            && s1.jobs[j].timeFinished == Some(now)
  {
    ReachableInv(s);
    assert LifeOk(s.jobs[j]);
    var a := DoEndMethod(j, o, now);
    StepInv(s, a);
    MethodEnds(s, j, o, now);
    RunEvolves(Step(s, a), acts);
    assert Evolves(Step(s, a).jobs[j], Run(Step(s, a), acts).jobs[j]);
  }

  lemma MethodEnds(s: Sys, j: nat, o: Outcome, now: int)
    requires Refs(s) && j < |s.jobs| && s.jobs[j].phase.InMethod? && s.jobs[j].state.Running?
    ensures var s1 := Step(s, DoEndMethod(j, o, now));
            && |s1.jobs| == |s.jobs| && s1.jobs[j].timeFinished == Some(now)
            && s1.jobs[j].state == if o.Returned? then Success else if o.Raised? then Failed else Aborted
  {
  }

  /** An aborted job keeps its aborted event for good, whatever state it is in. */
  lemma AbortedEventStays(s: Sys, j: nat, acts: seq<Action>)
    requires Reachable(s) && Refs(s) && j < |s.jobs|
    ensures var s1 := Run(Step(s, DoAbort(j)), acts); j < |s1.jobs| && s1.jobs[j].abortedEvent
  {
    ReachableInv(s);
    StepInv(s, DoAbort(j));
    RunEvolves(Step(s, DoAbort(j)), acts);
    assert Evolves(Step(s, DoAbort(j)).jobs[j], Run(Step(s, DoAbort(j)), acts).jobs[j]);
  }

  /** Neither mark of an abort. */
  predicate Unmarked(job: Job) {
    !job.aborted && !job.abortedEvent
  }

  lemma StepMarks(s: Sys, a: Action, j: nat)
    requires Refs(s) && j < |Step(s, a).jobs| && a != DoAbort(j) && (j < |s.jobs| ==> Unmarked(s.jobs[j]))
    ensures Unmarked(Step(s, a).jobs[j])
  {
    if a.DoAdd? {
      AddMarks(s, a.req, j);
    } else {
      SameCount(s, a);
      match a
      case DoStart(k, now) => if Enabled(s, a) { StartMarks(s, k, now, j); }
      case DoEndMethod(k, o, now) => if Enabled(s, a) { EndMethodMarks(s, k, o, now, j); }
      case DoFinish(k) => if Enabled(s, a) { FinishMarks(s, k, j); }
      case _ => OtherMarks(s, a, j);
    }
  }

  lemma OtherMarks(s: Sys, a: Action, j: nat)
    requires Refs(s) && j < |s.jobs| && Unmarked(s.jobs[j]) && a != DoAbort(j)
    requires a.DoNext? || a.DoAbort? || a.DoForget?
    ensures j < |Step(s, a).jobs| && Unmarked(Step(s, a).jobs[j])
  {
  }

  lemma StartMarks(s: Sys, k: nat, now: int, j: nat)
    requires Refs(s) && k < |s.jobs| && j < |s.jobs| && Unmarked(s.jobs[j])
    ensures |Start(s, k, now).jobs| == |s.jobs| && Unmarked(Start(s, k, now).jobs[j])
  {
  }

  lemma EndMethodMarks(s: Sys, k: nat, o: Outcome, now: int, j: nat)
    requires Refs(s) && k < |s.jobs| && j < |s.jobs| && Unmarked(s.jobs[j])
    ensures |EndMethod(s, k, o, now).jobs| == |s.jobs| && Unmarked(EndMethod(s, k, o, now).jobs[j])
  {
  }

  lemma FinishMarks(s: Sys, k: nat, j: nat)
    requires Refs(s) && k < |s.jobs| && j < |s.jobs| && Unmarked(s.jobs[j])
    ensures |Finish(s, k).jobs| == |s.jobs| && Unmarked(Finish(s, k).jobs[j])
  {
  }

  lemma AddMarks(s: Sys, req: Request, j: nat)
    requires Refs(s) && j < |Add(s, req).jobs| && (j < |s.jobs| ==> Unmarked(s.jobs[j]))
    ensures Unmarked(Add(s, req).jobs[j])
  {
    if !req.lockName.NameError? {
      AddJobs(s, req);
      NewTurnedAway(s, req);
      var s1 := HandleLock(s, req);
      if j < |s.jobs| {
        assert s1.jobs[..|s.jobs|][j] == s1.jobs[j];
      }
    }
  }

  lemma {:induction false} RunMarks(s: Sys, acts: seq<Action>, j: nat)
    requires Inv(s) && DoAbort(j) !in acts && j < |Run(s, acts).jobs| && (j < |s.jobs| ==> Unmarked(s.jobs[j]))
    ensures Unmarked(Run(s, acts).jobs[j])
    decreases |acts|
  {
    if acts != [] {
      var s1 := Step(s, acts[0]);
      StepInv(s, acts[0]);
      if j < |s1.jobs| {
        StepMarks(s, acts[0], j);
      }
      RunMarks(s1, acts[1..], j);
    }
  }

  /** A job that nobody aborts carries no mark of it, and has entered its method by the time it is finished. */
  lemma NotAbortedRuns(maxlen: nat, acts: seq<Action>, j: nat)
    requires DoAbort(j) !in acts && j < |Run(Init(maxlen), acts).jobs|
    ensures var job := Run(Init(maxlen), acts).jobs[j];
            Unmarked(job) && (job.phase.Finished? ==> job.started)
  {
    InitInv(maxlen);
    RunInv(Init(maxlen), acts);
    RunMarks(Init(maxlen), acts, j);
    assert LifeOk(Run(Init(maxlen), acts).jobs[j]);
  }

  // ----- the deque

  /** The position of the oldest finished job of the deque. */
  ghost predicate OldestFinished(s: Sys, i: nat)
    requires Refs(s)
  {
    && i < |s.deque| && Terminal(s.jobs[s.deque[i]].state)
    && forall k :: 0 <= k < i ==> !Terminal(s.jobs[s.deque[k]].state)
  }

  /** A new job goes to the end. Only when there are more than `maxlen` before it does the oldest finished one go,
      if any is finished; the others keep their order. */
  lemma EvictsOldestFinished(s: Sys, j: nat)
    requires Refs(s) && j < |s.jobs|
    ensures var d := Enqueue(s, j).deque;
            if |s.deque| > s.maxlen && exists i: nat :: OldestFinished(s, i) then
              exists i: nat :: OldestFinished(s, i) && d == s.deque[..i] + s.deque[i + 1..] + [j]
            else d == s.deque + [j]
  {
    var i := FirstFinished(s.jobs, s.deque);
    if i < |s.deque| {
      assert OldestFinished(s, i);
    }
  }

  /** Apart from that, a job leaves the deque only when it is finished and transient, and then it is gone. */
  lemma ForgottenIff(s: Sys, a: Action, x: nat)
    requires Refs(s) && x in s.deque && !a.DoAdd?
    ensures x !in Step(s, a).deque
       <==> a == DoForget(x) && x < |s.jobs| && s.jobs[x].phase.Finished? && s.jobs[x].req.transient
  {
    if !a.DoForget? {
      OthersKeepDeque(s, a);
    }
  }

  lemma OthersKeepDeque(s: Sys, a: Action)
    requires Refs(s) && !a.DoAdd? && !a.DoForget?
    ensures Step(s, a).deque == s.deque
  {
  }

  // ----- ids

  /** How many of the jobs were admitted. */
  function AdmittedIn(jobs: seq<Job>): nat {
    if jobs == [] then 0 else AdmittedIn(jobs[..|jobs| - 1]) + if jobs[|jobs| - 1].phase.TurnedAway? then 0 else 1
  }

  /** The n-th admitted job has the id n. */
  ghost predicate IdsOk(jobs: seq<Job>, count: nat) {
    && count == AdmittedIn(jobs)
    && forall j: nat :: Admitted(jobs, j) ==> jobs[j].id == Some(AdmittedIn(jobs[..j + 1]))
  }

  lemma {:induction false} SameAdmitted(p: seq<Job>, q: seq<Job>)
    requires |p| == |q| && forall j :: 0 <= j < |p| ==> (p[j].phase.TurnedAway? <==> q[j].phase.TurnedAway?)
    ensures AdmittedIn(p) == AdmittedIn(q)
  {
    if p != [] {
      SameAdmitted(p[..|p| - 1], q[..|q| - 1]);
    }
  }

  /** Jobs that only evolve keep their ids. */
  lemma EvolvedIds(s: Sys, s': Sys)
    requires IdsOk(s.jobs, s.count) && AllEvolve(s, s') && |s'.jobs| == |s.jobs| && s'.count == s.count
    ensures IdsOk(s'.jobs, s'.count)
  {
    assert forall j :: 0 <= j < |s.jobs| ==> Evolves(s.jobs[j], s'.jobs[j]);
    SameAdmitted(s.jobs, s'.jobs);
    forall j: nat | Admitted(s'.jobs, j)
      ensures s'.jobs[j].id == Some(AdmittedIn(s'.jobs[..j + 1]))
    {
      assert Admitted(s.jobs, j);
      SameAdmitted(s.jobs[..j + 1], s'.jobs[..j + 1]);
    }
  }

  /** A job more, turned away or admitted with the next id. */
  lemma NewIds(s: Sys, s': Sys)
    requires IdsOk(s.jobs, s.count) && AllEvolve(s, s') && |s'.jobs| == |s.jobs| + 1
    requires var x := s'.jobs[|s.jobs|];
             if x.phase.TurnedAway? then s'.count == s.count else s'.count == s.count + 1 && x.id == Some(s.count + 1)
    ensures IdsOk(s'.jobs, s'.count)
  {
    var n := |s.jobs|;
    SameAdmitted(s.jobs, s'.jobs[..n]) by {
      assert forall j :: 0 <= j < n ==> Evolves(s.jobs[j], s'.jobs[j]);
    }
    assert s'.jobs[..n + 1] == s'.jobs;
    forall j: nat | Admitted(s'.jobs, j)
      ensures s'.jobs[j].id == Some(AdmittedIn(s'.jobs[..j + 1]))
    {
      if j < n {
        OldId(s, s', j);
      }
    }
  }

  lemma OldId(s: Sys, s': Sys, j: nat)
    requires IdsOk(s.jobs, s.count) && AllEvolve(s, s') && j < |s.jobs| && Admitted(s'.jobs, j)
    ensures s'.jobs[j].id == Some(AdmittedIn(s'.jobs[..j + 1]))
  {
    assert forall k :: 0 <= k < |s.jobs| ==> Evolves(s.jobs[k], s'.jobs[k]);
    assert Admitted(s.jobs, j);
    SameAdmitted(s.jobs[..j + 1], s'.jobs[..j + 1]);
  }

  lemma AddIds(s: Sys, req: Request)
    requires Inv(s) && IdsOk(s.jobs, s.count)
    ensures IdsOk(Add(s, req).jobs, Add(s, req).count)
  {
    AddEvolves(s, req);
    if !req.lockName.NameError? {
      AddedJob(s, req);
      NewIds(s, Add(s, req));
    }
  }

  lemma AddedJob(s: Sys, req: Request)
    requires Refs(s) && !req.lockName.NameError?
    ensures var s1 := Add(s, req);
            && |s1.jobs| == |s.jobs| + 1
            && var x := s1.jobs[|s.jobs|];
               if x.phase.TurnedAway? then s1.count == s.count else s1.count == s.count + 1 && x.id == Some(s.count + 1)
  {
    AddJobs(s, req);
    NewTurnedAway(s, req);
    AddCount(s, req);
  }

  lemma NewTurnedAway(s: Sys, req: Request)
    requires Refs(s) && !req.lockName.NameError?
    ensures var s1 := HandleLock(s, req);
            && s1.count == s.count && |s1.jobs| == |s.jobs| + 1
            && s1.jobs[|s.jobs|].phase.TurnedAway? && Unmarked(s1.jobs[|s.jobs|])
  {
  }

  lemma AddCount(s: Sys, req: Request)
    requires Refs(s) && !req.lockName.NameError? && |HandleLock(s, req).jobs| == |s.jobs| + 1
    ensures var s1 := HandleLock(s, req);
            Add(s, req).count == if Admission(s1, |s.jobs|).Accept? then s1.count + 1 else s1.count
  {
  }

  lemma StepIds(s: Sys, a: Action)
    requires Inv(s) && IdsOk(s.jobs, s.count)
    ensures IdsOk(Step(s, a).jobs, Step(s, a).count)
  {
    if a.DoAdd? {
      AddIds(s, a.req);
    } else {
      StepEvolves(s, a);
      SameCount(s, a);
      EvolvedIds(s, Step(s, a));
    }
  }

  lemma SameCount(s: Sys, a: Action)
    requires Refs(s) && !a.DoAdd?
    ensures Step(s, a).count == s.count && |Step(s, a).jobs| == |s.jobs|
  {
  }

  lemma {:induction false} RunIds(s: Sys, acts: seq<Action>)
    requires Inv(s) && IdsOk(s.jobs, s.count)
    ensures IdsOk(Run(s, acts).jobs, Run(s, acts).count)
    decreases |acts|
  {
    if acts != [] {
      StepInv(s, acts[0]);
      StepIds(s, acts[0]);
      RunIds(Step(s, acts[0]), acts[1..]);
    }
  }

  /** Ids count the admitted jobs, from 1 and without a gap. */
  lemma IdsCountAdmissions(maxlen: nat, acts: seq<Action>, j: nat)
    requires Admitted(Run(Init(maxlen), acts).jobs, j)
    ensures var jobs := Run(Init(maxlen), acts).jobs; jobs[j].id == Some(AdmittedIn(jobs[..j + 1]))
  {
    InitInv(maxlen);
    RunIds(Init(maxlen), acts);
  }
}
