/** Progress of the scheduler: it is never stuck, and every job can be brought to its end. */
module JobProgress {
  import opened Prelude
  import opened JobModel
  import opened JobSafety
  import opened JobTheorems

  /** Whether `a` is a step that job `j` itself takes, and can take. */
  predicate IsOwn(s: Sys, a: Action, j: nat) {
    Enabled(s, a) && (a.DoStart? || a.DoEndMethod? || a.DoFinish?) && a.job == j
  }

  /** How many steps of a run job `j` itself takes. */
  function OwnSteps(s: Sys, acts: seq<Action>, j: nat): nat
    requires Refs(s)
    decreases |acts|
  {
    if acts == [] then 0
    else (if IsOwn(s, acts[0], j) then 1 else 0) + OwnSteps(Step(s, acts[0]), acts[1..], j)
  }

  /** Whatever the other jobs do in between, each step of a taken job's task brings it forward, so the job is finished
      after at most three of them. */
  lemma FinishedAfterThree(s: Sys, acts: seq<Action>, j: nat)
    requires Inv(s) && j < |s.jobs| && Holds(s.jobs[j])
    ensures j < |Run(s, acts).jobs|
    ensures Rank(s.jobs[j].phase) + OwnSteps(s, acts, j) <= Rank(Run(s, acts).jobs[j].phase) <= Rank(Finished)
    ensures OwnSteps(s, acts, j) >= 3 ==> Run(s, acts).jobs[j].phase.Finished?
  {
    RankRun(s, acts, j);
  }

  lemma {:induction false} RankRun(s: Sys, acts: seq<Action>, j: nat)
    requires Inv(s) && j < |s.jobs| && !s.jobs[j].phase.TurnedAway?
    ensures j < |Run(s, acts).jobs| && !Run(s, acts).jobs[j].phase.TurnedAway?
    ensures Rank(s.jobs[j].phase) + OwnSteps(s, acts, j) <= Rank(Run(s, acts).jobs[j].phase)
    decreases |acts|
  {
    if acts != [] {
      var s1 := Step(s, acts[0]);
      StepInv(s, acts[0]);
      StepEvolves(s, acts[0]);
      assert Evolves(s.jobs[j], s1.jobs[j]);
      if IsOwn(s, acts[0], j) {
        OwnAdvances(s, acts[0], j);
      }
      RankRun(s1, acts[1..], j);
    }
  }

  lemma OwnAdvances(s: Sys, a: Action, j: nat)
    requires Refs(s) && IsOwn(s, a, j)
    ensures j < |Step(s, a).jobs| && Rank(s.jobs[j].phase) < Rank(Step(s, a).jobs[j].phase)
  {
    var o := if a.DoEndMethod? then a.outcome else Returned;
    var now := if a.DoFinish? then 0 else a.now;
    assert a == OwnStep(s.jobs[j], j, o, now);
    TakenJobAdvances(s, j, o, now);
  }

  /** The scheduler is never stuck: while there is a live job, the scheduling loop is awake or some job's task can take
      its next step. */
  lemma NeverStuck(s: Sys, j: nat)
    requires Reachable(s) && Refs(s) && j < |s.jobs| && Live(s.jobs[j])
    ensures s.event || exists k: nat :: k < |s.jobs| && Holds(s.jobs[k])
  {
    if !Holds(s.jobs[j]) && !s.event {
      ReachableInv(s);
      NoLostWakeUp(s, j);
      var k: nat :| HolderOf(s.jobs, k, s.jobs[j].lock.value);
      assert k < |s.jobs| && Holds(s.jobs[k]);
    }
  }

  // ----- every job can be brought to its end

  /** Steps that the live jobs still have before them. */
  function Work(jobs: seq<Job>): nat {
    if jobs == [] then 0
    else Work(jobs[..|jobs| - 1]) + if Live(jobs[|jobs| - 1]) then 4 - Rank(jobs[|jobs| - 1].phase) else 0
  }

  lemma {:induction false} WorkShrinks(jobs: seq<Job>, j: nat, x: Job)
    requires j < |jobs| && Live(jobs[j]) && Rank(jobs[j].phase) < Rank(x.phase) <= Rank(Finished)
    ensures Work(jobs[j := x]) < Work(jobs)
  {
    var n := |jobs| - 1;
    if j == n {
      assert jobs[j := x][..n] == jobs[..n];
    } else {
      assert jobs[j := x][..n] == jobs[..n][j := x];
      WorkShrinks(jobs[..n], j, x);
    }
  }

  /** A pass of the scheduling loop takes a job, or lets the loop fall asleep. */
  lemma PassShrinks(s: Sys)
    requires Inv(s) && s.event
    ensures Work(Next(s).jobs) < Work(s.jobs) || (Work(Next(s).jobs) == Work(s.jobs) && !Next(s).event)
  {
    var i := FirstRunnable(s, 0);
    if i < |s.queue| {
      var j := s.queue[i];
      assert j in s.queue;
      WorkShrinks(s.jobs, j, s.jobs[j].(phase := Taken));
    }
  }

  lemma OwnShrinks(s: Sys, a: Action, j: nat)
    requires Inv(s) && IsOwn(s, a, j)
    ensures Work(Step(s, a).jobs) < Work(s.jobs)
  {
    var s1 := Step(s, a);
    OwnAdvances(s, a, j);
    assert s1.jobs == s.jobs[j := s1.jobs[j]];
    WorkShrinks(s.jobs, j, s1.jobs[j]);
  }

  /** `a` is a pass of the loop or a step that a taken job itself takes, and can happen. */
  predicate Moves(s: Sys, a: Action) {
    Enabled(s, a) && (a.DoNext? || a.DoStart? || a.DoEndMethod? || a.DoFinish?)
  }

  /** A bound on such steps: two for each that a job has before it, and a pass that lets the loop fall asleep. */
  function StepsLeft(s: Sys): nat {
    2 * Work(s.jobs) + if s.event then 1 else 0
  }

  lemma MoveShrinks(s: Sys, a: Action)
    requires Inv(s) && Moves(s, a)
    ensures StepsLeft(Step(s, a)) < StepsLeft(s)
  {
    if a.DoNext? {
      PassShrinks(s);
    } else {
      OwnShrinks(s, a, a.job);
    }
  }

  /** Every action of the run is such a step. */
  ghost predicate AllMove(s: Sys, acts: seq<Action>)
    requires Refs(s)
    decreases |acts|
  {
    acts == [] || (Moves(s, acts[0]) && AllMove(Step(s, acts[0]), acts[1..]))
  }

  ghost predicate NoneLive(jobs: seq<Job>) {
    forall j :: 0 <= j < |jobs| ==> !Live(jobs[j])
  }

  /** Left to itself, the scheduler comes to rest, in whatever order its steps happen and however the methods end: no
      run of its steps is longer than the bound. */
  lemma {:induction false} EveryRunIsShort(s: Sys, acts: seq<Action>)
    requires Inv(s) && AllMove(s, acts)
    ensures |acts| + StepsLeft(Run(s, acts)) <= StepsLeft(s)
    decreases |acts|
  {
    if acts != [] {
      StepInv(s, acts[0]);
      MoveShrinks(s, acts[0]);
      EveryRunIsShort(Step(s, acts[0]), acts[1..]);
    }
  }

  /** And it rests only when no job is live: while one is, some step can happen. */
  lemma LiveMeansMove(s: Sys, j: nat) returns (a: Action)
    requires Reachable(s) && Refs(s) && j < |s.jobs| && Live(s.jobs[j])
    ensures Moves(s, a)
  {
    NeverStuck(s, j);
    a := DoNext;
    if !s.event {
      var k: nat :| k < |s.jobs| && Holds(s.jobs[k]);
      a := OwnStep(s.jobs[k], k, Returned, 0);
    }
  }

  lemma {:induction false} ReachableRun(s: Sys, acts: seq<Action>)
    requires Reachable(s) && Refs(s)
    ensures Reachable(Run(s, acts))
    decreases |acts|
  {
    if acts != [] {
      ReachableStep(s, acts[0]);
      ReachableRun(Step(s, acts[0]), acts[1..]);
    }
  }

  lemma ReachableStep(s: Sys, a: Action)
    requires Reachable(s) && Refs(s)
    ensures Reachable(Step(s, a))
  {
    var maxlen: nat, acts: seq<Action> :| s == Run(Init(maxlen), acts);
    assert Step(s, a) == Run(Init(maxlen), acts + [a]) by {
      RunAppend(Init(maxlen), acts, a);
    }
  }

  /** So every run that goes on until no step is left brings all live jobs to their end, within the bound. */
  lemma EveryRunFinishes(s: Sys, acts: seq<Action>)
    requires Reachable(s) && Refs(s) && AllMove(s, acts) && forall a :: !Moves(Run(s, acts), a)
    ensures NoneLive(Run(s, acts).jobs) && |acts| <= StepsLeft(s)
  {
    ReachableInv(s);
    EveryRunIsShort(s, acts);
    ReachableRun(s, acts);
    var s1 := Run(s, acts);
    if j :| 0 <= j < |s1.jobs| && Live(s1.jobs[j]) {
      var a := LiveMeansMove(s1, j);
    }
  }

  /** There is such a run from every reachable state: no job is ever cut off. */
  lemma {:induction false} AllCanFinish(s: Sys) returns (acts: seq<Action>)
    requires Reachable(s) && Refs(s)
    ensures AllMove(s, acts) && NoneLive(Run(s, acts).jobs)
    decreases StepsLeft(s)
  {
    acts := [];
    if j :| 0 <= j < |s.jobs| && Live(s.jobs[j]) {
      var a := LiveMeansMove(s, j);
      ReachableInv(s);
      MoveShrinks(s, a);
      ReachableStep(s, a);
      var rest := AllCanFinish(Step(s, a));
      acts := [a] + rest;
      assert acts[1..] == rest;
    }
  }

  // ----- a lock that is never dropped

  const PINNING := Request(Named("pool"), Some(1), None, [], false)

  const TWO_ADDS := [DoAdd(PINNING), DoAdd(PINNING)]

  /** Two requests with one lock name and queue size 1: the second is merged into the first, and once nothing is left to
      run, the lock is still registered. */
  lemma MergeLeaksLock() returns (acts: seq<Action>)
    ensures AllMove(Run(Init(1000), TWO_ADDS), acts)
    ensures var s := Run(Init(1000), TWO_ADDS + acts); NoneLive(s.jobs) && "pool" in s.registry
  {
    TwoAdded();
    acts := AllCanFinish(Run(Init(1000), TWO_ADDS));
    PinnedStays(Run(Init(1000), TWO_ADDS), acts);
    RunConcat(Init(1000), TWO_ADDS, acts);
  }

  lemma TwoAdded()
    ensures Reachable(Run(Init(1000), TWO_ADDS)) && OneMerged(Run(Init(1000), TWO_ADDS))
  {
    var s1 := Step(Init(1000), DoAdd(PINNING));
    FirstQueued(Init(1000));
    SecondMerges(s1);
    assert TWO_ADDS[1..] == [DoAdd(PINNING)];
    assert Run(s1, TWO_ADDS[1..]) == Step(s1, DoAdd(PINNING));
  }

  /** The merged job keeps its lock's name registered. */
  lemma PinnedStays(s: Sys, acts: seq<Action>)
    requires Reachable(s) && OneMerged(s)
    ensures "pool" in Run(s, acts).registry
  {
    var s1 := Run(s, acts);
    TurnedAwayPinsLock(s, acts, 1);
    ReachableInv(s);
    RunEvolves(s, acts);
    RunInv(s, acts);
    assert Evolves(s.jobs[1], s1.jobs[1]);
    assert HasLock(s1.jobs, 1, 0);
  }

  /** One job waits on the lock. */
  ghost predicate OneQueued(s: Sys) {
    && Refs(s) && |s.jobs| == 1 && |s.locks| == 1 && s.queue == [0] && s.registry == map["pool" := 0]
    && s.jobs[0] == NewJob(PINNING, Some(0)).(id := Some(1), phase := Queued)
  }

  lemma FirstQueued(s: Sys)
    requires s == Init(1000)
    ensures OneQueued(Step(s, DoAdd(PINNING)))
  {
    var s1 := HandleLock(s, PINNING);
    assert Admission(s1, 0).Accept?;
    assert Step(s, DoAdd(PINNING)) == Enqueue(s1, 0);
  }

  /** And another one was turned away and has it too. */
  ghost predicate OneMerged(s: Sys) {
    && Refs(s) && |s.jobs| == 2 && s.jobs[1].req == PINNING
    && s.jobs[1].phase.TurnedAway? && s.jobs[1].lock == Some(0)
  }

  lemma SecondMerges(s: Sys)
    requires OneQueued(s)
    ensures OneMerged(Step(s, DoAdd(PINNING)))
  {
    var s1 := HandleLock(s, PINNING);
    assert OnLock(s1.jobs, s1.queue, Some(0)) == [0] by {
      assert s1.queue[..0] == [];
    }
    assert Admission(s1, 1) == MergeInto(0);
  }
}
