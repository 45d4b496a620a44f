/** Order and conservation over whole runs of the scheduler: first come first served per lock name, the number of
    releases a job waits for, the bound on waiting jobs, and what becomes of message ids. */
module JobOrder {
  import opened Prelude
  import opened JobModel
  import opened JobSafety
  import opened JobTheorems

  // ----- first come, first served

  /** The members of `q` whose lock name is `n`, in order. */
  ghost function ForName(jobs: seq<Job>, q: seq<nat>, n: LockName): seq<nat> {
    if q == [] then []
    else
      var x := q[|q| - 1];
      ForName(jobs, q[..|q| - 1], n) + (if x < |jobs| && jobs[x].req.lockName == n then [x] else [])
  }

  lemma {:induction false} ForNameConcat(jobs: seq<Job>, p: seq<nat>, q: seq<nat>, n: LockName)
    ensures ForName(jobs, p + q, n) == ForName(jobs, p, n) + ForName(jobs, q, n)
  {
    if q == [] {
      assert p + q == p;
    } else {
      ForNameConcat(jobs, p, q[..|q| - 1], n);
      assert (p + q)[..|p + q| - 1] == p + q[..|q| - 1];
    }
  }

  lemma {:induction false} ForNameStable(s: Sys, s': Sys, q: seq<nat>, n: LockName)
    requires AllEvolve(s, s') && forall i :: 0 <= i < |q| ==> q[i] < |s.jobs|
    ensures ForName(s'.jobs, q, n) == ForName(s.jobs, q, n)
  {
    if q != [] {
      ForNameStable(s, s', q[..|q| - 1], n);
      assert Evolves(s.jobs[q[|q| - 1]], s'.jobs[q[|q| - 1]]);
    }
  }

  lemma {:induction false} ForNameNone(jobs: seq<Job>, q: seq<nat>, n: LockName)
    requires forall i :: 0 <= i < |q| ==> q[i] < |jobs| && jobs[q[i]].req.lockName != n
    ensures ForName(jobs, q, n) == []
  {
    if q != [] {
      ForNameNone(jobs, q[..|q| - 1], n);
    }
  }

  /** The job a step admits to the queue, if it does. */
  function AddedBy(s: Sys, a: Action): seq<nat>
    requires Refs(s)
  {
    if a.DoAdd? && !a.req.lockName.NameError? && Admission(HandleLock(s, a.req), |s.jobs|).Accept? then [|s.jobs|]
    else []
  }

  /** The job a step takes off the queue, if it does. */
  function TakenBy(s: Sys, a: Action): seq<nat>
    requires Refs(s)
  {
    if a.DoNext? && s.event && FirstRunnable(s, 0) < |s.queue| then [s.queue[FirstRunnable(s, 0)]] else []
  }

  function Added(s: Sys, acts: seq<Action>): seq<nat>
    requires Refs(s)
    decreases |acts|
  {
    if acts == [] then [] else AddedBy(s, acts[0]) + Added(Step(s, acts[0]), acts[1..])
  }

  function Taken(s: Sys, acts: seq<Action>): seq<nat>
    requires Refs(s)
    decreases |acts|
  {
    if acts == [] then [] else TakenBy(s, acts[0]) + Taken(Step(s, acts[0]), acts[1..])
  }

  /** Two jobs that have not released their lock share it exactly when they have the same lock name. */
  lemma SameLockIffSameName(s: Sys, j: nat, k: nat)
    requires Inv(s) && j < |s.jobs| && k < |s.jobs|
    requires !s.jobs[j].phase.Finished? && !s.jobs[k].phase.Finished?
    ensures s.jobs[j].lock == s.jobs[k].lock <==> s.jobs[j].req.lockName == s.jobs[k].req.lockName
  {
    if s.jobs[j].lock.Some? && s.jobs[k].lock.Some? {
      var l, m := s.jobs[j].lock.value, s.jobs[k].lock.value;
      assert HasLock(s.jobs, j, l) && HasLock(s.jobs, k, m);
      assert Owes(s.jobs, j, l) && Owes(s.jobs, k, m);
      assert j in s.locks[l].jobs && k in s.locks[m].jobs;
    } else if s.jobs[j].lock.Some? {
      assert HasLock(s.jobs, j, s.jobs[j].lock.value);
    } else if s.jobs[k].lock.Some? {
      assert HasLock(s.jobs, k, s.jobs[k].lock.value);
    }
  }

  /** The job taken from position `i` is the first of its lock name in the queue. */
  lemma FirstOfItsName(s: Sys, i: nat, k: nat)
    requires Inv(s) && i == FirstRunnable(s, 0) && k < i < |s.queue|
    ensures s.jobs[s.queue[k]].req.lockName != s.jobs[s.queue[i]].req.lockName
  {
    assert s.queue[k] in s.queue && s.queue[i] in s.queue;
    SameLockIffSameName(s, s.queue[k], s.queue[i]);
  }

  /** Moving the first member of a name to the front changes no name's order. */
  lemma MoveToFront(jobs: seq<Job>, q: seq<nat>, i: nat, n: LockName)
    requires i < |q| && forall m :: 0 <= m < |q| ==> q[m] < |jobs|
    requires forall k :: 0 <= k < i ==> jobs[q[k]].req.lockName != jobs[q[i]].req.lockName
    ensures ForName(jobs, q, n) == ForName(jobs, [q[i]] + RemoveAt(q, i), n)
  {
    var p, x, r := q[..i], [q[i]], q[i + 1..];
    assert q == (p + x) + r;
    assert x + RemoveAt(q, i) == (x + p) + r;
    assert ForName(jobs, p + x, n) == ForName(jobs, x + p, n) by {
      ForNameConcat(jobs, p, x, n);
      ForNameConcat(jobs, x, p, n);
      if jobs[q[i]].req.lockName == n {
        ForNameNone(jobs, p, n);
      } else {
        ForNameNone(jobs, x, n);
      }
    }
    ForNameConcat(jobs, p + x, r, n);
    ForNameConcat(jobs, x + p, r, n);
  }

  lemma TakeOrder(s: Sys, n: LockName)
    requires Inv(s) && s.event && FirstRunnable(s, 0) < |s.queue|
    ensures var i := FirstRunnable(s, 0);
            ForName(s.jobs, s.queue, n) == ForName(s.jobs, [s.queue[i]] + RemoveAt(s.queue, i), n)
  {
    var i := FirstRunnable(s, 0);
    forall k | 0 <= k < i
      ensures s.jobs[s.queue[k]].req.lockName != s.jobs[s.queue[i]].req.lockName
    {
      FirstOfItsName(s, i, k);
    }
    MoveToFront(s.jobs, s.queue, i, n);
  }

  lemma AddQueue(s: Sys, req: Request)
    requires Refs(s)
    ensures Add(s, req).queue == s.queue + AddedBy(s, DoAdd(req))
  {
  }

  lemma StepQueue(s: Sys, a: Action)
    requires Refs(s) && !a.DoNext?
    ensures Step(s, a).queue == s.queue + AddedBy(s, a)
  {
    match a
    case DoAdd(req) => AddQueue(s, req);
    case DoStart(j, now) => assert Enabled(s, a) ==> Start(s, j, now).queue == s.queue;
    case DoEndMethod(j, o, now) => assert Enabled(s, a) ==> EndMethod(s, j, o, now).queue == s.queue;
    case DoFinish(j) => assert Enabled(s, a) ==> Finish(s, j).queue == s.queue;
    case _ =>
  }

  lemma SameOrderStable(s: Sys, s': Sys, p: seq<nat>, q: seq<nat>, n: LockName)
    requires AllEvolve(s, s')
    requires (forall i :: 0 <= i < |p| ==> p[i] < |s.jobs|) && (forall i :: 0 <= i < |q| ==> q[i] < |s.jobs|)
    requires ForName(s.jobs, p, n) == ForName(s.jobs, q, n)
    ensures ForName(s'.jobs, p, n) == ForName(s'.jobs, q, n)
  {
    ForNameStable(s, s', p, n);
    ForNameStable(s, s', q, n);
  }

  lemma NextOrder(s: Sys, n: LockName)
    requires Inv(s)
    ensures var s' := Step(s, DoNext);
            ForName(s'.jobs, s.queue, n) == ForName(s'.jobs, TakenBy(s, DoNext) + s'.queue, n)
  {
    if TakenBy(s, DoNext) != [] {
      var i := FirstRunnable(s, 0);
      var q := [s.queue[i]] + RemoveAt(s.queue, i);
      NextEvolves(s);
      TakeOrder(s, n);
      TakenThenQueued(s);
      SameOrderStable(s, Next(s), s.queue, q, n);
    } else {
      assert TakenBy(s, DoNext) + Step(s, DoNext).queue == s.queue;
    }
  }

  lemma TakenThenQueued(s: Sys)
    requires Refs(s) && s.event && FirstRunnable(s, 0) < |s.queue|
    ensures var i := FirstRunnable(s, 0);
            var q := [s.queue[i]] + RemoveAt(s.queue, i);
            && TakenBy(s, DoNext) + Step(s, DoNext).queue == q && Step(s, DoNext) == Next(s)
            && forall k :: 0 <= k < |q| ==> q[k] < |s.jobs|
  {
  }

  lemma StepOrder(s: Sys, a: Action, n: LockName)
    requires Inv(s)
    ensures var jobs := Step(s, a).jobs;
            ForName(jobs, s.queue, n) + ForName(jobs, AddedBy(s, a), n)
            == ForName(jobs, TakenBy(s, a), n) + ForName(jobs, Step(s, a).queue, n)
  {
    var s' := Step(s, a);
    if a.DoNext? {
      NextOrder(s, n);
      ForNameConcat(s'.jobs, TakenBy(s, a), s'.queue, n);
    } else {
      StepQueue(s, a);
      ForNameConcat(s'.jobs, s.queue, AddedBy(s, a), n);
    }
  }

  lemma AddedBounds(s: Sys, a: Action)
    requires Inv(s)
    ensures forall i :: 0 <= i < |AddedBy(s, a)| ==> AddedBy(s, a)[i] < |Step(s, a).jobs|
  {
    StepInv(s, a);
    if AddedBy(s, a) != [] {
      StepQueue(s, a);
      assert Step(s, a).queue[|s.queue|] == AddedBy(s, a)[0];
    }
  }

  lemma Chain(q0: seq<nat>, a0: seq<nat>, t0: seq<nat>, q1: seq<nat>, ar: seq<nat>, tr: seq<nat>, q2: seq<nat>)
    requires q0 + a0 == t0 + q1 && q1 + ar == tr + q2
    ensures q0 + (a0 + ar) == (t0 + tr) + q2
  {
    assert q0 + (a0 + ar) == (t0 + q1) + ar;
    assert (t0 + q1) + ar == t0 + (tr + q2);
  }

  /** Per lock name, the jobs taken followed by those still queued are the jobs queued at first followed by those
      admitted since: nothing overtakes, nothing is lost, nothing is taken twice. */
  lemma {:induction false} FirstComeFirstServed(s: Sys, acts: seq<Action>, n: LockName)
    requires Inv(s)
    ensures var s' := Run(s, acts);
            ForName(s'.jobs, s.queue, n) + ForName(s'.jobs, Added(s, acts), n)
            == ForName(s'.jobs, Taken(s, acts), n) + ForName(s'.jobs, s'.queue, n)
    decreases |acts|
  {
    if acts != [] {
      var s1, rest := Step(s, acts[0]), acts[1..];
      var jobs := Run(s1, rest).jobs;
      StepInv(s, acts[0]);
      FirstComeFirstServed(s1, rest, n);
      LiftOrder(s, acts[0], rest, n);
      ForNameConcat(jobs, AddedBy(s, acts[0]), Added(s1, rest), n);
      ForNameConcat(jobs, TakenBy(s, acts[0]), Taken(s1, rest), n);
      Chain(ForName(jobs, s.queue, n), ForName(jobs, AddedBy(s, acts[0]), n), ForName(jobs, TakenBy(s, acts[0]), n),
            ForName(jobs, s1.queue, n), ForName(jobs, Added(s1, rest), n), ForName(jobs, Taken(s1, rest), n),
            ForName(jobs, Run(s1, rest).queue, n));
    }
  }

  /** What the first step of a run does to the order still reads the same at the end of the run. */
  lemma LiftOrder(s: Sys, a: Action, rest: seq<Action>, n: LockName)
    requires Inv(s)
    ensures var jobs := Run(Step(s, a), rest).jobs;
            ForName(jobs, s.queue, n) + ForName(jobs, AddedBy(s, a), n)
            == ForName(jobs, TakenBy(s, a), n) + ForName(jobs, Step(s, a).queue, n)
  {
    var s1 := Step(s, a);
    OrderBounds(s, a);
    StepOrder(s, a, n);
    assert AllEvolve(s1, Run(s1, rest)) by {
      StepInv(s, a);
      RunEvolves(s1, rest);
    }
    ForNameStable(s1, Run(s1, rest), s.queue, n);
    ForNameStable(s1, Run(s1, rest), AddedBy(s, a), n);
    ForNameStable(s1, Run(s1, rest), TakenBy(s, a), n);
    ForNameStable(s1, Run(s1, rest), s1.queue, n);
  }

  lemma OrderBounds(s: Sys, a: Action)
    requires Inv(s)
    ensures |s.jobs| <= |Step(s, a).jobs|
    ensures forall i :: 0 <= i < |AddedBy(s, a)| ==> AddedBy(s, a)[i] < |Step(s, a).jobs|
    ensures forall i :: 0 <= i < |TakenBy(s, a)| ==> TakenBy(s, a)[i] < |Step(s, a).jobs|
  {
    StepEvolves(s, a);
    AddedBounds(s, a);
  }

  // ----- how many releases a queued job waits for

  /** How many jobs before `j` in `q` have the same lock as `j`. */
  ghost function Before(jobs: seq<Job>, q: seq<nat>, j: nat): nat
    requires j < |jobs|
  {
    if q == [] || q[0] == j then 0
    else (if q[0] < |jobs| && jobs[q[0]].lock == jobs[j].lock then 1 else 0) + Before(jobs, q[1..], j)
  }

  /** The earlier live jobs on the lock of the queued job `j`: those queued before it, and the holder. */
  ghost function Ahead(s: Sys, j: nat): nat
    requires Refs(s) && j < |s.jobs| && s.jobs[j].lock.Some?
  {
    Before(s.jobs, s.queue, j) + (if s.locks[s.jobs[j].lock.value].locked then 1 else 0)
  }

  ghost predicate Releases(s: Sys, a: Action, l: nat) {
    a.DoFinish? && Enabled(s, a) && s.jobs[a.job].lock == Some(l)
  }

  ghost function ReleaseCount(s: Sys, acts: seq<Action>, l: nat): nat
    requires Refs(s)
    decreases |acts|
  {
    if acts == [] then 0
    else (if Releases(s, acts[0], l) then 1 else 0) + ReleaseCount(Step(s, acts[0]), acts[1..], l)
  }

  lemma {:induction false} BeforeStable(jobs: seq<Job>, jobs': seq<Job>, q: seq<nat>, j: nat)
    requires j < |jobs| <= |jobs'| && forall i :: 0 <= i < |q| ==> q[i] < |jobs|
    requires forall k :: 0 <= k < |jobs| ==> jobs'[k].lock == jobs[k].lock
    ensures Before(jobs', q, j) == Before(jobs, q, j)
  {
    if q != [] && q[0] != j {
      BeforeStable(jobs, jobs', q[1..], j);
    }
  }

  lemma {:induction false} BeforeAppend(jobs: seq<Job>, q: seq<nat>, r: seq<nat>, j: nat)
    requires j < |jobs| && j in q
    ensures Before(jobs, q + r, j) == Before(jobs, q, j)
  {
    if q[0] != j {
      assert (q + r)[1..] == q[1..] + r;
      BeforeAppend(jobs, q[1..], r, j);
    }
  }

  lemma {:induction false} BeforeRemove(jobs: seq<Job>, q: seq<nat>, i: nat, k: nat)
    requires Distinct(q) && i < |q| && k < |q| && i != k && forall m :: 0 <= m < |q| ==> q[m] < |jobs|
    ensures Before(jobs, q, q[k])
         == Before(jobs, RemoveAt(q, i), q[k]) + (if i < k && jobs[q[i]].lock == jobs[q[k]].lock then 1 else 0)
  {
    if i == 0 {
      assert RemoveAt(q, 0) == q[1..];
    } else if k > 0 {
      assert RemoveAt(q, i)[1..] == RemoveAt(q[1..], i - 1);
      BeforeRemove(jobs, q[1..], i - 1, k - 1);
    }
  }

  lemma TakeAhead(s: Sys, j: nat)
    requires Refs(s) && Distinct(s.queue) && s.event && FirstRunnable(s, 0) < |s.queue|
    requires j in s.queue && j != s.queue[FirstRunnable(s, 0)] && s.jobs[j].lock.Some?
    ensures var s' := Next(s); s'.jobs[j].lock == s.jobs[j].lock && Ahead(s', j) == Ahead(s, j)
  {
    var s', i := Next(s), FirstRunnable(s, 0);
    var k :| 0 <= k < |s.queue| && s.queue[k] == j;
    BeforeRemove(s.jobs, s.queue, i, k);
    BeforeStable(s.jobs, s'.jobs, s'.queue, j);
  }

  /** A finish frees its own lock, which was held, and no other. */
  lemma FinishFrees(s: Sys, k: nat, l: nat)
    requires Inv(s) && k < |s.jobs| && s.jobs[k].phase.Closing? && l < |s.locks|
    ensures var s' := Finish(s, k);
            && l < |s'.locks|
            && (if s.jobs[k].lock == Some(l) then s.locks[l].locked && !s'.locks[l].locked
                else s'.locks[l].locked == s.locks[l].locked)
  {
    if s.jobs[k].lock == Some(l) {
      assert HolderOf(s.jobs, k, l);
      assert !Finish(s, k).crashed by {
        FinishInv(s, k);
      }
    }
  }

  lemma FinishAhead(s: Sys, j: nat, k: nat)
    requires Inv(s) && j in s.queue && s.jobs[j].lock.Some? && k < |s.jobs| && s.jobs[k].phase.Closing?
    ensures var s' := Finish(s, k);
            && s'.jobs[j].lock == s.jobs[j].lock
            && Ahead(s, j) == Ahead(s', j) + (if s.jobs[k].lock == s.jobs[j].lock then 1 else 0)
  {
    var s', l := Finish(s, k), s.jobs[j].lock.value;
    BeforeStable(s.jobs, s'.jobs, s.queue, j);
    FinishFrees(s, k, l);
  }

  lemma OtherAhead(s: Sys, a: Action, j: nat)
    requires Inv(s) && j in s.queue && s.jobs[j].lock.Some? && !a.DoNext? && !a.DoFinish?
    ensures var s' := Step(s, a);
            Refs(s') && j < |s'.jobs| && s'.jobs[j].lock == s.jobs[j].lock && Ahead(s', j) == Ahead(s, j)
  {
    var s' := Step(s, a);
    StepEvolves(s, a);
    StepQueue(s, a);
    BeforeStable(s.jobs, s'.jobs, s.queue, j);
    BeforeAppend(s'.jobs, s.queue, AddedBy(s, a), j);
    OtherLocked(s, a, s.jobs[j].lock.value);
  }

  lemma OtherLocked(s: Sys, a: Action, l: nat)
    requires Refs(s) && l < |s.locks| && !a.DoNext? && !a.DoFinish?
    ensures l < |Step(s, a).locks| && Step(s, a).locks[l].locked == s.locks[l].locked
  {
    if a.DoAdd? && !a.req.lockName.NameError? {
      var s1 := HandleLock(s, a.req);
      assert s1.locks[l].locked == s.locks[l].locked;
      assert Step(s, a).locks == s1.locks;
    }
  }

  lemma StepAhead(s: Sys, a: Action, j: nat)
    requires Inv(s) && j in s.queue && s.jobs[j].lock.Some? && j in Step(s, a).queue
    ensures var s' := Step(s, a);
            && Refs(s') && j < |s'.jobs| && s'.jobs[j].lock == s.jobs[j].lock
            && Ahead(s, j) == Ahead(s', j) + (if Releases(s, a, s.jobs[j].lock.value) then 1 else 0)
  {
    if a.DoNext? {
      if TakenBy(s, a) != [] {
        RemoveAtMembers(s.queue, FirstRunnable(s, 0));
        TakeAhead(s, j);
      }
    } else if a.DoFinish? {
      if Enabled(s, a) {
        FinishAhead(s, j, a.job);
      }
    } else {
      OtherAhead(s, a, j);
    }
  }

  lemma StaysQueued(s: Sys, acts: seq<Action>, j: nat)
    requires Inv(s) && acts != [] && j in s.queue && j in Run(s, acts).queue
    ensures j in Step(s, acts[0]).queue
  {
    var s1 := Step(s, acts[0]);
    StepInv(s, acts[0]);
    StepEvolves(s, acts[0]);
    RunInv(s1, acts[1..]);
    RunEvolves(s1, acts[1..]);
    assert Evolves(s.jobs[j], s1.jobs[j]) && Evolves(s1.jobs[j], Run(s, acts).jobs[j]);
  }

  /** While a job stays queued, exactly the releases of its lock bring it forward, one place each. */
  lemma {:induction false} AheadCountsReleases(s: Sys, acts: seq<Action>, j: nat)
    requires Inv(s) && j in s.queue && s.jobs[j].lock.Some? && j in Run(s, acts).queue
    ensures var s' := Run(s, acts);
            && Refs(s') && j < |s'.jobs| && s'.jobs[j].lock == s.jobs[j].lock
            && Ahead(s', j) + ReleaseCount(s, acts, s.jobs[j].lock.value) == Ahead(s, j)
    decreases |acts|
  {
    if acts != [] {
      StaysQueued(s, acts, j);
      StepAhead(s, acts[0], j);
      StepInv(s, acts[0]);
      AheadCountsReleases(Step(s, acts[0]), acts[1..], j);
    }
  }

  lemma {:induction false} NothingBefore(jobs: seq<Job>, q: seq<nat>, k: nat)
    requires Distinct(q) && k < |q| && forall m :: 0 <= m < |q| ==> q[m] < |jobs|
    ensures Before(jobs, q, q[k]) == 0 <==> forall m :: 0 <= m < k ==> jobs[q[m]].lock != jobs[q[k]].lock
  {
    if k > 0 {
      var r := q[1..];
      NothingBefore(jobs, r, k - 1);
      assert r[k - 1] == q[k];
      assert forall m :: 0 <= m < k - 1 ==> r[m] == q[m + 1];
      assert forall m :: 1 <= m < k ==> q[m] == r[m - 1];
    }
  }

  /** Whatever happens to other locks, a job is taken only after exactly as many releases of its lock as there were
      earlier live jobs on it. */
  lemma TakenAfterExactlyAhead(s: Sys, acts: seq<Action>, j: nat)
    requires Inv(s) && j in s.queue && s.jobs[j].lock.Some?
    requires TakenBy(Run(s, acts), DoNext) == [j]
    ensures ReleaseCount(s, acts, s.jobs[j].lock.value) == Ahead(s, j)
  {
    var s' := Run(s, acts);
    assert s'.queue[FirstRunnable(s', 0)] in s'.queue;
    AheadCountsReleases(s, acts, j);
    assert Ahead(s', j) == 0 by {
      RunInv(s, acts);
      TakenIsAtHead(s', j);
    }
  }

  lemma TakenIsAtHead(s: Sys, j: nat)
    requires Refs(s) && Distinct(s.queue) && TakenBy(s, DoNext) == [j] && s.jobs[j].lock.Some?
    ensures Ahead(s, j) == 0
  {
    var i := FirstRunnable(s, 0);
    forall m | 0 <= m < i
      ensures s.jobs[s.queue[m]].lock != s.jobs[j].lock
    {
      assert !Runnable(s, s.queue[m]);
    }
    NothingBefore(s.jobs, s.queue, i);
  }

  /** And after that many releases it is runnable, with no queued job of its lock before it. */
  lemma RunnableAfterAhead(s: Sys, acts: seq<Action>, j: nat, k: nat)
    requires Inv(s) && j in s.queue && s.jobs[j].lock.Some?
    requires k < |Run(s, acts).queue| && Run(s, acts).queue[k] == j
    requires ReleaseCount(s, acts, s.jobs[j].lock.value) == Ahead(s, j)
    ensures var s' := Run(s, acts);
            && Refs(s') && j < |s'.jobs| && Runnable(s', j)
            && forall m :: 0 <= m < k ==> s'.jobs[s'.queue[m]].lock != s'.jobs[j].lock
  {
    RunInv(s, acts);
    AheadCountsReleases(s, acts, j);
    NothingBefore(Run(s, acts).jobs, Run(s, acts).queue, k);
  }

  // ----- the bound on waiting jobs

  ghost predicate SizedBy(a: Action, n: LockName, size: int) {
    a.DoAdd? && a.req.lockName == n ==> a.req.queueSize == Some(size)
  }

  lemma {:induction false} OnLockForName(s: Sys, q: seq<nat>, j: nat)
    requires Inv(s) && j < |s.jobs| && !s.jobs[j].phase.Finished?
    requires forall i :: 0 <= i < |q| ==> q[i] < |s.jobs| && !s.jobs[q[i]].phase.Finished?
    ensures OnLock(s.jobs, q, s.jobs[j].lock) == ForName(s.jobs, q, s.jobs[j].req.lockName)
  {
    if q != [] {
      OnLockForName(s, q[..|q| - 1], j);
      SameLockIffSameName(s, q[|q| - 1], j);
    }
  }

  lemma QueueSameCount(s: Sys, j: nat)
    requires Inv(s) && j < |s.jobs| && !s.jobs[j].phase.Finished?
    ensures OnLock(s.jobs, s.queue, s.jobs[j].lock) == ForName(s.jobs, s.queue, s.jobs[j].req.lockName)
  {
    assert forall i :: 0 <= i < |s.queue| ==> s.queue[i] in s.queue;
    OnLockForName(s, s.queue, j);
  }

  lemma NewKeepsJobs(s: Sys, req: Request)
    requires Refs(s) && !req.lockName.NameError?
    ensures var s1 := HandleLock(s, req);
            && AllEvolve(s, s1) && |s1.jobs| == |s.jobs| + 1 && s1.jobs[..|s.jobs|] == s.jobs && s1.queue == s.queue
            && s1.jobs[|s.jobs|].req == req && s1.jobs[|s.jobs|].messageIds == req.messageIds
            && s1.jobs[|s.jobs|].phase.TurnedAway?
  {
  }

  lemma AcceptMeansRoom(s: Sys, j: nat, size: int)
    requires Refs(s) && j < |s.jobs| && s.jobs[j].req.queueSize == Some(size) && size >= 1 && Admission(s, j).Accept?
    ensures |OnLock(s.jobs, s.queue, s.jobs[j].lock)| < size
  {
  }

  lemma NewSameCount(s: Sys, req: Request)
    requires Inv(s) && !req.lockName.NameError?
    ensures var s1 := HandleLock(s, req);
            && |s1.jobs| == |s.jobs| + 1
            && OnLock(s1.jobs, s1.queue, s1.jobs[|s.jobs|].lock) == ForName(s1.jobs, s1.queue, req.lockName)
  {
    HandleLockInv(s, req);
    NewKeepsJobs(s, req);
    QueueSameCount(HandleLock(s, req), |s.jobs|);
  }

  lemma AddWithinSize(s: Sys, req: Request, size: int)
    requires Inv(s) && !req.lockName.NameError? && req.queueSize == Some(size) && size >= 1
    requires AddedBy(s, DoAdd(req)) != []
    ensures |ForName(s.jobs, s.queue, req.lockName)| < size
  {
    var s1 := HandleLock(s, req);
    NewKeepsJobs(s, req);
    AcceptMeansRoom(s1, |s.jobs|, size);
    NewSameCount(s, req);
    ForNameStable(s, s1, s.queue, req.lockName);
  }

  lemma StepWithinSize(s: Sys, a: Action, n: LockName, size: int)
    requires Inv(s) && size >= 1 && SizedBy(a, n, size) && |ForName(s.jobs, s.queue, n)| <= size
    ensures |ForName(Step(s, a).jobs, Step(s, a).queue, n)| <= size
  {
    var s' := Step(s, a);
    StepOrder(s, a, n);
    StepEvolves(s, a);
    ForNameStable(s, s', s.queue, n);
    if AddedBy(s, a) != [] {
      assert AddedBy(s, a) == [|s.jobs|];
      assert ForName(s'.jobs, [], n) == [];
      if a.req.lockName == n {
        AddWithinSize(s, a.req, size);
      } else {
        AddedName(s, a);
      }
    }
  }

  lemma AddedName(s: Sys, a: Action)
    requires Inv(s) && AddedBy(s, a) != []
    ensures |s.jobs| < |Step(s, a).jobs| && Step(s, a).jobs[|s.jobs|].req == a.req
  {
  }

  /** If all requests of a lock name use the same queue size k >= 1, at most k jobs of that name ever wait. */
  lemma {:induction false} AtMostSizeWait(s: Sys, acts: seq<Action>, n: LockName, size: int)
    requires Inv(s) && size >= 1 && |ForName(s.jobs, s.queue, n)| <= size
    requires forall i :: 0 <= i < |acts| ==> SizedBy(acts[i], n, size)
    ensures |ForName(Run(s, acts).jobs, Run(s, acts).queue, n)| <= size
    decreases |acts|
  {
    if acts != [] {
      StepInv(s, acts[0]);
      StepWithinSize(s, acts[0], n, size);
      AtMostSizeWait(Step(s, acts[0]), acts[1..], n, size);
    }
  }

  // ----- message ids

  ghost function Ids(job: Job): multiset<string> {
    if job.phase.TurnedAway? then multiset{} else multiset(job.messageIds)
  }

  /** How often a message id is attached to admitted jobs, all together. */
  ghost function Attached(jobs: seq<Job>, id: string): nat {
    if jobs == [] then 0 else Attached(jobs[..|jobs| - 1], id) + Ids(jobs[|jobs| - 1])[id]
  }

  /** How often a step accepts a message id, in a new job or merged into a queued one. */
  ghost function AcceptedBy(s: Sys, a: Action, id: string): nat
    requires Refs(s)
  {
    if a.DoAdd? && !a.req.lockName.NameError?
       && (var v := Admission(HandleLock(s, a.req), |s.jobs|); v.Accept? || v.MergeInto?)
    then multiset(a.req.messageIds)[id] else 0
  }

  ghost function Accepted(s: Sys, acts: seq<Action>, id: string): nat
    requires Refs(s)
    decreases |acts|
  {
    if acts == [] then 0 else AcceptedBy(s, acts[0], id) + Accepted(Step(s, acts[0]), acts[1..], id)
  }

  lemma {:induction false} AttachedUpdate(jobs: seq<Job>, j: nat, x: Job, id: string)
    requires j < |jobs|
    ensures Attached(jobs[j := x], id) + Ids(jobs[j])[id] == Attached(jobs, id) + Ids(x)[id]
  {
    var n := |jobs| - 1;
    if j == n {
      assert jobs[j := x][..n] == jobs[..n];
    } else {
      assert jobs[j := x][..n] == jobs[..n][j := x];
      AttachedUpdate(jobs[..n], j, x, id);
    }
  }

  /** A new job has nothing attached until it is admitted. */
  lemma NewAttached(s: Sys, req: Request, id: string)
    requires Refs(s) && !req.lockName.NameError? && QueueOk(s.jobs, s.queue)
    ensures var s1 := HandleLock(s, req);
            && Attached(s1.jobs, id) == Attached(s.jobs, id) && |s1.jobs| == |s.jobs| + 1
            && s1.jobs[|s.jobs|].messageIds == req.messageIds && s1.jobs[|s.jobs|].phase.TurnedAway?
            && forall q: nat :: q in s1.queue ==> q < |s1.jobs| && !s1.jobs[q].phase.TurnedAway?
  {
    NewKeepsJobs(s, req);
    var s1 := HandleLock(s, req);
    forall q: nat | q in s1.queue
      ensures q < |s1.jobs| && !s1.jobs[q].phase.TurnedAway?
    {
      assert s1.jobs[..|s.jobs|][q] == s.jobs[q];
    }
  }

  lemma AddAttached(s: Sys, req: Request, id: string)
    requires Refs(s) && QueueOk(s.jobs, s.queue)
    ensures Attached(Add(s, req).jobs, id) == Attached(s.jobs, id) + AcceptedBy(s, DoAdd(req), id)
  {
    if !req.lockName.NameError? {
      NewAttached(s, req, id);
      AddedAttached(s, req, id);
    }
  }

  /** `add` attaches exactly what it accepts. */
  lemma AddedAttached(s: Sys, req: Request, id: string)
    requires Refs(s) && !req.lockName.NameError?
    requires var s1 := HandleLock(s, req);
             && |s1.jobs| == |s.jobs| + 1 && s1.jobs[|s.jobs|].messageIds == req.messageIds
             && s1.jobs[|s.jobs|].phase.TurnedAway?
             && forall q: nat :: q in s1.queue ==> q < |s1.jobs| && !s1.jobs[q].phase.TurnedAway?
    ensures Attached(Add(s, req).jobs, id) == Attached(HandleLock(s, req).jobs, id) + AcceptedBy(s, DoAdd(req), id)
  {
    var s1, j := HandleLock(s, req), |s.jobs|;
    AddJobs(s, req);
    var v := Admission(s1, j);
    assert AcceptedBy(s, DoAdd(req), id) == if v.Accept? || v.MergeInto? then multiset(req.messageIds)[id] else 0;
    if v.Accept? {
      AdmitAttached(s1.jobs, j, s1.count + 1, id);
    } else if v.MergeInto? {
      MergeAttached(s1.jobs, v.job, req.messageIds, id);
    }
  }

  lemma AdmitAttached(jobs: seq<Job>, j: nat, n: nat, id: string)
    requires j < |jobs| && jobs[j].phase.TurnedAway?
    ensures Attached(jobs[j := jobs[j].(id := Some(n), phase := Queued)], id)
         == Attached(jobs, id) + multiset(jobs[j].messageIds)[id]
  {
    AttachedUpdate(jobs, j, jobs[j].(id := Some(n), phase := Queued), id);
  }

  lemma MergeAttached(jobs: seq<Job>, q: nat, ids: seq<string>, id: string)
    requires q < |jobs| && !jobs[q].phase.TurnedAway?
    ensures Attached(jobs[q := jobs[q].(messageIds := jobs[q].messageIds + ids)], id)
         == Attached(jobs, id) + multiset(ids)[id]
  {
    var y := jobs[q].(messageIds := jobs[q].messageIds + ids);
    assert Ids(y) == Ids(jobs[q]) + multiset(ids);
    AttachedUpdate(jobs, q, y, id);
  }

  lemma OneAttached(s: Sys, s': Sys, j: nat, id: string)
    requires Quiet(s, s', j)
    ensures Attached(s'.jobs, id) == Attached(s.jobs, id)
  {
    AttachedUpdate(s.jobs, j, s'.jobs[j], id);
  }

  /** Steps other than `add` leave all message ids where they are. */
  ghost predicate Quiet(s: Sys, s': Sys, j: nat) {
    j < |s.jobs| == |s'.jobs| && s'.jobs == s.jobs[j := s'.jobs[j]] && Ids(s'.jobs[j]) == Ids(s.jobs[j])
  }

  lemma NextQuiet(s: Sys)
    requires Refs(s) && QueueOk(s.jobs, s.queue) && TakenBy(s, DoNext) != []
    ensures Quiet(s, Next(s), TakenBy(s, DoNext)[0])
  {
    assert TakenBy(s, DoNext)[0] in s.queue;
  }

  lemma StartQuiet(s: Sys, j: nat, now: int)
    requires Refs(s) && j < |s.jobs| && s.jobs[j].phase.Taken?
    ensures Quiet(s, Start(s, j, now), j)
  {
  }

  lemma EndMethodQuiet(s: Sys, j: nat, o: Outcome, now: int)
    requires Refs(s) && j < |s.jobs| && s.jobs[j].phase.InMethod?
    ensures Quiet(s, EndMethod(s, j, o, now), j)
  {
  }

  lemma FinishQuiet(s: Sys, j: nat)
    requires Refs(s) && j < |s.jobs| && s.jobs[j].phase.Closing?
    ensures Quiet(s, Finish(s, j), j)
  {
  }

  lemma StepAttached(s: Sys, a: Action, id: string)
    requires Inv(s)
    ensures Attached(Step(s, a).jobs, id) == Attached(s.jobs, id) + AcceptedBy(s, a, id)
  {
    if Enabled(s, a) {
      match a
      case DoAdd(req) => AddAttached(s, req, id);
      case DoNext =>
        if TakenBy(s, a) != [] {
          NextQuiet(s);
          OneAttached(s, Next(s), TakenBy(s, a)[0], id);
        }
      case DoStart(j, now) => StartQuiet(s, j, now); OneAttached(s, Start(s, j, now), j, id);
      case DoEndMethod(j, o, now) => EndMethodQuiet(s, j, o, now); OneAttached(s, EndMethod(s, j, o, now), j, id);
      case DoFinish(j) => FinishQuiet(s, j); OneAttached(s, Finish(s, j), j, id);
      case DoAbort(j) => OneAttached(s, Abort(s, j), j, id);
      case DoForget(_) =>
    }
  }

  /** Message ids are conserved: what the jobs carry is what was carried before plus what was accepted. */
  lemma {:induction false} MessageIdsConserved(s: Sys, acts: seq<Action>, id: string)
    requires Inv(s)
    ensures Attached(Run(s, acts).jobs, id) == Attached(s.jobs, id) + Accepted(s, acts, id)
    decreases |acts|
  {
    if acts != [] {
      StepInv(s, acts[0]);
      StepAttached(s, acts[0], id);
      MessageIdsConserved(Step(s, acts[0]), acts[1..], id);
    }
  }

  /** Job `j` is the only admitted job that carries the message id. */
  ghost predicate OnlyOwner(jobs: seq<Job>, id: string, j: nat) {
    j < |jobs| && forall k :: 0 <= k < |jobs| ==> (id in Ids(jobs[k]) <==> k == j)
  }

  lemma {:induction false} AttachedNowhere(jobs: seq<Job>, id: string)
    requires Attached(jobs, id) == 0
    ensures forall j :: 0 <= j < |jobs| ==> id !in Ids(jobs[j])
  {
    if jobs != [] {
      AttachedNowhere(jobs[..|jobs| - 1], id);
      assert forall k :: 0 <= k < |jobs| - 1 ==> jobs[..|jobs| - 1][k] == jobs[k];
    }
  }

  lemma {:induction false} AttachedOnce(jobs: seq<Job>, id: string) returns (j: nat)
    requires Attached(jobs, id) == 1
    ensures OnlyOwner(jobs, id, j)
  {
    var n := |jobs| - 1;
    assert forall k :: 0 <= k < n ==> jobs[..n][k] == jobs[k];
    if Attached(jobs[..n], id) == 1 {
      j := AttachedOnce(jobs[..n], id);
    } else {
      AttachedNowhere(jobs[..n], id);
      j := n;
    }
  }

  /** A message id accepted once over a whole run is attached to exactly one admitted job, merged or new. */
  lemma AcceptedOnceAttachedOnce(maxlen: nat, acts: seq<Action>, id: string)
    requires Accepted(Init(maxlen), acts, id) == 1
    ensures exists j: nat :: OnlyOwner(Run(Init(maxlen), acts).jobs, id, j)
  {
    InitInv(maxlen);
    MessageIdsConserved(Init(maxlen), acts, id);
    var j := AttachedOnce(Run(Init(maxlen), acts).jobs, id);
  }
}
