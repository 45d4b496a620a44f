/**
 The cluster protocol by which a node joins or leaves a lockspace of the kernel's distributed lock manager: stop the
 lockspace on all members, reconfigure, start again. Each phase is an `asyncio.gather` over the members, so the kernel
 calls of different nodes interleave freely; the phases themselves follow each other. One operation runs at a time
 and the peers are connected.
 */
module Dlm {
  import opened Prelude

  type NodeId = nat

  /** One node's view of the lockspace: its sysfs directory exists, the kernel lockspace runs, the middleware's
      `stopped` flag, and the configured members. */
  datatype Node = Node(present: bool, running: bool, stopped: bool, members: set<NodeId>)

  type Nodes = map<NodeId, Node>

  // ----- kernel calls on one node

  function Stop(n: Node): Node {
    if !n.stopped then n.(running := false, stopped := true) else n
  }

  function Start(n: Node): Node {
    if n.stopped then n.(running := true, stopped := false) else n
  }

  /** `lockspace_leave`: the configuration goes, and with it the `stopped` entry. */
  function Leave(n: Node): Node {
    n.(stopped := false, members := {})
  }

  /** Once `event_done` is written the kernel drops the lockspace. */
  function Drop(n: Node): Node {
    n.(present := false)
  }

  // ----- the protocol

  /** What is left of one node's part of the reconfiguration. */
  datatype Task = Begin | Adding(rest: set<NodeId>) | EventDone

  datatype Stage =
    | Idle
    | JoinStop(ids: set<NodeId>, todo: set<NodeId>)
    | JoinConfig(ids: set<NodeId>, tasks: map<NodeId, Task>)
    | LeaveStop(ids: set<NodeId>, todo: set<NodeId>)
    | LeaveConfig(ids: set<NodeId>, tasks: map<NodeId, Task>)
    | LeaveStart(ids: set<NodeId>, todo: set<NodeId>)

  datatype Sys = Sys(nodes: Nodes, me: NodeId, stage: Stage)

  function Present(nodes: Nodes): set<NodeId> {
    set n | n in nodes && nodes[n].present
  }

  /** `lockspace_members`: a node id counts only when it is truthy. */
  function LockspaceMembers(nodes: Nodes): set<NodeId> {
    set n | n in nodes && nodes[n].present && n != 0
  }

  /** Node ids that are not truthy are left out. */
  lemma ZeroIsNoMember(nodes: Nodes)
    ensures LockspaceMembers(nodes) == Present(nodes) - {0}
  {
  }

  function Tasks(ids: set<NodeId>): map<NodeId, Task> {
    map n | n in ids :: Begin
  }

  /** `JoinBegins` and `LeaveBegins` are the kernel's online and offline events; `Act` is the next kernel call of a
      node in the running phase, with the node id it adds where it has a choice; `Advance` ends a gather. */
  datatype Action = JoinBegins(node: NodeId) | LeaveBegins(node: NodeId) | Act(node: NodeId, added: NodeId) | Advance

  predicate Enabled(s: Sys, a: Action) {
    match a
    case JoinBegins(me) => s.stage.Idle? && me in s.nodes && !s.nodes[me].present
    case LeaveBegins(me) => s.stage.Idle? && me in s.nodes && s.nodes[me].present
    case Act(n, x) =>
      n in s.nodes &&
      (match s.stage
       case Idle => false
       case JoinStop(_, todo) => n in todo
       case LeaveStop(_, todo) => n in todo
       case LeaveStart(_, todo) => n in todo
       case LeaveConfig(_, tasks) => n in tasks
       case JoinConfig(_, tasks) => n in tasks && (tasks[n].Adding? && tasks[n].rest != {} ==> x in tasks[n].rest))
    case Advance =>
      match s.stage
      case Idle => false
      case JoinConfig(_, tasks) => tasks == map[]
      case LeaveConfig(_, tasks) => tasks == map[]
      case _ => s.stage.todo == {}
  }

  function ActJoin(s: Sys, n: NodeId, x: NodeId): Sys
    requires n in s.nodes && s.stage.JoinConfig? && n in s.stage.tasks
  {
    var node, task, tasks, ids := s.nodes[n], s.stage.tasks[n], s.stage.tasks, s.stage.ids;
    match task
    case Begin =>
      if !node.stopped then s.(stage := JoinConfig(ids, tasks - {n}))
      else s.(stage := JoinConfig(ids, tasks[n := Adding(if n == s.me then ids else {s.me})]))
    case Adding(rest) =>
      if rest == {} then s.(nodes := s.nodes[n := Start(node)], stage := JoinConfig(ids, tasks - {n}))
      else s.(nodes := s.nodes[n := node.(members := node.members + {x})],
              stage := JoinConfig(ids, tasks[n := Adding(rest - {x})]))
    case EventDone => s
  }

  function ActLeave(s: Sys, n: NodeId): Sys
    requires n in s.nodes && s.stage.LeaveConfig? && n in s.stage.tasks
  {
    var node, task, tasks, ids := s.nodes[n], s.stage.tasks[n], s.stage.tasks, s.stage.ids;
    if n != s.me then
      s.(nodes := s.nodes[n := node.(members := node.members - {s.me})], stage := LeaveConfig(ids, tasks - {n}))
    else if task.Begin? then
      s.(nodes := s.nodes[n := Leave(node)], stage := LeaveConfig(ids, tasks[n := EventDone]))
    else
      s.(nodes := s.nodes[n := Drop(node)], stage := LeaveConfig(ids, tasks - {n}))
  }

  function DoAct(s: Sys, n: NodeId, x: NodeId): Sys
    requires Enabled(s, Act(n, x))
  {
    match s.stage
    case JoinStop(ids, todo) => s.(nodes := s.nodes[n := Stop(s.nodes[n])], stage := JoinStop(ids, todo - {n}))
    case LeaveStop(ids, todo) => s.(nodes := s.nodes[n := Stop(s.nodes[n])], stage := LeaveStop(ids, todo - {n}))
    case LeaveStart(ids, todo) => s.(nodes := s.nodes[n := Start(s.nodes[n])], stage := LeaveStart(ids, todo - {n}))
    case JoinConfig(_, _) => ActJoin(s, n, x)
    case LeaveConfig(_, _) => ActLeave(s, n)
  }

  function DoAdvance(s: Sys): Sys {
    match s.stage
    case JoinStop(ids, _) => s.(stage := JoinConfig(ids + {s.me}, Tasks(ids + {s.me})))
    case LeaveStop(ids, _) => s.(stage := LeaveConfig(ids, Tasks(ids)))
    case LeaveConfig(ids, _) => s.(stage := LeaveStart(ids - {s.me}, ids - {s.me}))
    case _ => s.(stage := Idle)
  }

  /** The kernel creates the joining node's lockspace, not running; the join marks it stopped and asks for members. */
  function BeginJoin(s: Sys, me: NodeId): Sys
    requires me in s.nodes
  {
    var nodes := s.nodes[me := s.nodes[me].(present := true, running := false, stopped := true)];
    var ids := LockspaceMembers(nodes);
    Sys(nodes, me, JoinStop(ids, ids))
  }

  function BeginLeave(s: Sys, me: NodeId): Sys {
    var ids := LockspaceMembers(s.nodes);
    Sys(s.nodes, me, LeaveStop(ids, ids))
  }

  function Step(s: Sys, a: Action): Sys {
    if !Enabled(s, a) then s
    else
      match a
      case JoinBegins(me) => BeginJoin(s, me)
      case LeaveBegins(me) => BeginLeave(s, me)
      case Act(n, x) => DoAct(s, n, x)
      case Advance => DoAdvance(s)
  }

  function Run(s: Sys, acts: seq<Action>): Sys
    decreases |acts|
  {
    if acts == [] then s else Run(Step(s, acts[0]), acts[1..])
  }

  // ----- the invariant

  /** A node that is not in the lockspace. */
  const OUT := Node(false, false, false, {})

  /** A member whose lockspace runs. */
  function Up(members: set<NodeId>): Node {
    Node(true, true, false, members)
  }

  /** A member whose lockspace is stopped. */
  function Down(members: set<NodeId>): Node {
    Node(true, false, true, members)
  }

  /** At rest every present node runs with exactly the present nodes as members. */
  ghost predicate AtRest(nodes: Nodes) {
    && 0 !in nodes
    && (forall n :: n in nodes ==> nodes[n] == if nodes[n].present then Up(Present(nodes)) else OUT)
  }

  /** Outside `ids` nobody takes part. */
  ghost predicate Others(nodes: Nodes, ids: set<NodeId>) {
    0 !in nodes && ids <= nodes.Keys && forall n :: n in nodes && n !in ids ==> nodes[n] == OUT
  }

  ghost predicate JoinTaskOk(node: Node, task: Task, n: NodeId, me: NodeId, ids: set<NodeId>) {
    && node.present && !node.running && node.stopped
    && match task
       case Begin => node.members == if n == me then {} else ids - {me}
       case Adding(rest) => node.members + rest == ids && (n != me ==> rest <= {me})
       case EventDone => false
  }

  ghost predicate LeaveTaskOk(node: Node, task: Task, n: NodeId, me: NodeId, ids: set<NodeId>) {
    match task
    case Begin => node == Down(ids)
    case Adding(_) => false
    case EventDone => n == me && node == Node(true, false, false, {})
  }

  ghost predicate Inv(s: Sys) {
    match s.stage
    case Idle => AtRest(s.nodes)
    case JoinStop(ids, todo) =>
      && Others(s.nodes, ids) && s.me in ids && todo <= ids
      && (forall n :: n in ids ==>
            s.nodes[n] == if n == s.me then Down({}) else if n in todo then Up(ids - {s.me}) else Down(ids - {s.me}))
    case JoinConfig(ids, tasks) =>
      && Others(s.nodes, ids) && s.me in ids && tasks.Keys <= ids
      && (forall n :: n in ids ==>
            if n in tasks then JoinTaskOk(s.nodes[n], tasks[n], n, s.me, ids) else s.nodes[n] == Up(ids))
    case LeaveStop(ids, todo) =>
      && Others(s.nodes, ids) && s.me in ids && todo <= ids
      && (forall n :: n in ids ==> s.nodes[n] == if n in todo then Up(ids) else Down(ids))
    case LeaveConfig(ids, tasks) =>
      && Others(s.nodes, ids) && s.me in ids && tasks.Keys <= ids
      && (forall n :: n in ids ==>
            if n in tasks then LeaveTaskOk(s.nodes[n], tasks[n], n, s.me, ids)
            else s.nodes[n] == if n == s.me then OUT else Down(ids - {s.me}))
    case LeaveStart(ids, todo) =>
      && Others(s.nodes, ids) && todo <= ids
      && (forall n :: n in ids ==> s.nodes[n] == if n in todo then Down(ids) else Up(ids))
  }

  /** The members the operation in progress is heading for. */
  ghost function Target(s: Sys): set<NodeId> {
    match s.stage
    case Idle => Present(s.nodes)
    case JoinStop(ids, _) => ids
    case JoinConfig(ids, _) => ids
    case LeaveStart(ids, _) => ids
    case _ => s.stage.ids - {s.me}
  }

  lemma BeginInv(s: Sys, a: Action)
    requires Inv(s) && Enabled(s, a) && (a.JoinBegins? || a.LeaveBegins?)
    ensures Inv(Step(s, a)) && Step(s, a).nodes.Keys == s.nodes.Keys
    ensures Target(Step(s, a)) == if a.JoinBegins? then Present(s.nodes) + {a.node} else Present(s.nodes) - {a.node}
  {
    var s' := Step(s, a);
    assert LockspaceMembers(s'.nodes) == Present(s'.nodes);
    assert a.JoinBegins? ==> Present(s'.nodes) == Present(s.nodes) + {a.node};
  }

  lemma ActJoinInv(s: Sys, n: NodeId, x: NodeId)
    requires Inv(s) && s.stage.JoinConfig? && Enabled(s, Act(n, x))
    ensures Inv(ActJoin(s, n, x)) && ActJoin(s, n, x).stage.JoinConfig?
    ensures ActJoin(s, n, x).stage.ids == s.stage.ids && ActJoin(s, n, x).nodes.Keys == s.nodes.Keys
  {
    var s', ids, task := ActJoin(s, n, x), s.stage.ids, s.stage.tasks[n];
    assert JoinTaskOk(s.nodes[n], task, n, s.me, ids);
    if task.Begin? {
      assert JoinTaskOk(s'.nodes[n], s'.stage.tasks[n], n, s.me, ids);
    } else if task.rest != {} {
      assert JoinTaskOk(s'.nodes[n], s'.stage.tasks[n], n, s.me, ids);
    }
  }

  lemma ActLeaveInv(s: Sys, n: NodeId, x: NodeId)
    requires Inv(s) && s.stage.LeaveConfig? && Enabled(s, Act(n, x))
    ensures Inv(ActLeave(s, n)) && ActLeave(s, n).stage.LeaveConfig?
    ensures ActLeave(s, n).stage.ids == s.stage.ids && ActLeave(s, n).nodes.Keys == s.nodes.Keys
  {
    assert LeaveTaskOk(s.nodes[n], s.stage.tasks[n], n, s.me, s.stage.ids);
  }

  lemma ActInv(s: Sys, n: NodeId, x: NodeId)
    requires Inv(s) && Enabled(s, Act(n, x))
    ensures var s' := DoAct(s, n, x);
            Inv(s') && Target(s') == Target(s) && s'.me == s.me && s'.nodes.Keys == s.nodes.Keys
  {
    match s.stage
    case JoinConfig(_, _) => ActJoinInv(s, n, x);
    case LeaveConfig(_, _) => ActLeaveInv(s, n, x);
    case _ =>
  }

  lemma AdvanceInv(s: Sys)
    requires Inv(s) && Enabled(s, Advance)
    ensures var s' := DoAdvance(s);
            Inv(s') && Target(s') == Target(s) && s'.me == s.me && s'.nodes == s.nodes
  {
    match s.stage
    case JoinStop(ids, todo) =>
      assert ids + {s.me} == ids;
    case JoinConfig(ids, _) =>
      assert Present(s.nodes) == ids;
    case LeaveStart(ids, _) =>
      assert Present(s.nodes) == ids;
    case _ =>
  }

  lemma StepInv(s: Sys, a: Action)
    requires Inv(s)
    ensures Inv(Step(s, a)) && Step(s, a).nodes.Keys == s.nodes.Keys
    ensures a.Act? || a.Advance? ==> Target(Step(s, a)) == Target(s)
  {
    if Enabled(s, a) {
      match a
      case JoinBegins(_) => BeginInv(s, a);
      case LeaveBegins(_) => BeginInv(s, a);
      case Act(n, x) => ActInv(s, n, x);
      case Advance => AdvanceInv(s);
    }
  }

  lemma {:induction false} RunInv(s: Sys, acts: seq<Action>)
    requires Inv(s)
    ensures Inv(Run(s, acts)) && Run(s, acts).nodes.Keys == s.nodes.Keys
    decreases |acts|
  {
    if acts != [] {
      StepInv(s, acts[0]);
      RunInv(Step(s, acts[0]), acts[1..]);
    }
  }

  // ----- results

  /** Two running nodes hold the same member set. */
  ghost predicate Agree(nodes: Nodes) {
    forall a, b :: a in nodes && b in nodes && nodes[a].running && nodes[b].running ==>
      nodes[a].members == nodes[b].members
  }

  lemma InvAgrees(s: Sys)
    requires Inv(s)
    ensures Agree(s.nodes)
  {
  }

  /** At every moment of any number of joins and leaves, in whatever order the calls of a phase happen, two nodes whose
      kernel lockspace runs hold the same members. */
  lemma RunningNodesAgree(nodes: Nodes, me: NodeId, acts: seq<Action>)
    requires AtRest(nodes)
    ensures Agree(Run(Sys(nodes, me, Idle), acts).nodes)
  {
    RunInv(Sys(nodes, me, Idle), acts);
    InvAgrees(Run(Sys(nodes, me, Idle), acts));
  }

  /** Whoever is a member already adds only the joiner, so that it never sees the others leave and come back. */
  lemma MembersAddOnlyJoiner(nodes: Nodes, me: NodeId, acts: seq<Action>, n: NodeId, x: NodeId)
    requires AtRest(nodes)
    requires var s := Run(Sys(nodes, me, Idle), acts);
             s.stage.JoinConfig? && Enabled(s, Act(n, x)) && n != s.me
    ensures var s := Run(Sys(nodes, me, Idle), acts);
            forall y :: y in Step(s, Act(n, x)).nodes[n].members ==> y in s.nodes[n].members || y == s.me
    ensures var s := Run(Sys(nodes, me, Idle), acts);
            s.stage.tasks[n].Adding? ==> s.stage.tasks[n].rest <= {s.me}
  {
    RunInv(Sys(nodes, me, Idle), acts);
    var s := Run(Sys(nodes, me, Idle), acts);
    assert JoinTaskOk(s.nodes[n], s.stage.tasks[n], n, s.me, s.stage.ids);
  }

  /** The only state at rest with the given members. */
  function Rest(ids: set<NodeId>, members: set<NodeId>): Nodes {
    map n | n in ids :: if n in members then Up(members) else OUT
  }

  lemma AtRestIsRest(nodes: Nodes)
    requires AtRest(nodes)
    ensures nodes == Rest(nodes.Keys, Present(nodes))
  {
  }

  ghost predicate WithinOperation(acts: seq<Action>) {
    forall i :: 0 <= i < |acts| ==> acts[i].Act? || acts[i].Advance?
  }

  lemma {:induction false} RunTarget(s: Sys, acts: seq<Action>)
    requires Inv(s) && WithinOperation(acts)
    ensures Target(Run(s, acts)) == Target(s)
    decreases |acts|
  {
    if acts != [] {
      StepInv(s, acts[0]);
      RunTarget(Step(s, acts[0]), acts[1..]);
    }
  }

  /** However the calls interleave, a completed join leaves every member running with the old members plus the joiner,
      and a completed leave with the old members minus the leaver. */
  lemma CompletedOperation(nodes: Nodes, me: NodeId, begin: Action, acts: seq<Action>)
    requires AtRest(nodes) && WithinOperation(acts) && (begin.JoinBegins? || begin.LeaveBegins?)
    requires Enabled(Sys(nodes, me, Idle), begin)
    requires Run(Step(Sys(nodes, me, Idle), begin), acts).stage.Idle?
    ensures Run(Step(Sys(nodes, me, Idle), begin), acts).nodes
         == Rest(nodes.Keys, if begin.JoinBegins? then Present(nodes) + {begin.node} else Present(nodes) - {begin.node})
  {
    var s := Sys(nodes, me, Idle);
    BeginInv(s, begin);
    RunTarget(Step(s, begin), acts);
    RunInv(Step(s, begin), acts);
    AtRestIsRest(Run(Step(s, begin), acts).nodes);
  }

  /** A join followed by a leave of the same node restores the whole cluster, whatever the interleavings were. */
  lemma JoinThenLeaveRestores(nodes: Nodes, me: NodeId, n: NodeId, joins: seq<Action>, leaves: seq<Action>)
    requires AtRest(nodes) && n in nodes && !nodes[n].present && WithinOperation(joins) && WithinOperation(leaves)
    requires Run(Step(Sys(nodes, me, Idle), JoinBegins(n)), joins).stage.Idle?
    requires var s1 := Run(Step(Sys(nodes, me, Idle), JoinBegins(n)), joins);
             Run(Step(s1, LeaveBegins(n)), leaves).stage.Idle?
    ensures var s1 := Run(Step(Sys(nodes, me, Idle), JoinBegins(n)), joins);
            Run(Step(s1, LeaveBegins(n)), leaves).nodes == nodes
  {
    var s := Sys(nodes, me, Idle);
    var s1 := Run(Step(s, JoinBegins(n)), joins);
    CompletedOperation(nodes, me, JoinBegins(n), joins);
    BeginInv(s, JoinBegins(n));
    RunInv(Step(s, JoinBegins(n)), joins);
    var with := Present(nodes) + {n};
    assert n in s1.nodes && s1.nodes[n].present;
    assert Present(s1.nodes) == with;
    CompletedOperation(s1.nodes, s1.me, LeaveBegins(n), leaves);
    assert with - {n} == Present(nodes);
    AtRestIsRest(nodes);
  }

  // ----- an operation always gets through

  /** Nodes whose reconfiguration has not begun, members still to be added, nodes still to act. */
  ghost function Unbegun(st: Stage): set<NodeId> {
    if st.JoinConfig? || st.LeaveConfig? then set n | n in st.tasks && st.tasks[n].Begin? else {}
  }

  ghost function Unadded(st: Stage): set<(NodeId, NodeId)> {
    if st.JoinConfig? then set n, x | n in st.tasks && st.tasks[n].Adding? && x in st.tasks[n].rest :: (n, x) else {}
  }

  ghost function Undone(st: Stage): set<NodeId> {
    match st
    case Idle => {}
    case JoinConfig(_, tasks) => tasks.Keys
    case LeaveConfig(_, tasks) => tasks.Keys
    case _ => st.todo
  }

  ghost predicate Closer(st': Stage, st: Stage) {
    || Unbegun(st') < Unbegun(st)
    || (Unbegun(st') == Unbegun(st) && Unadded(st') < Unadded(st))
    || (Unbegun(st') == Unbegun(st) && Unadded(st') == Unadded(st) && Undone(st') < Undone(st))
  }

  /** Every call of a phase brings the phase closer to its end. */
  lemma ActShrinks(s: Sys, n: NodeId, x: NodeId)
    requires Inv(s) && Enabled(s, Act(n, x))
    ensures var s' := DoAct(s, n, x);
            Closer(s'.stage, s.stage) && Rank(s'.stage) == Rank(s.stage)
  {
    var s' := DoAct(s, n, x);
    assert n in Undone(s.stage);
    match s.stage
    case JoinConfig(ids, tasks) =>
      assert JoinTaskOk(s.nodes[n], tasks[n], n, s.me, ids);
      if tasks[n].Begin? {
        assert n in Unbegun(s.stage) && n !in Unbegun(s'.stage);
      } else {
        assert Unbegun(s'.stage) == Unbegun(s.stage);
        if tasks[n].rest != {} {
          assert (n, x) in Unadded(s.stage) && (n, x) !in Unadded(s'.stage);
        } else {
          assert Unadded(s'.stage) == Unadded(s.stage);
        }
      }
    case LeaveConfig(ids, tasks) =>
      assert LeaveTaskOk(s.nodes[n], tasks[n], n, s.me, ids);
      if tasks[n].Begin? {
        assert n in Unbegun(s.stage) && n !in Unbegun(s'.stage);
      }
    case _ =>
  }

  /** The lockspace as the cluster sees it, driven by the node that joins or leaves. */
  class Lockspace {
    var nodes: Nodes
    var me: NodeId
    var stage: Stage

    ghost function State(): Sys
      reads this
    {
      Sys(nodes, me, stage)
    }

    /** One `asyncio.gather`: all calls of the phase, in any order; no moment of it breaks agreement. */
    method Gather() returns (ghost moments: seq<Nodes>)
      requires Inv(State()) && !stage.Idle?
      modifies this
      ensures Inv(State()) && Enabled(State(), Advance) && Target(State()) == old(Target(State()))
      ensures nodes.Keys == old(nodes.Keys) && me == old(me) && Rank(stage) == old(Rank(stage))
      ensures forall i :: 0 <= i < |moments| ==> Agree(moments[i])
    {
      moments := [nodes];
      InvAgrees(State());
      while Pending() != {}
        invariant Inv(State()) && Target(State()) == old(Target(State()))
        invariant nodes.Keys == old(nodes.Keys) && me == old(me) && Rank(stage) == old(Rank(stage))
        invariant forall i :: 0 <= i < |moments| ==> Agree(moments[i])
        decreases Unbegun(stage), Unadded(stage), Undone(stage)
      {
        var n :| n in Pending();
        KernelCall(n);
        moments := moments + [nodes];
      }
    }

    /** The next kernel call of node `n` in the phase. */
    method KernelCall(n: NodeId)
      requires Inv(State()) && n in Pending()
      modifies this
      ensures Inv(State()) && Agree(nodes) && Target(State()) == old(Target(State()))
      ensures nodes.Keys == old(nodes.Keys) && me == old(me) && Rank(stage) == old(Rank(stage))
      ensures Closer(stage, old(stage))
    {
      var x: NodeId := n;
      if stage.JoinConfig? && stage.tasks[n].Adding? && stage.tasks[n].rest != {} {
        x :| x in stage.tasks[n].rest;
      }
      assert n in nodes;
      ActInv(State(), n, x);
      ActShrinks(State(), n, x);
      var s := DoAct(Sys(nodes, me, stage), n, x);
      nodes, stage := s.nodes, s.stage;
      InvAgrees(State());
    }

    function Pending(): (r: set<NodeId>)
      reads this
      ensures r == Undone(stage)
    {
      match stage
      case Idle => {}
      case JoinConfig(_, tasks) => tasks.Keys
      case LeaveConfig(_, tasks) => tasks.Keys
      case _ => stage.todo
    }

    method EndGather()
      requires Inv(State()) && Enabled(State(), Advance)
      modifies this`stage
      ensures State() == DoAdvance(old(State())) && Inv(State()) && Target(State()) == old(Target(State()))
    {
      AdvanceInv(State());
      stage := DoAdvance(Sys(nodes, me, stage)).stage;
    }

    /** One phase of an operation, from its first call to the start of the next phase. */
    method Phase() returns (ghost moments: seq<Nodes>)
      requires Inv(State()) && !stage.Idle?
      modifies this
      ensures Inv(State()) && Target(State()) == old(Target(State())) && nodes.Keys == old(nodes.Keys)
      ensures Rank(stage) == if old(Rank(stage)) == 3 then 0 else old(Rank(stage)) - 1
      ensures forall i :: 0 <= i < |moments| ==> Agree(moments[i])
    {
      moments := Gather();
      EndGather();
    }

    /** The kernel's online or offline event. */
    method Begin(a: Action)
      requires stage.Idle? && AtRest(nodes) && Enabled(State(), a) && (a.JoinBegins? || a.LeaveBegins?)
      modifies this
      ensures State() == Step(old(State()), a) && Inv(State()) && nodes.Keys == old(nodes.Keys)
      ensures Rank(stage) == if a.JoinBegins? then 2 else 5
      ensures var was := Present(old(nodes));
              Target(State()) == if a.JoinBegins? then was + {a.node} else was - {a.node}
    {
      BeginInv(State(), a);
      var s := Step(Sys(nodes, me, stage), a);
      nodes, me, stage := s.nodes, s.me, s.stage;
    }

    method JoinLockspace(node: NodeId) returns (ghost moments: seq<Nodes>)
      requires stage.Idle? && AtRest(nodes) && node in nodes && !nodes[node].present
      modifies this
      ensures stage.Idle? && nodes == Rest(old(nodes.Keys), Present(old(nodes)) + {node})
      ensures forall i :: 0 <= i < |moments| ==> Agree(moments[i])
    {
      Begin(JoinBegins(node));
      ghost var stops := Phase();
      ghost var joins := Phase();
      moments := stops + joins;
      AtRestIsRest(nodes);
    }

    method LeaveLockspace(node: NodeId) returns (ghost moments: seq<Nodes>)
      requires stage.Idle? && AtRest(nodes) && node in nodes && nodes[node].present
      modifies this
      ensures stage.Idle? && nodes == Rest(old(nodes.Keys), Present(old(nodes)) - {node})
      ensures forall i :: 0 <= i < |moments| ==> Agree(moments[i])
    {
      Begin(LeaveBegins(node));
      ghost var stops := Phase();
      ghost var leaves := Phase();
      ghost var starts := Phase();
      moments := stops + leaves + starts;
      AtRestIsRest(nodes);
    }
  }

  /** Phases of an operation still to come, this one included. */
  function Rank(st: Stage): nat {
    match st
    case Idle => 0
    case JoinConfig(_, _) => 1
    case JoinStop(_, _) => 2
    case LeaveStart(_, _) => 3
    case LeaveConfig(_, _) => 4
    case LeaveStop(_, _) => 5
  }
}
