/**
 Cloud sync tasks taking a read-write lock on their local path and then one on their remote path. Every task is a
 thread; each `with self._lock` section of `SyncRWLock` is one step, and a wait loop is a guard check that either
 enters or joins the waiters of the condition, to be tried again after a notification.
 */
module SyncLocks {
  import opened Prelude

  datatype Direction = Read | Write

  datatype Side = Local | Remote

  /** A lock object of one of the two lock managers. */
  datatype LockRef = LockRef(side: Side, id: nat)

  datatype RWLock = RWLock(readers: int, writers: int)

  /** What a thread asked a lock manager for. */
  datatype Grip = Grip(lock: nat, direction: Direction)

  /** Where a thread stands in `_sync`. */
  datatype Pc = Idle | EnterLocal | WaitLocal | GotLocal | EnterRemote | WaitRemote | Working | LeftRemote

  datatype Thread = Thread(pc: Pc, local: Grip, remote: Grip)

  /** A lock not in the map is one nobody has entered. */
  datatype Sys = Sys(threads: map<nat, Thread>, locks: map<LockRef, RWLock>)

  function Get(locks: map<LockRef, RWLock>, r: LockRef): RWLock {
    if r in locks then locks[r] else RWLock(0, 0)
  }

  /** The guard of the wait loop. */
  predicate Blocked(l: RWLock, d: Direction) {
    match d
    case Read => l.writers > 0
    case Write => l.writers > 0 || l.readers > 0
  }

  function Entered(l: RWLock, d: Direction): RWLock {
    match d
    case Read => l.(readers := l.readers + 1)
    case Write => l.(writers := l.writers + 1)
  }

  function Left(l: RWLock, d: Direction): RWLock {
    match d
    case Read => l.(readers := l.readers - 1)
    case Write => l.(writers := l.writers - 1)
  }

  /** Leaving notifies all waiters, except while other readers remain. */
  predicate Notifies(after: RWLock, d: Direction) {
    d.Write? || after.readers == 0
  }

  function RefOf(side: Side, g: Grip): LockRef {
    LockRef(side, g.lock)
  }

  predicate WaitsFor(th: Thread, r: LockRef, d: Direction) {
    || (th.pc.WaitLocal? && r == RefOf(Local, th.local) && d == th.local.direction)
    || (th.pc.WaitRemote? && r == RefOf(Remote, th.remote) && d == th.remote.direction)
  }

  function Notified(th: Thread, r: LockRef): Thread {
    if WaitsFor(th, r, Read) || WaitsFor(th, r, Write)
    then th.(pc := if th.pc.WaitLocal? then EnterLocal else EnterRemote)
    else th
  }

  function NotifyAll(threads: map<nat, Thread>, r: LockRef): map<nat, Thread> {
    map t | t in threads :: Notified(threads[t], r)
  }

  function TryEnter(s: Sys, t: nat, r: LockRef, d: Direction, inside: Pc, waiting: Pc): Sys
    requires t in s.threads
  {
    if Blocked(Get(s.locks, r), d) then s.(threads := s.threads[t := s.threads[t].(pc := waiting)])
    else Sys(s.threads[t := s.threads[t].(pc := inside)], s.locks[r := Entered(Get(s.locks, r), d)])
  }

  function Leave(s: Sys, t: nat, r: LockRef, d: Direction, outside: Pc): Sys
    requires t in s.threads
  {
    var after := Left(Get(s.locks, r), d);
    var threads := s.threads[t := s.threads[t].(pc := outside)];
    Sys(if Notifies(after, d) then NotifyAll(threads, r) else threads, s.locks[r := after])
  }

  /** `Ask` is the lookup in a lock manager, which may return any lock object of its side; `Go` is everything else. */
  datatype Action = Ask(t: nat, grip: Grip) | Go(t: nat)

  predicate Enabled(s: Sys, a: Action) {
    a.t in s.threads &&
    match a
    case Ask(t, _) => s.threads[t].pc.Idle? || s.threads[t].pc.GotLocal?
    case Go(t) => var pc := s.threads[t].pc; pc.EnterLocal? || pc.EnterRemote? || pc.Working? || pc.LeftRemote?
  }

  function Step(s: Sys, a: Action): Sys {
    if !Enabled(s, a) then s
    else
      var th := s.threads[a.t];
      match a
      case Ask(t, g) =>
        if th.pc.Idle? then s.(threads := s.threads[t := th.(pc := EnterLocal, local := g)])
        else s.(threads := s.threads[t := th.(pc := EnterRemote, remote := g)])
      case Go(t) =>
        match th.pc
        case EnterLocal => TryEnter(s, t, RefOf(Local, th.local), th.local.direction, GotLocal, WaitLocal)
        case EnterRemote => TryEnter(s, t, RefOf(Remote, th.remote), th.remote.direction, Working, WaitRemote)
        case Working => Leave(s, t, RefOf(Remote, th.remote), th.remote.direction, LeftRemote)
        case _ => Leave(s, t, RefOf(Local, th.local), th.local.direction, Idle)
  }

  function Run(s: Sys, acts: seq<Action>): Sys
    decreases |acts|
  {
    if acts == [] then s else Run(Step(s, acts[0]), acts[1..])
  }

  function Start(ids: set<nat>): Sys {
    Sys(map t | t in ids :: Thread(Idle, Grip(0, Read), Grip(0, Read)), map[])
  }

  // ----- who holds what

  predicate InsideLocal(pc: Pc) {
    pc.GotLocal? || pc.EnterRemote? || pc.WaitRemote? || pc.Working? || pc.LeftRemote?
  }

  predicate Holds(th: Thread, r: LockRef, d: Direction) {
    || (InsideLocal(th.pc) && r == RefOf(Local, th.local) && d == th.local.direction)
    || (th.pc.Working? && r == RefOf(Remote, th.remote) && d == th.remote.direction)
  }

  ghost function Holders(threads: map<nat, Thread>, r: LockRef, d: Direction): set<nat> {
    set t | t in threads && Holds(threads[t], r, d)
  }

  /** The counters count the holders, and a writer is alone. */
  ghost predicate LockOk(threads: map<nat, Thread>, locks: map<LockRef, RWLock>, r: LockRef) {
    var l := Get(locks, r);
    && l.readers == |Holders(threads, r, Read)| && l.writers == |Holders(threads, r, Write)|
    && l.writers <= 1 && (l.writers == 1 ==> l.readers == 0)
  }

  ghost predicate CountsOk(s: Sys) {
    forall r :: LockOk(s.threads, s.locks, r)
  }

  /** Whoever waits has a reason to: a guard that has become false again has been notified. */
  ghost predicate WaitersOk(s: Sys) {
    forall t, r, d :: t in s.threads && WaitsFor(s.threads[t], r, d) ==> Blocked(Get(s.locks, r), d)
  }

  ghost predicate Inv(s: Sys) {
    CountsOk(s) && WaitersOk(s)
  }

  /** A change of one thread that gives up and gains no hold. */
  lemma SameHolders(threads: map<nat, Thread>, threads': map<nat, Thread>, locks: map<LockRef, RWLock>)
    requires forall r :: LockOk(threads, locks, r)
    requires threads'.Keys == threads.Keys
    requires forall t, r, d :: t in threads ==> (Holds(threads'[t], r, d) <==> Holds(threads[t], r, d))
    ensures forall r :: LockOk(threads', locks, r)
  {
    forall r
      ensures LockOk(threads', locks, r)
    {
      assert LockOk(threads, locks, r);
      assert Holders(threads', r, Read) == Holders(threads, r, Read);
      assert Holders(threads', r, Write) == Holders(threads, r, Write);
    }
  }

  ghost predicate GainsOnly(a: Thread, b: Thread, r: LockRef, d: Direction) {
    && !Holds(a, r, d) && Holds(b, r, d)
    && forall q, e :: q != r || e != d ==> (Holds(a, q, e) <==> Holds(b, q, e))
  }

  lemma HoldersUpdate(threads: map<nat, Thread>, t: nat, b: Thread, r: LockRef, d: Direction)
    requires t in threads
    ensures var now, was := |Holders(threads[t := b], r, d)|, |Holders(threads, r, d)|;
            && (Holds(b, r, d) && !Holds(threads[t], r, d) ==> now == was + 1)
            && (!Holds(b, r, d) && Holds(threads[t], r, d) ==> now == was - 1)
            && (Holds(b, r, d) == Holds(threads[t], r, d) ==> now == was)
  {
    var was := Holders(threads, r, d);
    if Holds(b, r, d) {
      assert Holders(threads[t := b], r, d) == was + {t};
      assert Holds(threads[t], r, d) ==> was + {t} == was;
    } else {
      assert Holders(threads[t := b], r, d) == was - {t};
      assert !Holds(threads[t], r, d) ==> was - {t} == was;
    }
  }

  lemma EnterCounts(s: Sys, t: nat, b: Thread, r: LockRef, d: Direction)
    requires CountsOk(s) && t in s.threads && GainsOnly(s.threads[t], b, r, d) && !Blocked(Get(s.locks, r), d)
    ensures CountsOk(Sys(s.threads[t := b], s.locks[r := Entered(Get(s.locks, r), d)]))
  {
    var s' := Sys(s.threads[t := b], s.locks[r := Entered(Get(s.locks, r), d)]);
    forall q
      ensures LockOk(s'.threads, s'.locks, q)
    {
      assert LockOk(s.threads, s.locks, q);
      HoldersUpdate(s.threads, t, b, q, Read);
      HoldersUpdate(s.threads, t, b, q, Write);
      assert q != r ==> Get(s'.locks, q) == Get(s.locks, q);
    }
  }

  lemma LeaveCounts(s: Sys, t: nat, b: Thread, r: LockRef, d: Direction)
    requires CountsOk(s) && t in s.threads && GainsOnly(b, s.threads[t], r, d)
    ensures CountsOk(Sys(s.threads[t := b], s.locks[r := Left(Get(s.locks, r), d)]))
  {
    var s' := Sys(s.threads[t := b], s.locks[r := Left(Get(s.locks, r), d)]);
    forall q
      ensures LockOk(s'.threads, s'.locks, q)
    {
      assert LockOk(s.threads, s.locks, q);
      HoldersUpdate(s.threads, t, b, q, Read);
      HoldersUpdate(s.threads, t, b, q, Write);
      assert q != r ==> Get(s'.locks, q) == Get(s.locks, q);
    }
  }

  /** Entering a lock frees nobody. */
  lemma EnteredBlocks(l: RWLock, d: Direction, e: Direction)
    requires Blocked(l, e)
    ensures Blocked(Entered(l, d), e)
  {
  }

  lemma TryEnterInv(s: Sys, t: nat, r: LockRef, d: Direction, inside: Pc, waiting: Pc)
    requires Inv(s) && t in s.threads
    requires var th := s.threads[t];
             || (&& th.pc.EnterLocal? && inside.GotLocal? && waiting.WaitLocal?
                 && r == RefOf(Local, th.local) && d == th.local.direction)
             || (&& th.pc.EnterRemote? && inside.Working? && waiting.WaitRemote?
                 && r == RefOf(Remote, th.remote) && d == th.remote.direction)
    ensures Inv(TryEnter(s, t, r, d, inside, waiting))
  {
    var s', th := TryEnter(s, t, r, d, inside, waiting), s.threads[t];
    if Blocked(Get(s.locks, r), d) {
      SameHolders(s.threads, s'.threads, s.locks);
    } else {
      EnterCounts(s, t, th.(pc := inside), r, d);
      forall u, q, e | u in s'.threads && WaitsFor(s'.threads[u], q, e)
        ensures Blocked(Get(s'.locks, q), e)
      {
        assert WaitsFor(s.threads[u], q, e);
        assert Blocked(Get(s.locks, q), e);
        if q == r {
          EnteredBlocks(Get(s.locks, r), d, e);
        } else {
          assert Get(s'.locks, q) == Get(s.locks, q);
        }
      }
    }
  }

  lemma LeaveInv(s: Sys, t: nat, r: LockRef, d: Direction, outside: Pc)
    requires Inv(s) && t in s.threads
    requires var th := s.threads[t];
             || (th.pc.LeftRemote? && outside.Idle? && r == RefOf(Local, th.local) && d == th.local.direction)
             || (th.pc.Working? && outside.LeftRemote? && r == RefOf(Remote, th.remote) && d == th.remote.direction)
    ensures Inv(Leave(s, t, r, d, outside))
  {
    var s', th := Leave(s, t, r, d, outside), s.threads[t];
    var b := th.(pc := outside);
    LeaveCounts(s, t, b, r, d);
    var threads := s.threads[t := b];
    SameHolders(threads, s'.threads, s'.locks);
    forall u, q, e | u in s'.threads && WaitsFor(s'.threads[u], q, e)
      ensures Blocked(Get(s'.locks, q), e)
    {
      assert u in s.threads && WaitsFor(s.threads[u], q, e);
      assert Blocked(Get(s.locks, q), e);
      if q == r {
        assert d == Read && Get(s'.locks, r).readers != 0;
        assert t in Holders(s.threads, r, Read);
        assert LockOk(s.threads, s.locks, r) && LockOk(s'.threads, s'.locks, r);
        assert Holders(s.threads, r, Read) != {};
        assert Get(s.locks, r).writers == 0 && e == Write;
      } else {
        assert Get(s'.locks, q) == Get(s.locks, q);
      }
    }
  }

  lemma StepInv(s: Sys, a: Action)
    requires Inv(s)
    ensures Inv(Step(s, a)) && Step(s, a).threads.Keys == s.threads.Keys
  {
    if Enabled(s, a) {
      var th, s' := s.threads[a.t], Step(s, a);
      match a
      case Ask(t, g) =>
        SameHolders(s.threads, s'.threads, s.locks);
      case Go(t) =>
        match th.pc
        case EnterLocal => TryEnterInv(s, t, RefOf(Local, th.local), th.local.direction, GotLocal, WaitLocal);
        case EnterRemote => TryEnterInv(s, t, RefOf(Remote, th.remote), th.remote.direction, Working, WaitRemote);
        case Working => LeaveInv(s, t, RefOf(Remote, th.remote), th.remote.direction, LeftRemote);
        case _ => LeaveInv(s, t, RefOf(Local, th.local), th.local.direction, Idle);
    }
  }

  lemma {:induction false} RunInv(s: Sys, acts: seq<Action>)
    requires Inv(s)
    ensures Inv(Run(s, acts)) && Run(s, acts).threads.Keys == s.threads.Keys
    decreases |acts|
  {
    if acts != [] {
      StepInv(s, acts[0]);
      RunInv(Step(s, acts[0]), acts[1..]);
    }
  }

  // ----- results

  ghost predicate Reachable(s: Sys) {
    exists ids: set<nat>, acts: seq<Action> :: s == Run(Start(ids), acts)
  }

  lemma ReachableInv(s: Sys)
    requires Reachable(s)
    ensures Inv(s)
  {
    var ids: set<nat>, acts: seq<Action> :| s == Run(Start(ids), acts);
    forall r
      ensures LockOk(Start(ids).threads, map[], r)
    {
      assert Holders(Start(ids).threads, r, Read) == {} && Holders(Start(ids).threads, r, Write) == {};
    }
    RunInv(Start(ids), acts);
  }

  /** A thread that holds a lock for writing holds it alone. */
  lemma WriterIsAlone(s: Sys, t: nat, u: nat, r: LockRef, d: Direction)
    requires Reachable(s) && t in s.threads && u in s.threads
    requires Holds(s.threads[t], r, Write) && Holds(s.threads[u], r, d)
    ensures t == u && d == Write
  {
    ReachableInv(s);
    assert LockOk(s.threads, s.locks, r);
    var w, rd := Holders(s.threads, r, Write), Holders(s.threads, r, Read);
    assert t in w && (d == Read ==> u in rd) && (d == Write ==> u in w);
    assert |w - {t}| == |w| - 1;
  }

  /** Every waiting thread's guard still blocks it: none whose guard became true was left unnotified. */
  lemma WaitersAreBlocked(s: Sys, t: nat, r: LockRef, d: Direction)
    requires Reachable(s) && t in s.threads && WaitsFor(s.threads[t], r, d)
    ensures exists u :: u in s.threads
                        && (Holds(s.threads[u], r, Write) || (d == Write && Holds(s.threads[u], r, Read)))
  {
    ReachableInv(s);
    assert Blocked(Get(s.locks, r), d) && LockOk(s.threads, s.locks, r);
    var w, rd := Holders(s.threads, r, Write), Holders(s.threads, r, Read);
    if w != {} {
      var u :| u in w;
      assert Holds(s.threads[u], r, Write);
    } else {
      assert rd != {};
      var u :| u in rd;
      assert Holds(s.threads[u], r, Read);
    }
  }

  /** A thread inside `_sync` whose next step is enabled. */
  ghost predicate CanMove(s: Sys, t: nat) {
    t in s.threads && !s.threads[t].pc.Idle? && (Enabled(s, Go(t)) || Enabled(s, Ask(t, s.threads[t].remote)))
  }

  /** Local before remote never deadlocks: while some thread is inside `_sync`, some thread inside can take a step. */
  lemma NoDeadlock(s: Sys, t: nat)
    requires Reachable(s) && t in s.threads && !s.threads[t].pc.Idle?
    ensures exists u :: CanMove(s, u)
  {
    if CanMove(s, t) {
    } else if s.threads[t].pc.WaitRemote? {
      RemoteWaitMoves(s, t);
    } else {
      var th := s.threads[t];
      WaitersAreBlocked(s, t, RefOf(Local, th.local), th.local.direction);
      var r := RefOf(Local, th.local);
      var u :| u in s.threads && (Holds(s.threads[u], r, Write) || Holds(s.threads[u], r, Read));
      if s.threads[u].pc.WaitRemote? {
        RemoteWaitMoves(s, u);
      } else {
        HolderIsInside(s.threads[u], r, if Holds(s.threads[u], r, Write) then Write else Read);
        assert CanMove(s, u);
      }
    }
  }

  lemma HolderIsInside(th: Thread, r: LockRef, d: Direction)
    requires Holds(th, r, d)
    ensures InsideLocal(th.pc) && (r.side.Remote? ==> th.pc.Working?)
  {
  }

  lemma RemoteWaitMoves(s: Sys, t: nat)
    requires Reachable(s) && t in s.threads && s.threads[t].pc.WaitRemote?
    ensures exists u :: CanMove(s, u)
  {
    var th := s.threads[t];
    WaitersAreBlocked(s, t, RefOf(Remote, th.remote), th.remote.direction);
    var r := RefOf(Remote, th.remote);
    var u :| u in s.threads && (Holds(s.threads[u], r, Write) || Holds(s.threads[u], r, Read));
    HolderIsInside(s.threads[u], r, if Holds(s.threads[u], r, Write) then Write else Read);
    assert CanMove(s, u);
  }

  // ----- the lock object

  /** A writer is alone. */
  predicate Exclusive(l: RWLock) {
    0 <= l.readers && 0 <= l.writers <= 1 && (l.writers == 1 ==> l.readers == 0)
  }

  /** Somebody is inside in that direction. */
  predicate Inside(l: RWLock, d: Direction) {
    if d == Read then l.readers > 0 else l.writers > 0
  }

  /** Leaving notifies exactly when it leaves the lock empty, and so free for readers and writers alike. */
  lemma NotifiesWhenEmpty(l: RWLock, d: Direction)
    requires Exclusive(l) && Inside(l, d)
    ensures Notifies(Left(l, d), d) <==> Left(l, d) == RWLock(0, 0)
    ensures Notifies(Left(l, d), d) <==> !Blocked(Left(l, d), Read) && !Blocked(Left(l, d), Write)
  {
  }

  class SyncRWLock {
    var readers: int
    var writers: int

    ghost function State(): RWLock
      reads this
    {
      RWLock(readers, writers)
    }

    constructor ()
      ensures State() == RWLock(0, 0)
    {
      readers, writers := 0, 0;
    }

    /** One pass of the wait loop of either context manager: enter, or report that the caller must wait. */
    method TryEnter(d: Direction) returns (entered: bool)
      modifies this
      ensures entered == !Blocked(old(State()), d)
      ensures State() == if entered then Entered(old(State()), d) else old(State())
    {
      if d == Read {
        entered := writers <= 0;
        if entered { readers := readers + 1; }
      } else {
        entered := writers <= 0 && readers <= 0;
        if entered { writers := writers + 1; }
      }
    }

    /** The exit section: whether it notifies the waiters, and whether it drops the lock from its manager. */
    method Exit(d: Direction) returns (notify: bool, remove: bool)
      modifies this
      ensures State() == Left(old(State()), d)
      ensures notify == Notifies(State(), d)
      ensures remove == (readers == 0 && (d == Read ==> writers == 0))
      ensures Exclusive(old(State())) && Inside(old(State()), d) ==> (remove <==> State() == RWLock(0, 0))
      ensures Exclusive(old(State())) && Inside(old(State()), d) ==>
                (notify <==> !Blocked(State(), Read) && !Blocked(State(), Write))
    {
      if d == Read {
        readers := readers - 1;
        notify := readers == 0;
        remove := readers == 0 && writers == 0;
      } else {
        writers := writers - 1;
        notify := true;
        remove := readers == 0;
      }
    }
  }
}
