/** Automatic uids and gids: the least free id is chosen under a lock and reserved until the account is stored. A
    reservation lapses after an hour. */
module Xids {
  import opened Prelude

  const MIN_AUTO_XID := 3000
  const LOCKED_XID_TTL := 3600

  // ----- the choice

  ghost function MaxOf(s: set<nat>): (m: nat)
    requires s != {}
    ensures m in s && forall x :: x in s ==> x <= m
  {
    var x :| x in s;
    if s == {x} then x
    else
      assert s - {x} != {} && forall y :: y in s ==> y == x || y in s - {x};
      var m := MaxOf(s - {x});
      if m < x then x else m
  }

  ghost function MinOf(s: set<nat>): (m: nat)
    requires s != {}
    ensures m in s && forall x :: x in s ==> m <= x
  {
    var x :| x in s;
    if s == {x} then x
    else
      assert s - {x} != {} && forall y :: y in s ==> y == x || y in s - {x};
      var m := MinOf(s - {x});
      if x < m then x else m
  }

  /** `set(range(lo, hi))`. */
  function Range(lo: int, hi: int): (r: set<nat>)
    requires 0 <= lo
    ensures forall y: nat :: y in r <==> lo <= y < hi
    decreases hi - lo
  {
    if lo >= hi then {} else {lo} + Range(lo + 1, hi)
  }

  ghost predicate Automatic(s: set<nat>) {
    forall x :: x in s ==> x >= MIN_AUTO_XID
  }

  /** `x` is the least automatic id that is not used. */
  ghost predicate LeastFree(used: set<nat>, x: nat) {
    x >= MIN_AUTO_XID && x !in used && forall y: nat :: MIN_AUTO_XID <= y < x ==> y in used
  }

  /** The choice made by `get_next_uid` and `get_next_gid`: the least gap below the greatest used id, or the id after
      it. */
  ghost function NextXid(used: set<nat>): (x: nat)
    requires Automatic(used)
    ensures LeastFree(used, x)
  {
    var top := if used == {} then MIN_AUTO_XID - 1 else MaxOf(used);
    var gaps := Range(MIN_AUTO_XID, top) - used;
    NoGapBelow(used, top);
    if gaps == {} then top + 1 else MinOf(gaps)
  }

  lemma NoGapBelow(used: set<nat>, top: int)
    ensures forall y: nat {:trigger y in used} ::
              MIN_AUTO_XID <= y < top && y !in Range(MIN_AUTO_XID, top) - used ==> y in used
  {
    forall y: nat | MIN_AUTO_XID <= y < top && y !in Range(MIN_AUTO_XID, top) - used
      ensures y in used
    {
      assert y in Range(MIN_AUTO_XID, top);
    }
  }

  // ----- accounts being created concurrently

  /** A creation in progress holds an id with the time its reservation lapses: before the insert, or after it (or after
      the insert failed) and before the reservation is dropped. */
  datatype Creation = Idle | Reserved(xid: nat, until: int) | Releasing(xid: nat, until: int)

  /** `stored` are the ids of the non-builtin accounts, `inFlight` the reservations with their expiry, and `clash` says
      that an account was stored under an id already stored. */
  datatype Sys = Sys(now: int, stored: set<nat>, inFlight: map<nat, int>, creations: map<nat, Creation>, clash: bool)

  function InUse(inFlight: map<nat, int>, now: int): map<nat, int> {
    map x | x in inFlight && now <= inFlight[x] :: inFlight[x]
  }

  /** What `get_next_*` regards as taken; `others` are gids that privileges refer to. */
  function Used(s: Sys, others: set<nat>): set<nat> {
    (set x | x in s.stored + others && x >= MIN_AUTO_XID) + (set x | x in InUse(s.inFlight, s.now))
  }

  datatype Action =
    | Reserve(c: nat, others: set<nat>)   // get_next_uid or get_next_gid
    | Insert(c: nat)                      // the account is stored
    | Fail(c: nat)                        // storing it raised
    | Release(c: nat)                     // the reservation is dropped
    | Abandon(c: nat)                     // the caller only wanted the number, or failed before trying to store
    | Delete(xid: nat)                    // some account is deleted

  ghost predicate Enabled(s: Sys, a: Action) {
    if a.Delete? then true
    else
      a.c in s.creations &&
      match a
      case Reserve(c, _) => s.creations[c].Idle?
      case Release(c) => s.creations[c].Releasing?
      case _ => s.creations[a.c].Reserved?
  }

  ghost predicate ReservationsOk(s: Sys) {
    forall x :: x in s.inFlight ==> x >= MIN_AUTO_XID
  }

  ghost function DoReserve(s: Sys, c: nat, others: set<nat>): Sys
    requires ReservationsOk(s)
  {
    var x := NextXid(Used(s, others));
    s.(inFlight := InUse(s.inFlight, s.now)[x := s.now + LOCKED_XID_TTL],
       creations := s.creations[c := Reserved(x, s.now + LOCKED_XID_TTL)])
  }

  /** The clock moves on to `t`, then `a` happens. */
  ghost function Step(s: Sys, t: int, a: Action): (s': Sys)
    requires ReservationsOk(s)
    ensures ReservationsOk(s')
  {
    var s := s.(now := Max(s.now, t));
    if !Enabled(s, a) then s
    else
      match a
      case Reserve(c, others) => DoReserve(s, c, others)
      case Insert(c) =>
        var Reserved(x, d) := s.creations[c];
        s.(stored := s.stored + {x}, clash := s.clash || x in s.stored, creations := s.creations[c := Releasing(x, d)])
      case Fail(c) => s.(creations := s.creations[c := Releasing(s.creations[c].xid, s.creations[c].until)])
      case Release(c) => s.(inFlight := s.inFlight - {s.creations[c].xid}, creations := s.creations[c := Idle])
      case Abandon(c) => s.(creations := s.creations[c := Idle])
      case Delete(x) => s.(stored := s.stored - {x})
  }

  ghost function Run(s: Sys, acts: seq<(int, Action)>): Sys
    requires ReservationsOk(s)
    decreases |acts|
  {
    if acts == [] then s else Run(Step(s, acts[0].0, acts[0].1), acts[1..])
  }

  /** An insert or release happens no later than the reservation lapses. */
  ghost predicate OnTime(s: Sys, t: int, a: Action) {
    (a.Insert? || a.Release?) && Enabled(s, a) ==> Max(s.now, t) <= s.creations[a.c].until
  }

  ghost predicate AllOnTime(s: Sys, acts: seq<(int, Action)>)
    requires ReservationsOk(s)
    decreases |acts|
  {
    acts == [] || (OnTime(s, acts[0].0, acts[0].1) && AllOnTime(Step(s, acts[0].0, acts[0].1), acts[1..]))
  }

  // ----- no two accounts get the same id

  /** Creation `c` holds `x` under a reservation that has not lapsed. */
  ghost predicate HoldsXid(s: Sys, c: nat, x: nat) {
    c in s.creations && !s.creations[c].Idle? && s.creations[c].xid == x && s.now <= s.creations[c].until
  }

  ghost predicate Inv(s: Sys) {
    && !s.clash && ReservationsOk(s)
    && (forall c: nat, x: nat :: HoldsXid(s, c, x) ==>
          && x in s.inFlight && s.inFlight[x] == s.creations[c].until
          && (s.creations[c].Reserved? ==> x !in s.stored))
    && (forall c: nat, d: nat, x: nat :: HoldsXid(s, c, x) && HoldsXid(s, d, x) ==> c == d)
  }

  lemma LaterInv(s: Sys, t: int)
    requires Inv(s) && s.now <= t
    ensures Inv(s.(now := t))
  {
    var s' := s.(now := t);
    assert forall c: nat, x: nat :: HoldsXid(s', c, x) ==> HoldsXid(s, c, x);
  }

  lemma ReserveInv(s: Sys, c: nat, others: set<nat>)
    requires Inv(s) && c in s.creations && s.creations[c].Idle?
    ensures Inv(DoReserve(s, c, others))
  {
    var s', y := DoReserve(s, c, others), NextXid(Used(s, others));
    assert y !in s.stored;
    forall d: nat, x: nat | HoldsXid(s', d, x)
      ensures if d == c then x == y else HoldsXid(s, d, x) && x != y
    {
      if d != c {
        assert HoldsXid(s, d, x);
        assert x in InUse(s.inFlight, s.now) && x in Used(s, others);
      }
    }
  }

  lemma InsertInv(s: Sys, c: nat)
    requires Inv(s) && c in s.creations && s.creations[c].Reserved? && s.now <= s.creations[c].until
    ensures Inv(Step(s, s.now, Insert(c))) && s.creations[c].xid !in s.stored
  {
    var s', y := Step(s, s.now, Insert(c)), s.creations[c].xid;
    assert HoldsXid(s, c, y);
    assert forall d: nat, x: nat :: HoldsXid(s', d, x) <==> HoldsXid(s, d, x);
  }

  lemma ReleaseInv(s: Sys, c: nat)
    requires Inv(s) && c in s.creations && s.creations[c].Releasing? && s.now <= s.creations[c].until
    ensures Inv(Step(s, s.now, Release(c)))
  {
    var s', y := Step(s, s.now, Release(c)), s.creations[c].xid;
    assert HoldsXid(s, c, y);
    assert forall d: nat, x: nat :: HoldsXid(s', d, x) ==> HoldsXid(s, d, x) && d != c;
  }

  lemma OtherInv(s: Sys, a: Action)
    requires Inv(s) && Enabled(s, a) && (a.Fail? || a.Abandon? || a.Delete?)
    ensures Inv(Step(s, s.now, a))
  {
    var s' := Step(s, s.now, a);
    assert forall d: nat, x: nat :: HoldsXid(s', d, x) ==> HoldsXid(s, d, x);
  }

  lemma StepInv(s: Sys, t: int, a: Action)
    requires Inv(s) && OnTime(s, t, a)
    ensures Inv(Step(s, t, a))
  {
    var s1 := s.(now := Max(s.now, t));
    LaterInv(s, s1.now);
    if Enabled(s1, a) {
      assert Step(s, t, a) == Step(s1, s1.now, a);
      match a
      case Reserve(c, others) => ReserveInv(s1, c, others);
      case Insert(c) => InsertInv(s1, c);
      case Release(c) => ReleaseInv(s1, c);
      case _ => OtherInv(s1, a);
    }
  }

  lemma {:induction false} RunInv(s: Sys, acts: seq<(int, Action)>)
    requires Inv(s) && AllOnTime(s, acts)
    ensures Inv(Run(s, acts))
    decreases |acts|
  {
    if acts != [] {
      StepInv(s, acts[0].0, acts[0].1);
      RunInv(Step(s, acts[0].0, acts[0].1), acts[1..]);
    }
  }

  function Start(now: int, stored: set<nat>, callers: set<nat>): Sys {
    Sys(now, stored, map[], map c | c in callers :: Idle, false)
  }

  /** However creations interleave, as long as each stores and releases within the life of its reservation, no account
      is stored under an id that another one has, and no two creations hold one id. */
  lemma NoClash(now: int, stored: set<nat>, callers: set<nat>, acts: seq<(int, Action)>, c: nat, d: nat, x: nat)
    requires AllOnTime(Start(now, stored, callers), acts)
    ensures var s := Run(Start(now, stored, callers), acts);
            !s.clash && (HoldsXid(s, c, x) && HoldsXid(s, d, x) ==> c == d)
  {
    RunInv(Start(now, stored, callers), acts);
  }

  /** The id a reservation gives is the least one neither stored nor reserved at that moment. */
  lemma ReservesLeastFree(s: Sys, c: nat, others: set<nat>)
    requires Inv(s) && c in s.creations && s.creations[c].Idle?
    ensures var s' := Step(s, s.now, Reserve(c, others));
            && s'.creations[c].Reserved? && LeastFree(Used(s, others), s'.creations[c].xid)
            && var x := s'.creations[c].xid;
               x >= 3000 && Free(s, others, x) && forall y: nat :: 3000 <= y < x ==> !Free(s, others, y)
  {
    forall y: nat | y >= 3000
      ensures y in Used(s, others) <==> !Free(s, others, y)
    {
      assert y in InUse(s.inFlight, s.now) <==> y in s.inFlight && s.now <= s.inFlight[y];
    }
  }

  /** No account has the id, no privilege refers to it and no reservation of it holds. */
  ghost predicate Free(s: Sys, others: set<nat>, x: nat) {
    x !in s.stored && x !in others && (x in s.inFlight ==> s.now > s.inFlight[x])
  }

  /** A reservation holds for exactly an hour. */
  lemma HoldsForAnHour(s: Sys, c: nat, others: set<nat>, t: int)
    requires Inv(s) && c in s.creations && s.creations[c].Idle? && s.now <= t
    ensures var s1 := Step(s, s.now, Reserve(c, others));
            Free(s1.(now := t), others, s1.creations[c].xid) <==> t > s.now + 3600
  {
  }

  /** When a creation is through, stored or failed, its reservation is gone and only a stored account keeps the id
      taken; when it is abandoned the reservation stays. */
  lemma ReleasedAtTheEnd(s: Sys, c: nat, others: set<nat>)
    requires Inv(s) && c in s.creations && s.creations[c].Reserved? && s.creations[c].xid !in others
    requires s.creations[c].xid !in s.stored
    ensures var x := s.creations[c].xid;
            var stored := Step(Step(s, s.now, Insert(c)), s.now, Release(c));
            var failed := Step(Step(s, s.now, Fail(c)), s.now, Release(c));
            var dropped := Step(s, s.now, Abandon(c));
            && x in stored.stored && x !in stored.inFlight && stored.creations[c].Idle?
            && Free(Step(stored, s.now, Delete(x)), others, x)
            && Free(failed, others, x) && failed.creations[c].Idle?
            && dropped.inFlight == s.inFlight && dropped.stored == s.stored && dropped.creations[c].Idle?
  {
  }

  /** A second creation is given an id that a first still holds exactly when no reservation of it holds any more, swept
      from the table or not, and all lower ids are taken. That only happens after the first one's hour. */
  lemma GivenAgainIff(s: Sys, c: nat, d: nat, others: set<nat>)
    requires Inv(s) && c in s.creations && d in s.creations && s.creations[c].Reserved? && s.creations[d].Idle?
    ensures var x := s.creations[c].xid;
            Step(s, s.now, Reserve(d, others)).creations[d].xid == x
            <==> && x >= MIN_AUTO_XID && x !in s.stored + others && x !in InUse(s.inFlight, s.now)
                 && forall y: nat :: MIN_AUTO_XID <= y < x ==> y in Used(s, others)
    ensures s.creations[c].xid !in InUse(s.inFlight, s.now) ==> s.now > s.creations[c].until
  {
    var x := s.creations[c].xid;
    if x !in InUse(s.inFlight, s.now) {
      assert !HoldsXid(s, c, x);
    }
    if x >= MIN_AUTO_XID {
      assert x in Used(s, others) <==> x in s.stored + others || x in InUse(s.inFlight, s.now);
    }
  }

  /** Two creations, the second reserving an hour and a second after the first: both get 3000, and they clash. */
  lemma LateInsertClashes()
    ensures var acts := [(0, Reserve(1, {})), (3601, Reserve(2, {})), (3601, Insert(2)), (3601, Insert(1))];
            Run(Start(0, {}, {1, 2}), acts).clash
  {
    var s0 := Start(0, {}, {1, 2});
    var s1 := Step(s0, 0, Reserve(1, {}));
    assert Used(s0, {}) == {};
    assert s1.creations[1] == Reserved(3000, 3600);
    var s2 := Step(s1, 3601, Reserve(2, {}));
    assert Used(s1.(now := 3601), {}) == {};
    assert s2.creations[2].xid == 3000 && s2.creations[1] == Reserved(3000, 3600);
    var s3 := Step(s2, 3601, Insert(2));
    var s4 := Step(s3, 3601, Insert(1));
    var acts := [(0, Reserve(1, {})), (3601, Reserve(2, {})), (3601, Insert(2)), (3601, Insert(1))];
    assert Run(s4, []) == s4;
    assert Run(s3, acts[3..]) == s4;
    assert Run(s2, acts[2..]) == s4 by { assert acts[2..][1..] == acts[3..]; }
    assert Run(s1, acts[1..]) == s4 by { assert acts[1..][1..] == acts[2..]; }
  }

  // ----- the object

  /** The reservation table `ReservedXid`, with the clock as a parameter. */
  class ReservedXid {
    var inFlight: map<nat, int>

    constructor ()
      ensures inFlight == map[]
    {
      inFlight := map[];
    }

    method Available(xid: nat, now: int) returns (b: bool)
      modifies this
      ensures b == (xid !in InUse(old(inFlight), now))
      ensures inFlight == if b then old(inFlight) - {xid} else old(inFlight)
    {
      if xid !in inFlight {
        assert inFlight - {xid} == inFlight;
        return true;
      }
      if now > inFlight[xid] {
        inFlight := inFlight - {xid};
        return true;
      }
      b := false;
    }

    /** The assertion of the source, that the id is available, is the precondition. */
    method AddEntry(xid: nat, now: int)
      requires xid !in InUse(inFlight, now)
      modifies this
      ensures inFlight == old(inFlight)[xid := now + LOCKED_XID_TTL]
    {
      var b := Available(xid, now);
      inFlight := inFlight[xid := now + LOCKED_XID_TTL];
    }

    method RemoveEntry(xid: nat)
      modifies this
      ensures inFlight == old(inFlight) - {xid}
    {
      inFlight := inFlight - {xid};
    }

    /** The reservations that still hold; the others are dropped on the way. */
    method InUseNow(now: int) returns (used: set<nat>)
      modifies this
      ensures inFlight == InUse(old(inFlight), now) && used == inFlight.Keys
    {
      used := {};
      var rest := inFlight.Keys;
      while rest != {}
        invariant rest <= inFlight.Keys <= old(inFlight).Keys
        invariant forall x :: x in inFlight ==> inFlight[x] == old(inFlight)[x]
        invariant forall x :: x in rest ==> x in inFlight
        invariant forall x :: x in old(inFlight) && x !in rest ==> (x in inFlight <==> now <= old(inFlight)[x])
        invariant used == inFlight.Keys - rest
        decreases rest
      {
        var x :| x in rest;
        var b := Available(x, now);
        if !b {
          used := used + {x};
        }
        rest := rest - {x};
      }
    }
  }
}
