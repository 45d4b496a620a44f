/** `FsLockManager`: which lock a path gets. The table is keyed by normalised paths and searched for a key that is an
    ancestor or a descendant of the request, the first one found in dictionary order winning. */
module FsLocks {
  import opened Prelude

  /** What `os.path.normpath` can return: `/a/b`, `//a/b` (two leading slashes are kept), or `a/b`, with `.` for nothing
      left. */
  datatype Path = Rooted(parts: seq<string>) | DoubleRooted(parts: seq<string>) | Relative(parts: seq<string>)

  predicate Absolute(p: Path) {
    !p.Relative?
  }

  function CommonParts(a: seq<string>, b: seq<string>): (c: seq<string>)
    ensures c <= a && c <= b
    ensures c == a <==> a <= b
    ensures c == b <==> b <= a
  {
    if a == [] || b == [] || a[0] != b[0] then []
    else
      assert a == [a[0]] + a[1..] && b == [b[0]] + b[1..];
      [a[0]] + CommonParts(a[1..], b[1..])
  }

  /** `os.path.commonpath([a, b])`, or `None` for the `ValueError` on mixing absolute and relative paths. For two
      absolute paths the result has one leading slash; for relative ones with nothing in common it is the empty string,
      which no normalised path equals. */
  datatype Common = Named(path: Path) | Empty

  function CommonPath(a: Path, b: Path): Option<Common> {
    if Absolute(a) != Absolute(b) then None
    else
      var c := CommonParts(a.parts, b.parts);
      if Absolute(a) then Some(Named(Rooted(c)))
      else if c == [] then Some(Empty)
      else Some(Named(Relative(c)))
  }

  /** `os.path.commonpath([k, path]) in [k, path]`, where that does not raise. */
  predicate Matches(k: Path, p: Path) {
    CommonPath(k, p) == Some(Named(k)) || CommonPath(k, p) == Some(Named(p))
  }

  /** A path that is its own common path: neither `.` nor one with two leading slashes. */
  predicate Plain(p: Path) {
    p.Rooted? || (p.Relative? && p.parts != [])
  }

  /** `b` spelled out begins with `a`: what the code's test looks at. */
  predicate Begins(a: Path, b: Path) {
    Absolute(a) == Absolute(b) && a.parts <= b.parts
  }

  lemma MatchesMeans(a: Path, b: Path)
    requires Absolute(a) == Absolute(b)
    ensures Matches(a, b) <==> (Plain(a) && Begins(a, b)) || (Plain(b) && Begins(b, a))
  {
    var c := CommonParts(a.parts, b.parts);
  }

  // ----- the ancestor order

  /** The number of leading `..`. */
  function Ups(parts: seq<string>): (n: nat)
    ensures n <= |parts| && (forall i :: 0 <= i < n ==> parts[i] == "..") && (n < |parts| ==> parts[n] != "..")
  {
    if parts == [] || parts[0] != ".." then 0 else 1 + Ups(parts[1..])
  }

  /** How far above its starting point a path begins. */
  function Level(p: Path): nat {
    if p.Relative? then Ups(p.parts) else 0
  }

  /** `..`, `../..` and so on. */
  predicate Climbs(p: Path) {
    p.Relative? && p.parts != [] && Ups(p.parts) == |p.parts|
  }

  /** `a` is `b` or an ancestor of it: it spells a beginning of `b`, or it only climbs, and higher than `b` does. */
  predicate AtOrAbove(a: Path, b: Path) {
    && Absolute(a) == Absolute(b)
    && if Level(a) == Level(b) then a.parts <= b.parts else Level(a) > Level(b) && Climbs(a)
  }

  /** After normalisation `..` stands only at the beginning of a relative path. */
  predicate Normal(p: Path) {
    forall k :: Level(p) <= k < |p.parts| ==> p.parts[k] != ".."
  }

  /** Following the parts of a path from a directory; at the top, `..` leads nowhere. */
  function Walk(at: seq<string>, parts: seq<string>): seq<string>
    decreases |parts|
  {
    if parts == [] then at
    else if parts[0] == ".." then Walk(if at == [] then [] else at[..|at| - 1], parts[1..])
    else Walk(at + [parts[0]], parts[1..])
  }

  /** The place a path names, for one that is relative as seen from `cwd`. */
  function Place(cwd: seq<string>, p: Path): seq<string> {
    Walk(if p.Relative? then cwd else [], p.parts)
  }

  lemma {:induction false} WalkDown(at: seq<string>, parts: seq<string>)
    requires forall k :: 0 <= k < |parts| ==> parts[k] != ".."
    ensures Walk(at, parts) == at + parts
    decreases |parts|
  {
    if parts == [] {
      assert at + parts == at;
    } else {
      WalkDown(at + [parts[0]], parts[1..]);
      assert at + parts == (at + [parts[0]]) + parts[1..];
    }
  }

  function Climbed(at: seq<string>, ups: nat): seq<string> {
    if ups < |at| then at[..|at| - ups] else []
  }

  lemma {:induction false} WalkNormal(at: seq<string>, parts: seq<string>)
    requires forall k :: Ups(parts) <= k < |parts| ==> parts[k] != ".."
    ensures Walk(at, parts) == Climbed(at, Ups(parts)) + parts[Ups(parts)..]
    decreases |parts|
  {
    if parts == [] || parts[0] != ".." {
      WalkDown(at, parts);
      assert Climbed(at, 0) == at;
    } else {
      var up := if at == [] then [] else at[..|at| - 1];
      WalkNormal(up, parts[1..]);
      assert Climbed(up, Ups(parts[1..])) == Climbed(at, Ups(parts));
      assert parts[1..][Ups(parts[1..])..] == parts[Ups(parts)..];
    }
  }

  /** Where the walk of a normalised path ends. */
  lemma PlaceOf(cwd: seq<string>, p: Path)
    requires Normal(p)
    ensures Place(cwd, p) == if p.Relative? then Climbed(cwd, Level(p)) + p.parts[Level(p)..] else p.parts
  {
    if p.Relative? {
      WalkNormal(cwd, p.parts);
    } else {
      WalkDown([], p.parts);
      assert [] + p.parts == p.parts;
    }
  }

  /** This is the ancestor order: the place of `a` lies at or above that of `b`, from whatever directory they are
      seen. */
  lemma AboveMeans(a: Path, b: Path)
    requires Normal(a) && Normal(b) && Absolute(a) == Absolute(b)
    ensures AtOrAbove(a, b) <==> forall cwd :: Place(cwd, a) <= Place(cwd, b)
  {
    if AtOrAbove(a, b) {
      forall cwd
        ensures Place(cwd, a) <= Place(cwd, b)
      {
        AbovePlaces(cwd, a, b);
      }
    } else {
      var cwd := NotAbovePlaces(a, b);
    }
  }

  lemma AbovePlaces(cwd: seq<string>, a: Path, b: Path)
    requires Normal(a) && Normal(b) && AtOrAbove(a, b)
    ensures Place(cwd, a) <= Place(cwd, b)
  {
    PlaceOf(cwd, a);
    PlaceOf(cwd, b);
    var n := Level(a);
    if a.Relative? && n == Level(b) {
      assert a.parts[n..] == b.parts[n..|a.parts|];
    } else if a.Relative? {
      assert a.parts[n..] == [];
      assert Climbed(cwd, n) <= Climbed(cwd, Level(b));
    }
  }

  /** Otherwise there is a directory from which it does not, one whose parts occur in neither path. */
  lemma NotAbovePlaces(a: Path, b: Path) returns (cwd: seq<string>)
    requires Normal(a) && Normal(b) && Absolute(a) == Absolute(b) && !AtOrAbove(a, b)
    ensures !(Place(cwd, a) <= Place(cwd, b))
  {
    if Level(a) == Level(b) {
      cwd := [];
      SameLevelApart(a, b);
    } else {
      cwd := if Level(a) < Level(b) then Elsewhere(b) else Elsewhere(a);
      if Level(a) < Level(b) {
        HigherPlace(b, a);
      } else {
        HigherPlace(a, b);
      }
    }
  }

  lemma SameLevelApart(a: Path, b: Path)
    requires Normal(a) && Normal(b) && Absolute(a) == Absolute(b) && Level(a) == Level(b) && !(a.parts <= b.parts)
    ensures !(Place([], a) <= Place([], b))
  {
    PlaceOf([], a);
    PlaceOf([], b);
    var n := Level(a);
    if a.Relative? {
      assert Place([], a) == a.parts[n..] && Place([], b) == b.parts[n..];
      if a.parts[n..] <= b.parts[n..] {
        SameBeginning(a.parts, b.parts, n);
      }
    }
  }

  /** A directory just deep enough for the path, whose parts do not occur where the path goes down. */
  function Elsewhere(p: Path): (cwd: seq<string>)
    ensures |cwd| == Level(p)
  {
    seq(Level(p), _ => if Level(p) < |p.parts| then p.parts[Level(p)] + "x" else "x")
  }

  /** From there, the path that climbs higher starts at the top, and the other one in a part of the directory. */
  lemma HigherPlace(high: Path, low: Path)
    requires Normal(high) && Normal(low) && high.Relative? && low.Relative? && Level(high) > Level(low)
    ensures var cwd := Elsewhere(high);
            && Place(cwd, high) == high.parts[Level(high)..]
            && Place(cwd, low) != [] && (Place(cwd, high) != [] ==> Place(cwd, low)[0] != Place(cwd, high)[0])
  {
    var cwd, n := Elsewhere(high), Level(high);
    assert Place(cwd, high) == high.parts[n..] by {
      PlaceOf(cwd, high);
      assert Climbed(cwd, n) == [];
    }
    assert Place(cwd, low) != [] && Place(cwd, low)[0] == cwd[0] by {
      PlaceOf(cwd, low);
      assert Climbed(cwd, Level(low))[0] == cwd[0];
    }
    if n < |high.parts| {
      assert |cwd[0]| == |high.parts[n]| + 1;
    }
  }

  lemma SameBeginning(p: seq<string>, q: seq<string>, n: nat)
    requires n == Ups(p) == Ups(q) && p[n..] <= q[n..]
    ensures p <= q
  {
    forall i | 0 <= i < |p|
      ensures i < |q| && p[i] == q[i]
    {
      if i >= n {
        assert p[n..][i - n] == q[n..][i - n];
      }
    }
  }

  lemma BeginsLevel(a: Path, b: Path)
    requires Begins(a, b)
    ensures Level(a) <= Level(b) && (Level(a) < Level(b) ==> Level(a) == |a.parts|)
  {
    if a.Relative? && Level(a) < |a.parts| {
      assert b.parts[Level(a)] == a.parts[Level(a)];
    }
  }

  /** The code's test of two plain paths tells whether one is an ancestor of the other exactly when both begin at the
      same level, or both only climb, or neither does. */
  lemma TestIsRightIff(a: Path, b: Path)
    requires Absolute(a) == Absolute(b) && Plain(a) && Plain(b)
    ensures (Matches(a, b) <==> AtOrAbove(a, b) || AtOrAbove(b, a))
       <==> Level(a) == Level(b) || (Climbs(a) <==> Climbs(b))
  {
    MatchesMeans(a, b);
    if Begins(a, b) {
      BeginsLevel(a, b);
    }
    if Begins(b, a) {
      BeginsLevel(b, a);
    }
    ClimbersBegin(a, b);
    ClimbersBegin(b, a);
  }

  /** Of two relative paths, one that only climbs begins the one that climbs at least as far. */
  lemma ClimbersBegin(a: Path, b: Path)
    requires Absolute(a) == Absolute(b)
    ensures Climbs(a) && Level(a) <= Level(b) ==> Begins(a, b)
  {
  }

  // ----- the table

  /** Keys in dictionary order, with the lock object of each; `nextLock` numbers the lock objects. */
  datatype Table = Table(keys: seq<Path>, locks: map<Path, nat>, nextLock: nat)

  predicate SameKind(ks: seq<Path>, p: Path) {
    forall i :: 0 <= i < |ks| ==> Absolute(ks[i]) == Absolute(p)
  }

  function FirstMatch(ks: seq<Path>, p: Path): (i: nat)
    requires SameKind(ks, p)
    ensures i <= |ks|
    ensures i < |ks| ==> Matches(ks[i], p)
    ensures forall k :: 0 <= k < i ==> !Matches(ks[k], p)
  {
    MatchFrom(ks, p, 0)
  }

  /** The search from position `i` on. */
  function MatchFrom(ks: seq<Path>, p: Path, i: nat): (r: nat)
    requires i <= |ks|
    ensures i <= r <= |ks|
    ensures r < |ks| ==> Matches(ks[r], p)
    ensures forall k :: i <= k < r ==> !Matches(ks[k], p)
    decreases |ks| - i
  {
    if i == |ks| || Matches(ks[i], p) then i else MatchFrom(ks, p, i + 1)
  }

  ghost predicate Keyed(t: Table) {
    && Distinct(t.keys)
    && (forall k :: k in t.keys <==> k in t.locks)
  }

  /** `lock(path)`: the lock handed out and the table afterwards. */
  function LockFor(t: Table, p: Path): (Table, nat)
    requires SameKind(t.keys, p) && Keyed(t)
  {
    var i := FirstMatch(t.keys, p);
    if i < |t.keys| then (t, t.locks[t.keys[i]])
    else
      (Table(if p in t.locks then t.keys else t.keys + [p], t.locks[p := t.nextLock], t.nextLock + 1), t.nextLock)
  }

  /** `_remove_lock(path)`. */
  function Remove(t: Table, p: Path): Table {
    t.(keys := Without(t.keys, p), locks := t.locks - {p})
  }

  datatype Action = DoLock(path: Path) | DoRemove(path: Path)

  /** All paths of one manager are of one kind: local paths are absolute, remote ones relative. */
  ghost predicate OfKind(acts: seq<Action>, absolute: bool) {
    forall i :: 0 <= i < |acts| && acts[i].DoLock? ==> Absolute(acts[i].path) == absolute
  }

  /** No key passes the test against another: one that begins another is not plain. */
  ghost predicate Apart(keys: seq<Path>, absolute: bool) {
    && (forall i :: 0 <= i < |keys| ==> Absolute(keys[i]) == absolute)
    && (forall i, k :: 0 <= i < |keys| && 0 <= k < |keys| && i != k && Begins(keys[i], keys[k]) ==> !Plain(keys[i]))
  }

  lemma KeysDoNotMatch(keys: seq<Path>, absolute: bool, i: nat, k: nat)
    requires Apart(keys, absolute) && i < |keys| && k < |keys| && i != k
    ensures !Matches(keys[i], keys[k])
  {
    MatchesMeans(keys[i], keys[k]);
  }

  /** A path that the test keeps clear of everything below it: not `.`, not `..` or `../..`, and not one with two
      leading slashes. */
  predicate Firm(p: Path) {
    Plain(p) && !Climbs(p)
  }

  /** Only a key that is not firm is an ancestor of another, so the firm keys are an antichain in the ancestor order. */
  ghost predicate Antichain(keys: seq<Path>) {
    forall i, k :: 0 <= i < |keys| && 0 <= k < |keys| && i != k && AtOrAbove(keys[i], keys[k]) ==> !Firm(keys[i])
  }

  lemma ApartIsAntichain(keys: seq<Path>, absolute: bool)
    requires Apart(keys, absolute)
    ensures Antichain(keys)
  {
    forall i, k | 0 <= i < |keys| && 0 <= k < |keys| && i != k && AtOrAbove(keys[i], keys[k])
      ensures !Firm(keys[i])
    {
      assert Level(keys[i]) == Level(keys[k]) ==> Begins(keys[i], keys[k]);
    }
  }

  /** Each key has a lock object of its own. */
  ghost predicate OwnLocks(t: Table) {
    && (forall k :: k in t.locks ==> t.locks[k] < t.nextLock)
    && (forall k, l :: k in t.locks && l in t.locks && t.locks[k] == t.locks[l] ==> k == l)
  }

  ghost predicate Inv(t: Table, absolute: bool) {
    Keyed(t) && Apart(t.keys, absolute) && OwnLocks(t)
  }

  lemma NewKeyApart(keys: seq<Path>, p: Path)
    requires Apart(keys, Absolute(p)) && FirstMatch(keys, p) == |keys|
    ensures Apart(keys + [p], Absolute(p))
  {
    forall k | 0 <= k < |keys|
      ensures Begins(keys[k], p) ==> !Plain(keys[k])
      ensures Begins(p, keys[k]) ==> !Plain(p)
    {
      MatchesMeans(keys[k], p);
    }
  }

  lemma NewKeyKeyed(t: Table, p: Path)
    requires Keyed(t) && OwnLocks(t)
    ensures var t' := Table(if p in t.locks then t.keys else t.keys + [p], t.locks[p := t.nextLock], t.nextLock + 1);
            Keyed(t') && OwnLocks(t')
  {
    assert p !in t.locks ==> forall k :: k in t.keys + [p] <==> k in t.keys || k == p;
  }

  lemma LockInv(t: Table, p: Path)
    requires Inv(t, Absolute(p))
    ensures Inv(LockFor(t, p).0, Absolute(p)) && Antichain(LockFor(t, p).0.keys)
  {
    if FirstMatch(t.keys, p) == |t.keys| {
      NewKeyApart(t.keys, p);
      NewKeyKeyed(t, p);
    }
    ApartIsAntichain(LockFor(t, p).0.keys, Absolute(p));
  }

  lemma RemoveInv(t: Table, p: Path, absolute: bool)
    requires Inv(t, absolute)
    ensures Inv(Remove(t, p), absolute) && Antichain(Remove(t, p).keys)
  {
    var r := Without(t.keys, p);
    WithoutDistinct(t.keys, p);
    forall i | 0 <= i < |r|
      ensures Absolute(r[i]) == absolute
    {
      assert r[i] in t.keys;
    }
    forall i, k | 0 <= i < |r| && 0 <= k < |r| && i != k && Begins(r[i], r[k])
      ensures !Plain(r[i])
    {
      assert r[i] in t.keys && r[k] in t.keys;
      var x, y :| 0 <= x < |t.keys| && 0 <= y < |t.keys| && t.keys[x] == r[i] && t.keys[y] == r[k];
    }
    ApartIsAntichain(r, absolute);
  }

  const EMPTY := Table([], map[], 0)

  /** The table after a run of lookups and removals of one kind of path. */
  ghost function Run(t: Table, acts: seq<Action>, absolute: bool): (t': Table)
    requires Inv(t, absolute) && OfKind(acts, absolute)
    ensures Inv(t', absolute)
    decreases |acts|
  {
    if acts == [] then t
    else
      var t1 := (match acts[0]
                 case DoLock(p) => LockInv(t, p); LockFor(t, p).0
                 case DoRemove(p) => RemoveInv(t, p, absolute); Remove(t, p));
      Run(t1, acts[1..], absolute)
  }

  // ----- results

  ghost predicate NoneAbove(keys: seq<Path>) {
    forall i, k :: 0 <= i < |keys| && 0 <= k < |keys| && i != k ==> !AtOrAbove(keys[i], keys[k])
  }

  /** As long as only firm paths are locked, the keys are an antichain: none is an ancestor of another. */
  lemma FirmTableIsAntichain(acts: seq<Action>, absolute: bool)
    requires OfKind(acts, absolute) && forall i :: 0 <= i < |acts| && acts[i].DoLock? ==> Firm(acts[i].path)
    ensures NoneAbove(Run(EMPTY, acts, absolute).keys)
  {
    FirmKeys(EMPTY, acts, absolute);
    ApartIsAntichain(Run(EMPTY, acts, absolute).keys, absolute);
  }

  lemma {:induction false} FirmKeys(t: Table, acts: seq<Action>, absolute: bool)
    requires Inv(t, absolute) && OfKind(acts, absolute) && (forall i :: 0 <= i < |t.keys| ==> Firm(t.keys[i]))
    requires forall i :: 0 <= i < |acts| && acts[i].DoLock? ==> Firm(acts[i].path)
    ensures forall i :: 0 <= i < |Run(t, acts, absolute).keys| ==> Firm(Run(t, acts, absolute).keys[i])
    decreases |acts|
  {
    if acts != [] {
      match acts[0]
      case DoLock(p) =>
        LockInv(t, p);
        FirmKeys(LockFor(t, p).0, acts[1..], absolute);
      case DoRemove(p) =>
        RemoveInv(t, p, absolute);
        var r := Remove(t, p);
        forall i | 0 <= i < |r.keys|
          ensures Firm(r.keys[i])
        {
          assert r.keys[i] in t.keys;
        }
        FirmKeys(r, acts[1..], absolute);
    }
  }

  /** Both paths are locked at once, one above the other. */
  ghost predicate LockedTogether(acts: seq<Action>, a: Path, b: Path)
    requires OfKind(acts, Absolute(a))
  {
    var keys := Run(EMPTY, acts, Absolute(a)).keys;
    a in keys && b in keys && a != b && AtOrAbove(a, b)
  }

  /** The requests that `normpath` leaves: of one kind and normalised. */
  ghost predicate Requests(acts: seq<Action>, absolute: bool) {
    OfKind(acts, absolute) && forall i :: 0 <= i < |acts| && acts[i].DoLock? ==> Normal(acts[i].path)
  }

  /** A path can be locked together with one below it, in some run, exactly when it is not firm. */
  lemma AboveAnotherIff(a: Path)
    requires Normal(a)
    ensures (exists acts, b :: Requests(acts, Absolute(a)) && LockedTogether(acts, a, b)) <==> !Firm(a)
  {
    if Firm(a) {
      forall acts, b | Requests(acts, Absolute(a))
        ensures !LockedTogether(acts, a, b)
      {
        FirmIsAlone(acts, a, b);
      }
    } else {
      var b := BelowIt(a);
      LooseIsNotAlone(a);
      assert Requests([DoLock(a), DoLock(b)], Absolute(a)) && LockedTogether([DoLock(a), DoLock(b)], a, b);
    }
  }

  /** A path below one that is not firm, which does not match it. */
  function BelowIt(a: Path): Path {
    if a.Relative? then Relative(["a"]) else DoubleRooted(a.parts + ["a"])
  }

  lemma LooseIsNotAlone(a: Path)
    requires Normal(a) && !Firm(a)
    ensures var b := BelowIt(a);
            Requests([DoLock(a), DoLock(b)], Absolute(a)) && LockedTogether([DoLock(a), DoLock(b)], a, b)
  {
    var b := BelowIt(a);
    assert Ups(["a"]) == 0;
    assert a.Relative? && a.parts != [] ==> a.parts[0] != "a";
    assert Normal(b) && AtOrAbove(a, b) && !Matches(a, b);
    TwoLocked(a, b);
    var keys := Run(EMPTY, [DoLock(a), DoLock(b)], Absolute(a)).keys;
    assert keys[0] == a && keys[1] == b;
  }

  lemma FirmIsAlone(acts: seq<Action>, a: Path, b: Path)
    requires OfKind(acts, Absolute(a)) && Firm(a)
    ensures !LockedTogether(acts, a, b)
  {
    var keys := Run(EMPTY, acts, Absolute(a)).keys;
    ApartIsAntichain(keys, Absolute(a));
    if a in keys && b in keys && a != b {
      var i, k :| 0 <= i < |keys| && 0 <= k < |keys| && keys[i] == a && keys[k] == b;
      assert !AtOrAbove(keys[i], keys[k]);
    }
  }

  lemma RunOne(t: Table, p: Path, rest: seq<Action>)
    requires Inv(t, Absolute(p)) && OfKind([DoLock(p)] + rest, Absolute(p)) && OfKind(rest, Absolute(p))
    ensures Inv(LockFor(t, p).0, Absolute(p))
    ensures Run(t, [DoLock(p)] + rest, Absolute(p)) == Run(LockFor(t, p).0, rest, Absolute(p))
  {
    LockInv(t, p);
    assert ([DoLock(p)] + rest)[1..] == rest;
  }

  /** Two paths that do not match are both locked after being asked for in turn. */
  lemma TwoLocked(a: Path, b: Path)
    requires Absolute(a) == Absolute(b) && a != b && !Matches(a, b)
    ensures var acts := [DoLock(a), DoLock(b)];
            OfKind(acts, Absolute(a)) && Run(EMPTY, acts, Absolute(a)).keys == [a, b]
  {
    assert [DoLock(a), DoLock(b)] == [DoLock(a)] + ([DoLock(b)] + []);
    RunOne(EMPTY, a, [DoLock(b)] + []);
    var t1 := LockFor(EMPTY, a).0;
    assert t1.keys == [a];
    RunOne(t1, b, []);
    assert LockFor(t1, b).0.keys == [a, b] by {
      assert !Matches(t1.keys[0], b);
    }
  }

  /** `//a` and `//a/b` are locked at the same time, by different locks. */
  lemma TwoSlashesBreakAntichain()
    ensures var a, b := DoubleRooted(["a"]), DoubleRooted(["a", "b"]);
            && Requests([DoLock(a), DoLock(b)], true)
            && Run(EMPTY, [DoLock(a), DoLock(b)], true).keys == [a, b]
            && AtOrAbove(a, b) && !NoneAbove([a, b])
  {
    var a, b := DoubleRooted(["a"]), DoubleRooted(["a", "b"]);
    TwoLocked(a, b);
    assert AtOrAbove([a, b][0], [a, b][1]);
  }

  /** `..` and `5/x`, the keys for the remote folders `../..` and `x` of credential 5, are locked at the same time. */
  lemma ClimbingBreaksAntichain()
    ensures var a, b := Relative([".."]), Relative(["5", "x"]);
            && Requests([DoLock(a), DoLock(b)], false)
            && Run(EMPTY, [DoLock(a), DoLock(b)], false).keys == [a, b]
            && AtOrAbove(a, b) && !NoneAbove([a, b])
  {
    var a, b := Relative([".."]), Relative(["5", "x"]);
    assert a.parts[0] != b.parts[0];
    TwoLocked(a, b);
    assert AtOrAbove([a, b][0], [a, b][1]);
  }

  /** With `../../x` locked, a request for `..` shares its lock, although neither is an ancestor of the other. */
  lemma ClimbingSharesLock()
    ensures var k, p := Relative(["..", "..", "x"]), Relative([".."]);
            && Requests([DoLock(k), DoLock(p)], false) && !AtOrAbove(k, p) && !AtOrAbove(p, k)
            && var t := Run(EMPTY, [DoLock(k)], false);
               t.keys == [k] && LockFor(t, p) == (t, t.locks[k])
  {
    var k, p := Relative(["..", "..", "x"]), Relative([".."]);
    assert Ups(k.parts) == 2 && Ups(p.parts) == 1 by {
      assert k.parts[1..] == ["..", "x"] && k.parts[1..][1..] == ["x"] && p.parts[1..] == [];
    }
    MatchesMeans(k, p);
    MatchShares(k, p);
  }

  /** A request that matches the only key gets its lock. */
  lemma MatchShares(k: Path, p: Path)
    requires Absolute(k) == Absolute(p) && Matches(k, p)
    ensures OfKind([DoLock(k)], Absolute(k))
    ensures var t := Run(EMPTY, [DoLock(k)], Absolute(k));
            t.keys == [k] && LockFor(t, p) == (t, t.locks[k])
  {
    assert [DoLock(k)] == [DoLock(k)] + [];
    RunOne(EMPTY, k, []);
    var t := LockFor(EMPTY, k).0;
    assert t.keys == [k];
    assert Matches(t.keys[0], p);
  }

  /** Both ways for a key that is not plain, or climbs higher than the request, to match a request below it. */
  predicate StillMatches(k: Path, p: Path) {
    || (!Plain(k) && Plain(p) && p.parts == k.parts)
    || (Climbs(k) && Climbs(p))
  }

  /** In every reachable table, a request at or below a plain key of its level, firm or not, matches that key and no
      other and gets its lock, whatever the dictionary's order. At or below any other key it gets that key's lock only
      when it is the plain spelling of the very same path, or both only climb, and the key is the first to match. */
  lemma BelowAKeyGetsIt(acts: seq<Action>, absolute: bool, k: Path, p: Path)
    requires OfKind(acts, absolute) && Absolute(p) == absolute
    requires var t := Run(EMPTY, acts, absolute); k in t.keys && AtOrAbove(k, p)
    ensures var t := Run(EMPTY, acts, absolute);
            var f := FirstMatch(t.keys, p);
            var level := Plain(k) && Level(k) == Level(p);
            && (Firm(k) ==> level)
            && (level ==> forall j :: 0 <= j < |t.keys| && Matches(t.keys[j], p) ==> t.keys[j] == k)
            && (LockFor(t, p) == (t, t.locks[k])
                <==> level || (StillMatches(k, p) && f < |t.keys| && t.keys[f] == k))
  {
    var t := Run(EMPTY, acts, absolute);
    if Plain(k) && Level(k) == Level(p) {
      OnlyPlainMatch(t, k, p);
    }
    MatchesBelow(k, p);
    GetsLockOf(t, k, p);
  }

  /** When a path passes the test against one that it is at or above. */
  lemma MatchesBelow(k: Path, p: Path)
    requires AtOrAbove(k, p)
    ensures Matches(k, p) <==> (Plain(k) && Level(k) == Level(p)) || StillMatches(k, p)
  {
    MatchesMeans(k, p);
    if Begins(k, p) {
      BeginsLevel(k, p);
    }
    if Begins(p, k) {
      BeginsLevel(p, k);
    }
    ClimbersBegin(p, k);
  }

  /** A request is given the lock of a key exactly when that key is the first to match it. */
  lemma GetsLockOf(t: Table, k: Path, p: Path)
    requires Inv(t, Absolute(p)) && k in t.keys
    ensures var f := FirstMatch(t.keys, p);
            && (LockFor(t, p) == (t, t.locks[k]) <==> f < |t.keys| && t.keys[f] == k)
            && (Matches(k, p) ==> f < |t.keys|)
  {
    var i :| 0 <= i < |t.keys| && t.keys[i] == k;
  }

  lemma OnlyPlainMatch(t: Table, k: Path, p: Path)
    requires Inv(t, Absolute(p)) && k in t.keys && Plain(k) && Begins(k, p)
    ensures forall j :: 0 <= j < |t.keys| && Matches(t.keys[j], p) ==> t.keys[j] == k
  {
    var i :| 0 <= i < |t.keys| && t.keys[i] == k;
    forall j | 0 <= j < |t.keys| && Matches(t.keys[j], p)
      ensures t.keys[j] == k
    {
      MatchesMeans(t.keys[j], p);
      if j != i {
        TwoMatchesCompare(t.keys[j], k, p);
        KeysDoNotMatch(t.keys, Absolute(p), j, i);
      }
    }
  }

  lemma TwoMatchesCompare(a: Path, k: Path, p: Path)
    requires Absolute(a) == Absolute(k) == Absolute(p) && Plain(k) && Begins(k, p)
    requires (Plain(a) && Begins(a, p)) || (Plain(p) && Begins(p, a))
    ensures Matches(a, k)
  {
    MatchesMeans(a, k);
    if Begins(p, a) {
      assert k.parts <= a.parts;
    } else if |a.parts| <= |k.parts| {
      assert a.parts == p.parts[..|a.parts|] == k.parts[..|a.parts|];
    } else {
      assert k.parts == p.parts[..|k.parts|] == a.parts[..|k.parts|];
    }
  }

  /** The keys a request matches. */
  ghost function Candidates(t: Table, p: Path): set<Path>
    requires SameKind(t.keys, p)
  {
    set i | 0 <= i < |t.keys| && Matches(t.keys[i], p) :: t.keys[i]
  }

  /** The same table with its dictionary in another order. */
  ghost predicate Reordered(t: Table, u: Table) {
    Keyed(t) && Keyed(u) && u.locks == t.locks && u.nextLock == t.nextLock && forall k :: k in t.keys <==> k in u.keys
  }

  /** Every order of the dictionary hands out the same lock. */
  ghost predicate OrderIndependent(t: Table, p: Path)
    requires Keyed(t) && SameKind(t.keys, p)
  {
    forall u :: Reordered(t, u) && SameKind(u.keys, p) ==> LockFor(u, p).1 == LockFor(t, p).1
  }

  /** A request that matches several keys begins all of them. It lies above each of them that does not climb higher, and
      so above all of them unless it only climbs. */
  lemma SeveralLieBelow(t: Table, p: Path, a: Path, b: Path)
    requires Inv(t, Absolute(p)) && a in Candidates(t, p) && b in Candidates(t, p) && a != b
    ensures Plain(p) && Begins(p, a) && Begins(p, b)
    ensures (AtOrAbove(p, a) <==> Level(a) == Level(p)) && (AtOrAbove(p, b) <==> Level(b) == Level(p))
    ensures Firm(p) ==> AtOrAbove(p, a) && AtOrAbove(p, b)
  {
    var i, k :| 0 <= i < |t.keys| && 0 <= k < |t.keys| && t.keys[i] == a && t.keys[k] == b;
    KeysDoNotMatch(t.keys, Absolute(p), i, k);
    KeysDoNotMatch(t.keys, Absolute(p), k, i);
    MatchesMeans(a, p);
    MatchesMeans(b, p);
    if Plain(a) && Begins(a, p) {
      TwoMatchesCompare(b, a, p);
    } else if Plain(b) && Begins(b, p) {
      TwoMatchesCompare(a, b, p);
    }
    BeginsLevel(p, a);
    BeginsLevel(p, b);
  }

  /** A request depends on the dictionary's order exactly when it matches two keys. */
  lemma OrderMattersIff(t: Table, p: Path)
    requires Inv(t, Absolute(p))
    ensures OrderIndependent(t, p) <==> forall a, b :: a in Candidates(t, p) && b in Candidates(t, p) ==> a == b
  {
    if forall a, b :: a in Candidates(t, p) && b in Candidates(t, p) ==> a == b {
      forall u | Reordered(t, u) && SameKind(u.keys, p)
        ensures LockFor(u, p).1 == LockFor(t, p).1
      {
        OnlyCandidate(t, u, p);
      }
    } else {
      var a, b :| a in Candidates(t, p) && b in Candidates(t, p) && a != b;
      TwoOrders(t, p, a, b);
    }
  }

  /** With `/a/b` and `/a/c` locked, a request for `/a` gets the lock of whichever comes first. */
  lemma ParentDependsOnOrder()
    ensures var b, c, p := Rooted(["a", "b"]), Rooted(["a", "c"]), Rooted(["a"]);
            && OfKind([DoLock(b), DoLock(c)], true)
            && !OrderIndependent(Run(EMPTY, [DoLock(b), DoLock(c)], true), p)
  {
    var b, c, p := Rooted(["a", "b"]), Rooted(["a", "c"]), Rooted(["a"]);
    assert b.parts[1] != c.parts[1];
    MatchesMeans(b, c);
    TwoLocked(b, c);
    var t := Run(EMPTY, [DoLock(b), DoLock(c)], true);
    MatchesMeans(b, p);
    MatchesMeans(c, p);
    assert t.keys[0] == b && t.keys[1] == c;
    assert Begins(p, b) && Begins(p, c);
    TwoOrders(t, p, b, c);
  }

  lemma TwoOrders(t: Table, p: Path, a: Path, b: Path)
    requires Keyed(t) && SameKind(t.keys, p) && OwnLocks(t)
    requires a in Candidates(t, p) && b in Candidates(t, p) && a != b
    ensures !OrderIndependent(t, p)
  {
    FrontWins(t, a, p);
    FrontWins(t, b, p);
    var u, v := FrontTable(t, a), FrontTable(t, b);
    assert LockFor(u, p).1 != LockFor(v, p).1;
  }

  lemma FrontWins(t: Table, a: Path, p: Path)
    requires Keyed(t) && SameKind(t.keys, p) && a in Candidates(t, p)
    ensures var u := FrontTable(t, a); Reordered(t, u) && SameKind(u.keys, p) && LockFor(u, p).1 == t.locks[a]
  {
  }

  lemma OnlyCandidate(t: Table, u: Table, p: Path)
    requires Keyed(t) && SameKind(t.keys, p) && Reordered(t, u) && SameKind(u.keys, p)
    requires forall a, b :: a in Candidates(t, p) && b in Candidates(t, p) ==> a == b
    ensures LockFor(u, p).1 == LockFor(t, p).1
  {
    var i, j := FirstMatch(t.keys, p), FirstMatch(u.keys, p);
    if i < |t.keys| {
      var a := t.keys[i];
      assert a in t.keys && a in u.keys;
      var m :| 0 <= m < |u.keys| && u.keys[m] == a;
      assert j < |u.keys|;
      assert u.keys[j] in u.keys && u.keys[j] in t.keys;
      var n :| 0 <= n < |t.keys| && t.keys[n] == u.keys[j];
      assert t.keys[n] in Candidates(t, p) && a in Candidates(t, p);
    } else {
      assert forall k :: k in u.keys ==> k in t.keys && !Matches(k, p);
    }
  }

  /** The table reordered to list `a` first. */
  ghost function FrontTable(t: Table, a: Path): (u: Table)
    requires Keyed(t) && a in t.keys
    ensures Reordered(t, u) && u.keys != [] && u.keys[0] == a
    ensures forall p :: SameKind(t.keys, p) ==> SameKind(u.keys, p)
  {
    WithoutDistinct(t.keys, a);
    var rest := Without(t.keys, a);
    assert forall i :: 0 <= i < |rest| ==> rest[i] in t.keys && rest[i] != a;
    var u := t.(keys := [a] + rest);
    assert forall k :: k in u.keys <==> k == a || k in rest;
    u
  }

  /** A path that is locked and asked for again gets the same lock exactly when it is plain: `.` and paths with two
      leading slashes are not their own common path, and get a new lock in place of the held one. */
  lemma SamePathSameLockIff(t: Table, p: Path)
    requires Inv(t, Absolute(p)) && p in t.keys
    ensures LockFor(t, p).1 == t.locks[p] <==> Plain(p)
  {
    var i :| 0 <= i < |t.keys| && t.keys[i] == p;
    var f := FirstMatch(t.keys, p);
    MatchesMeans(p, p);
    if f < |t.keys| && f != i {
      KeysDoNotMatch(t.keys, Absolute(p), f, i);
    }
  }

  /** Removing a path takes its entry out and leaves the others in order; removing one that is not locked does
      nothing. */
  lemma RemoveMeans(t: Table, p: Path)
    requires Keyed(t)
    ensures if p !in t.keys then Remove(t, p) == t
            else exists i: nat :: i < |t.keys| && t.keys[i] == p && Remove(t, p).keys == RemoveAt(t.keys, i)
    ensures forall k :: k in Remove(t, p).locks <==> k in t.locks && k != p
    ensures forall k :: k in Remove(t, p).locks ==> Remove(t, p).locks[k] == t.locks[k]
  {
    if p in t.keys {
      var i: nat :| i < |t.keys| && t.keys[i] == p;
      WithoutAt(t.keys, i);
    } else {
      WithoutAbsent(t.keys, p);
      assert t.locks - {p} == t.locks;
    }
  }

  /** A path that matches nothing and is locked and released again leaves the table as it was. */
  lemma LockThenRemoveRestores(t: Table, p: Path)
    requires Inv(t, Absolute(p)) && FirstMatch(t.keys, p) == |t.keys| && p !in t.keys
    ensures var t1 := LockFor(t, p).0;
            && t1.keys == t.keys + [p] && t1.locks.Keys == t.locks.Keys + {p}
            && Remove(t1, p).keys == t.keys && Remove(t1, p).locks == t.locks
  {
    var t1 := LockFor(t, p).0;
    WithoutAt(t1.keys, |t.keys|) by {
      LockInv(t, p);
    }
  }

  /** A thread holds `//a`, and another one that asks for `//a` gets a lock of its own. */
  lemma SlashesLockedAnew()
    ensures var p := DoubleRooted(["a"]);
            && OfKind([DoLock(p)], true)
            && var t := Run(EMPTY, [DoLock(p)], true);
               p in t.keys && LockFor(t, p).1 != t.locks[p]
  {
    var p := DoubleRooted(["a"]);
    assert [DoLock(p)] == [DoLock(p)] + [];
    RunOne(EMPTY, p, []);
    var t := LockFor(EMPTY, p).0;
    assert t.keys[0] == p;
    SamePathSameLockIff(t, p);
  }

  // ----- the object

  class FsLockManager {
    var keys: seq<Path>
    var locks: map<Path, nat>
    var nextLock: nat

    ghost function State(): Table
      reads this
    {
      Table(keys, locks, nextLock)
    }

    constructor ()
      ensures State() == EMPTY
    {
      keys, locks, nextLock := [], map[], 0;
    }

    method Find(p: Path) returns (i: nat)
      requires SameKind(keys, p)
      ensures i == FirstMatch(keys, p)
    {
      i := 0;
      while i < |keys| && !Matches(keys[i], p)
        invariant 0 <= i <= |keys|
        invariant forall k :: 0 <= k < i ==> !Matches(keys[k], p)
      {
        i := i + 1;
      }
    }

    method Lock(p: Path) returns (l: nat)
      requires Inv(State(), Absolute(p))
      modifies this
      ensures (State(), l) == LockFor(old(State()), p) && Inv(State(), Absolute(p)) && Antichain(keys)
    {
      assert Inv(LockFor(State(), p).0, Absolute(p)) && Antichain(LockFor(State(), p).0.keys) by {
        LockInv(State(), p);
      }
      var i := Find(p);
      if i < |keys| {
        assert keys[i] in keys;
        l := locks[keys[i]];
      } else {
        l := AddLock(p);
      }
    }

    /** Nothing matches: a new lock, which takes the place of one that the path may already have. */
    method AddLock(p: Path) returns (l: nat)
      requires SameKind(keys, p) && Keyed(State()) && FirstMatch(keys, p) == |keys|
      modifies this
      ensures (State(), l) == LockFor(old(State()), p)
    {
      if p !in locks {
        keys := keys + [p];
      }
      locks, l, nextLock := locks[p := nextLock], nextLock, nextLock + 1;
    }

    method RemoveLock(p: Path, ghost absolute: bool)
      requires Inv(State(), absolute)
      modifies this
      ensures State() == Remove(old(State()), p) && Inv(State(), absolute) && Antichain(keys)
    {
      RemoveInv(State(), p, absolute);
      keys, locks := Without(keys, p), locks - {p};
    }
  }
}
