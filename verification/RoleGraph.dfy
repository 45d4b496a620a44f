/** The role table as a graph: what a role grants, walking down its includes, and who is granted a role, walking up. */
module RoleGraph {
  import opened Prelude

  /** STIG settings are flag sets; the empty set is "no STIG". */
  type Flags = set<nat>

  datatype Role = Role(includes: seq<string>, fullAdmin: bool, stig: Option<Flags>)

  type Table = map<string, Role>

  /** A set of roles, or the exception raised on the way: an unknown name looked up, or the recursion limit hit. */
  datatype Answer = Ok(roles: set<string>) | KeyError | RecursionError

  /** `role_stig_check`, for a role of the table. */
  predicate StigCheck(t: Table, r: string, stig: Flags)
    requires stig != {} ==> r in t
  {
    stig == {} || (t[r].stig.Some? && t[r].stig.value * stig != {})
  }

  function AllowedRoles(t: Table, stig: Flags): set<string> {
    set r | r in t && StigCheck(t, r, stig)
  }

  /** `roles_for_role` with a limit on the recursion depth. */
  function RolesForRole(t: Table, r: string, stig: Flags, depth: nat): Answer
    decreases depth, 0
  {
    if depth == 0 then RecursionError
    else if r !in t then Ok({})
    else if t[r].fullAdmin then Ok(AllowedRoles(t, stig))
    else
      match RolesForAll(t, t[r].includes, stig, depth - 1)
      case Ok(s) => Ok({r} + s)
      case e => e
  }

  function RolesForAll(t: Table, rs: seq<string>, stig: Flags, depth: nat): Answer
    decreases depth, 1 + |rs|
  {
    if rs == [] then Ok({})
    else if stig != {} && rs[0] !in t then KeyError
    else if !StigCheck(t, rs[0], stig) then RolesForAll(t, rs[1..], stig, depth)
    else
      match RolesForRole(t, rs[0], stig, depth)
      case Ok(a) => (match RolesForAll(t, rs[1..], stig, depth)
                     case Ok(b) => Ok(a + b)
                     case e => e)
      case e => e
  }

  // ----- the relation it computes

  /** `a` is an ordinary role that passes on what `b` grants. */
  predicate Edge(t: Table, stig: Flags, a: string, b: string) {
    a in t && !t[a].fullAdmin && b in t[a].includes && (stig != {} ==> b in t) && StigCheck(t, b, stig)
  }

  /** A non-empty walk along edges. */
  ghost predicate Path(t: Table, stig: Flags, p: seq<string>) {
    p != [] && forall i :: 0 <= i < |p| - 1 ==> Edge(t, stig, p[i], p[i + 1])
  }

  /** What standing on role `y` itself grants: itself, or everything allowed when it is a full administrator. */
  predicate Yields(t: Table, stig: Flags, y: string, x: string) {
    y in t && if t[y].fullAdmin then x in AllowedRoles(t, stig) else x == y
  }

  ghost predicate GrantedVia(t: Table, stig: Flags, p: seq<string>, r: string, x: string) {
    Path(t, stig, p) && p[0] == r && Yields(t, stig, p[|p| - 1], x)
  }

  lemma PathTail(t: Table, stig: Flags, p: seq<string>)
    requires Path(t, stig, p) && |p| > 1
    ensures Path(t, stig, p[1..]) && Edge(t, stig, p[0], p[1])
  {
  }

  lemma PathCons(t: Table, stig: Flags, a: string, p: seq<string>)
    requires Path(t, stig, p) && Edge(t, stig, a, p[0])
    ensures Path(t, stig, [a] + p)
  {
    var q := [a] + p;
    forall i | 0 <= i < |q| - 1
      ensures Edge(t, stig, q[i], q[i + 1])
    {
      assert i > 0 ==> q[i] == p[i - 1] && q[i + 1] == p[i];
    }
  }

  lemma {:induction false} Sound(t: Table, r: string, stig: Flags, depth: nat, x: string) returns (p: seq<string>)
    requires RolesForRole(t, r, stig, depth).Ok? && x in RolesForRole(t, r, stig, depth).roles
    ensures GrantedVia(t, stig, p, r, x)
    decreases depth, 0
  {
    if t[r].fullAdmin || x == r {
      p := [r];
    } else {
      var c, q := SoundAll(t, t[r].includes, stig, depth - 1, x);
      PathCons(t, stig, r, q);
      p := [r] + q;
    }
  }

  lemma {:induction false} SoundAll(t: Table, rs: seq<string>, stig: Flags, depth: nat, x: string)
    returns (c: string, p: seq<string>)
    requires RolesForAll(t, rs, stig, depth).Ok? && x in RolesForAll(t, rs, stig, depth).roles
    ensures c in rs && (stig != {} ==> c in t) && StigCheck(t, c, stig) && GrantedVia(t, stig, p, c, x)
    decreases depth, 1 + |rs|
  {
    if StigCheck(t, rs[0], stig) && x in RolesForRole(t, rs[0], stig, depth).roles {
      c := rs[0];
      p := Sound(t, c, stig, depth, x);
    } else {
      c, p := SoundAll(t, rs[1..], stig, depth, x);
    }
  }

  lemma {:induction false} Complete(t: Table, stig: Flags, depth: nat, p: seq<string>, r: string, x: string)
    requires RolesForRole(t, r, stig, depth).Ok? && GrantedVia(t, stig, p, r, x)
    ensures x in RolesForRole(t, r, stig, depth).roles
    decreases |p|
  {
    if |p| > 1 {
      PathTail(t, stig, p);
      AllOk(t, t[r].includes, stig, depth - 1, p[1]);
      Complete(t, stig, depth - 1, p[1..], p[1], x);
    }
  }

  /** When the union over `rs` is answered, so is each allowed member, and its answer is part of the union. */
  lemma {:induction false} AllOk(t: Table, rs: seq<string>, stig: Flags, depth: nat, c: string)
    requires RolesForAll(t, rs, stig, depth).Ok? && c in rs && (stig != {} ==> c in t) && StigCheck(t, c, stig)
    ensures RolesForRole(t, c, stig, depth).Ok?
    ensures RolesForRole(t, c, stig, depth).roles <= RolesForAll(t, rs, stig, depth).roles
  {
    if c != rs[0] {
      AllOk(t, rs[1..], stig, depth, c);
    } else {
      assert RolesForRole(t, c, stig, depth).Ok?;
    }
  }

  /** On the role's own fields: it has STIG settings, and one of them is enabled. Roles without settings are not
      available under any STIG, and all roles are available without one. */
  ghost predicate Available(t: Table, stig: Flags, x: string) {
    x in t && t[x].stig.Some? && exists f :: f in stig && f in t[x].stig.value
  }

  lemma StigCheckMeans(t: Table, stig: Flags, x: string)
    requires stig != {} ==> x in t
    ensures StigCheck(t, x, stig) <==> stig == {} || Available(t, stig, x)
  {
    if stig != {} && t[x].stig.Some? {
      if t[x].stig.value * stig != {} {
        var f :| f in t[x].stig.value * stig;
      }
      if f :| f in stig && f in t[x].stig.value {
        assert f in t[x].stig.value * stig;
      }
    }
  }

  /** `a` is an ordinary role and includes `b`, which is available. */
  ghost predicate Link(t: Table, stig: Flags, a: string, b: string) {
    a in t && !t[a].fullAdmin && b in t[a].includes && (stig == {} || Available(t, stig, b))
  }

  /** A walk along links from `r` to a role that grants `x`: `x` itself, or a full administrator when `x` is
      available. */
  ghost predicate Grants(t: Table, stig: Flags, p: seq<string>, r: string, x: string) {
    && p != [] && p[0] == r && (forall i :: 0 <= i < |p| - 1 ==> Link(t, stig, p[i], p[i + 1]))
    && var y := p[|p| - 1];
       y in t && if t[y].fullAdmin then x in t && (stig == {} || Available(t, stig, x)) else x == y
  }

  lemma GrantsMeans(t: Table, stig: Flags, p: seq<string>, r: string, x: string)
    ensures GrantedVia(t, stig, p, r, x) <==> Grants(t, stig, p, r, x)
  {
    forall a, b
      ensures Edge(t, stig, a, b) <==> Link(t, stig, a, b)
    {
      if stig == {} || b in t {
        StigCheckMeans(t, stig, b);
      }
    }
    if x in t {
      StigCheckMeans(t, stig, x);
    }
  }

  /** The recursion, when it returns, answers exactly the reachability relation: along includes that are available under
      the STIG, down to the role itself or to everything available where a full administrator is reached. */
  lemma RolesForRoleMeaning(t: Table, r: string, stig: Flags, depth: nat, x: string)
    requires RolesForRole(t, r, stig, depth).Ok?
    ensures x in RolesForRole(t, r, stig, depth).roles <==> exists p :: Grants(t, stig, p, r, x)
  {
    if x in RolesForRole(t, r, stig, depth).roles {
      var p := Sound(t, r, stig, depth, x);
      GrantsMeans(t, stig, p, r, x);
    }
    if p :| Grants(t, stig, p, r, x) {
      GrantsMeans(t, stig, p, r, x);
      Complete(t, stig, depth, p, r, x);
    }
  }

  /** Under a STIG everything that a role grants besides itself is available, and a full administrator is granted
      exactly what is available. */
  lemma AnswerUnderStig(t: Table, r: string, stig: Flags, depth: nat, x: string)
    requires RolesForRole(t, r, stig, depth).Ok? && stig != {}
    ensures x in RolesForRole(t, r, stig, depth).roles && x != r ==> Available(t, stig, x)
    ensures r in t && t[r].fullAdmin ==> (x in RolesForRole(t, r, stig, depth).roles <==> Available(t, stig, x))
  {
    if x in RolesForRole(t, r, stig, depth).roles && x != r {
      var p := Sound(t, r, stig, depth, x);
      GrantsMeans(t, stig, p, r, x);
      assert |p| > 1 ==> Link(t, stig, p[|p| - 2], p[|p| - 1]);
    }
    if x in t {
      StigCheckMeans(t, stig, x);
    }
  }

  // ----- when the recursion returns

  /** Looking up an included role cannot miss. */
  ghost predicate NoMissing(t: Table, stig: Flags) {
    stig == {} || forall r, c :: r in t && c in t[r].includes ==> c in t
  }

  ghost predicate AllKnown(t: Table, stig: Flags, rs: seq<string>) {
    stig == {} || forall c :: c in rs ==> c in t
  }

  lemma {:induction false} NoKeyError(t: Table, r: string, stig: Flags, depth: nat)
    requires NoMissing(t, stig)
    ensures !RolesForRole(t, r, stig, depth).KeyError?
    decreases depth, 0
  {
    if depth > 0 && r in t && !t[r].fullAdmin {
      NoKeyErrorAll(t, t[r].includes, stig, depth - 1);
    }
  }

  lemma {:induction false} NoKeyErrorAll(t: Table, rs: seq<string>, stig: Flags, depth: nat)
    requires NoMissing(t, stig) && AllKnown(t, stig, rs)
    ensures !RolesForAll(t, rs, stig, depth).KeyError?
    decreases depth, 1 + |rs|
  {
    if rs != [] {
      NoKeyErrorAll(t, rs[1..], stig, depth);
      if StigCheck(t, rs[0], stig) {
        NoKeyError(t, rs[0], stig, depth);
      }
    }
  }

  lemma {:induction false} DeepAll(t: Table, rs: seq<string>, stig: Flags, depth: nat, c: string)
    requires NoMissing(t, stig) && AllKnown(t, stig, rs) && c in rs && StigCheck(t, c, stig)
    requires RolesForRole(t, c, stig, depth).RecursionError?
    ensures RolesForAll(t, rs, stig, depth).RecursionError?
    decreases |rs|
  {
    NoKeyErrorAll(t, rs, stig, depth);
    if RolesForAll(t, rs, stig, depth).Ok? {
      AllOk(t, rs, stig, depth, c);
    }
  }

  lemma {:induction false} AnsweredAreKnown(t: Table, rs: seq<string>, stig: Flags, depth: nat, c: string)
    requires RolesForAll(t, rs, stig, depth).Ok? && stig != {} && c in rs
    ensures c in t
    decreases |rs|
  {
    if c != rs[0] {
      AnsweredAreKnown(t, rs[1..], stig, depth, c);
    }
  }

  /** Under a STIG an ordinary role that includes an unknown one has no answer. */
  lemma UnknownIncludeRaises(t: Table, r: string, stig: Flags, depth: nat, c: string)
    requires r in t && !t[r].fullAdmin && c in t[r].includes && c !in t && stig != {}
    ensures !RolesForRole(t, r, stig, depth).Ok?
  {
    if depth > 0 && RolesForAll(t, t[r].includes, stig, depth - 1).Ok? {
      AnsweredAreKnown(t, t[r].includes, stig, depth - 1, c);
    }
  }

  /** A walk of `depth` edges exhausts a recursion of that depth. */
  lemma {:induction false} LongPathIsTooDeep(t: Table, stig: Flags, p: seq<string>, depth: nat)
    requires NoMissing(t, stig) && Path(t, stig, p) && |p| > depth
    ensures RolesForRole(t, p[0], stig, depth).RecursionError?
  {
    if depth > 0 {
      PathTail(t, stig, p);
      LongPathIsTooDeep(t, stig, p[1..], depth - 1);
      DeepAll(t, t[p[0]].includes, stig, depth - 1, p[1]);
    }
  }

  lemma {:induction false} TooDeepHasPath(t: Table, r: string, stig: Flags, depth: nat) returns (p: seq<string>)
    requires RolesForRole(t, r, stig, depth).RecursionError?
    ensures Path(t, stig, p) && p[0] == r && |p| == depth + 1
    decreases depth, 0
  {
    if depth == 0 {
      p := [r];
    } else {
      var q := TooDeepAll(t, t[r].includes, stig, depth - 1);
      PathCons(t, stig, r, q);
      p := [r] + q;
    }
  }

  lemma {:induction false} TooDeepAll(t: Table, rs: seq<string>, stig: Flags, depth: nat) returns (p: seq<string>)
    requires RolesForAll(t, rs, stig, depth).RecursionError?
    ensures Path(t, stig, p) && |p| == depth + 1 && p[0] in rs && (stig != {} ==> p[0] in t) && StigCheck(t, p[0], stig)
    decreases depth, 1 + |rs|
  {
    if StigCheck(t, rs[0], stig) && RolesForRole(t, rs[0], stig, depth).RecursionError? {
      p := TooDeepHasPath(t, rs[0], stig, depth);
    } else {
      p := TooDeepAll(t, rs[1..], stig, depth);
    }
  }

  /** A walk from `r` that comes back to a role it has passed. */
  ghost predicate Cycle(t: Table, stig: Flags, p: seq<string>, r: string, i: nat) {
    Path(t, stig, p) && p[0] == r && i < |p| - 1 && p[i] == p[|p| - 1]
  }

  ghost predicate ReachesCycle(t: Table, stig: Flags, r: string) {
    exists p, i: nat :: Cycle(t, stig, p, r, i)
  }

  /** Going round the cycle once more gives a longer walk of the same kind. */
  lemma LongerWalk(t: Table, stig: Flags, p: seq<string>, r: string, i: nat) returns (q: seq<string>)
    requires Cycle(t, stig, p, r, i)
    ensures Cycle(t, stig, q, r, |p| - 1) && |q| > |p|
  {
    q := p + p[i + 1..];
    forall k | 0 <= k < |q| - 1
      ensures Edge(t, stig, q[k], q[k + 1])
    {
      if k >= |p| - 1 {
        var m := k - |p| + 1 + i;
        assert q[k] == p[m] && q[k + 1] == p[m + 1];
      }
    }
  }

  lemma {:induction false} WalkOfAnyLength(t: Table, stig: Flags, p: seq<string>, r: string, i: nat, n: nat)
    returns (q: seq<string>)
    requires Cycle(t, stig, p, r, i)
    ensures Path(t, stig, q) && q[0] == r && |q| > n
    decreases n - |p|
  {
    if |p| > n {
      q := p;
    } else {
      var p' := LongerWalk(t, stig, p, r, i);
      q := WalkOfAnyLength(t, stig, p', r, |p| - 1, n);
    }
  }

  lemma LongPathCycles(t: Table, stig: Flags, p: seq<string>)
    requires Path(t, stig, p) && |p| > |t| + 1
    ensures ReachesCycle(t, stig, p[0])
  {
    var q := p[..|p| - 1];
    forall i | 0 <= i < |q|
      ensures q[i] in t.Keys
    {
      assert Edge(t, stig, p[i], p[i + 1]);
    }
    if Distinct(q) {
      DistinctFits(q, t.Keys);
    } else {
      var i, k :| 0 <= i < k < |q| && q[i] == q[k];
      assert Cycle(t, stig, p[..k + 1], p[0], i);
    }
  }

  /** The recursion returns exactly when no include cycle can be reached from the role: then a depth beyond the
      number of roles is enough, and otherwise no depth is. */
  lemma ReturnsIffAcyclic(t: Table, r: string, stig: Flags, depth: nat)
    requires NoMissing(t, stig)
    ensures ReachesCycle(t, stig, r) ==> RolesForRole(t, r, stig, depth).RecursionError?
    ensures !ReachesCycle(t, stig, r) && depth > |t| ==> RolesForRole(t, r, stig, depth).Ok?
  {
    if ReachesCycle(t, stig, r) {
      var p, i: nat :| Cycle(t, stig, p, r, i);
      var q := WalkOfAnyLength(t, stig, p, r, i, depth);
      LongPathIsTooDeep(t, stig, q, depth);
    } else if depth > |t| {
      NoKeyError(t, r, stig, depth);
      if RolesForRole(t, r, stig, depth).RecursionError? {
        var p := TooDeepHasPath(t, r, stig, depth);
        LongPathCycles(t, stig, p);
      }
    }
  }

  /** A role that includes itself, as PRIVILEGE_WRITE and SYSTEM_PRODUCT_WRITE do, has no answer. */
  lemma SelfIncludeNeverReturns(t: Table, r: string, stig: Flags, depth: nat)
    requires NoMissing(t, stig) && r in t && !t[r].fullAdmin && r in t[r].includes && StigCheck(t, r, stig)
    ensures RolesForRole(t, r, stig, depth).RecursionError?
  {
    assert Cycle(t, stig, [r, r], r, 0);
    ReturnsIffAcyclic(t, r, stig, depth);
  }

  // ----- upwards

  ghost predicate Includes(t: Table, a: string, b: string) {
    a in t && b in t[a].includes
  }

  ghost predicate Chain(t: Table, p: seq<string>) {
    p != [] && forall i :: 0 <= i < |p| - 1 ==> Includes(t, p[i], p[i + 1])
  }

  /** Following includes from `x` leads to a role of the seed. */
  ghost predicate LeadsTo(t: Table, seed: set<string>, p: seq<string>, x: string) {
    Chain(t, p) && p[0] == x && p[|p| - 1] in seed
  }

  ghost predicate Above(t: Table, seed: set<string>, x: string) {
    exists p :: LeadsTo(t, seed, p, x)
  }

  lemma AboveStep(t: Table, seed: set<string>, a: string, b: string)
    requires Includes(t, a, b) && Above(t, seed, b)
    ensures Above(t, seed, a)
  {
    var p :| LeadsTo(t, seed, p, b);
    var q := [a] + p;
    forall i | 0 <= i < |q| - 1
      ensures Includes(t, q[i], q[i + 1])
    {
      assert i > 0 ==> q[i] == p[i - 1] && q[i + 1] == p[i];
    }
    assert LeadsTo(t, seed, q, a);
  }

  /** No role outside `roles` includes one inside. */
  ghost predicate ClosedUp(t: Table, roles: set<string>) {
    forall a, b :: Includes(t, a, b) && b in roles ==> a in roles
  }

  lemma {:induction false} ClosedHoldsAbove(t: Table, seed: set<string>, roles: set<string>, p: seq<string>, x: string)
    requires ClosedUp(t, roles) && seed <= roles && LeadsTo(t, seed, p, x)
    ensures x in roles
    decreases |p|
  {
    if |p| > 1 {
      assert Includes(t, p[0], p[1]);
      ClosedHoldsAbove(t, seed, roles, p[1..], p[1]);
    }
  }

  /** The fixpoint loop of `roles_for_resource`. Whatever the order of the table, it ends with exactly the roles from
      which some role of the seed is reached through includes. */
  method RolesAbove(t: Table, order: seq<string>, seed: set<string>) returns (roles: set<string>)
    requires forall r :: r in order <==> r in t
    ensures forall x :: x in roles <==> Above(t, seed, x)
  {
    roles := seed;
    forall x | x in seed
      ensures Above(t, seed, x)
    {
      assert LeadsTo(t, seed, [x], x);
    }
    var changed := true;
    while changed
      invariant seed <= roles && forall x :: x in roles ==> Above(t, seed, x)
      invariant !changed ==> ClosedUp(t, roles)
      decreases t.Keys - roles, changed
    {
      ghost var was := roles;
      roles, changed := Pass(t, order, seed, roles);
      if changed {
        assert t.Keys - roles < t.Keys - was;
      }
    }
    forall x | Above(t, seed, x)
      ensures x in roles
    {
      var p :| LeadsTo(t, seed, p, x);
      ClosedHoldsAbove(t, seed, roles, p, x);
    }
  }

  /** One round of the loop: some role is added, or there is none to add. */
  method Pass(t: Table, order: seq<string>, ghost seed: set<string>, before: set<string>)
    returns (roles: set<string>, changed: bool)
    requires (forall r :: r in order <==> r in t) && forall x :: x in before ==> Above(t, seed, x)
    ensures before <= roles && forall x :: x in roles ==> Above(t, seed, x)
    ensures if changed then exists r :: r in t && r in roles && r !in before else roles == before && ClosedUp(t, roles)
  {
    roles, changed := before, false;
    for i := 0 to |order|
      invariant before <= roles && forall x :: x in roles ==> Above(t, seed, x)
      invariant changed ==> exists r :: r in t && r in roles && r !in before
      invariant !changed ==> roles == before
      invariant !changed ==> forall k, c :: 0 <= k < i && c in t[order[k]].includes && c in roles ==> order[k] in roles
    {
      var r := order[i];
      assert r in order;
      if r !in roles {
        var b := AnyIn(t[r].includes, roles);
        if b {
          ghost var c :| c in t[r].includes && c in roles;
          AboveStep(t, seed, r, c);
          roles := roles + {r};
          changed := true;
        }
      }
    }
    if !changed {
      forall a, b | Includes(t, a, b) && b in roles
        ensures a in roles
      {
        assert a in order;
        var k :| 0 <= k < |order| && order[k] == a;
      }
    }
  }

  method AnyIn(xs: seq<string>, s: set<string>) returns (b: bool)
    ensures b <==> exists x :: x in xs && x in s
  {
    b := false;
    for i := 0 to |xs|
      invariant b <==> exists x :: x in xs[..i] && x in s
    {
      if xs[i] in s {
        b := true;
      }
    }
  }

  // ----- the two directions agree

  /** A full administrator is reached from `r` through includes. */
  ghost predicate ReachesAdmin(t: Table, r: string) {
    exists p :: Path(t, {}, p) && p[0] == r && p[|p| - 1] in t && t[p[|p| - 1]].fullAdmin
  }

  lemma AdminBelow(t: Table, a: string, b: string)
    requires Edge(t, {}, a, b) && ReachesAdmin(t, b)
    ensures ReachesAdmin(t, a)
  {
    var q :| Path(t, {}, q) && q[0] == b && q[|q| - 1] in t && t[q[|q| - 1]].fullAdmin;
    PathCons(t, {}, a, q);
    assert ([a] + q)[|q|] == q[|q| - 1];
  }

  /** A chain of includes is a walk, unless a full administrator cuts it short. */
  lemma {:induction false} ChainIsPath(t: Table, p: seq<string>)
    requires Chain(t, p) && !ReachesAdmin(t, p[0])
    ensures Path(t, {}, p)
  {
    assert p[0] in t ==> !t[p[0]].fullAdmin by {
      assert Path(t, {}, [p[0]]);
    }
    if |p| > 1 {
      assert Includes(t, p[0], p[1]);
      if ReachesAdmin(t, p[1]) {
        AdminBelow(t, p[0], p[1]);
      }
      ChainIsPath(t, p[1..]);
      PathCons(t, {}, p[0], p[1..]);
      assert [p[0]] + p[1..] == p;
    }
  }

  /** Without STIG: a role's downward closure meets a seed of known roles exactly when the upward closure of the seed
      lists the role, or the role reaches a full administrator and there is something to grant. */
  lemma UpMeetsDown(t: Table, r: string, depth: nat, seed: set<string>)
    requires RolesForRole(t, r, {}, depth).Ok? && seed <= t.Keys
    ensures RolesForRole(t, r, {}, depth).roles * seed != {}
       <==> Above(t, seed, r) || (ReachesAdmin(t, r) && seed != {})
  {
    var down := RolesForRole(t, r, {}, depth).roles;
    if down * seed != {} {
      var x :| x in down && x in seed;
      var p := Sound(t, r, {}, depth, x);
      if !t[p[|p| - 1]].fullAdmin {
        assert forall i :: 0 <= i < |p| - 1 ==> Edge(t, {}, p[i], p[i + 1]) && Includes(t, p[i], p[i + 1]);
        assert LeadsTo(t, seed, p, r);
      }
    }
    if ReachesAdmin(t, r) && seed != {} {
      var x :| x in seed;
      var p :| Path(t, {}, p) && p[0] == r && p[|p| - 1] in t && t[p[|p| - 1]].fullAdmin;
      assert GrantedVia(t, {}, p, r, x);
      Complete(t, {}, depth, p, r, x);
      assert x in down * seed;
    } else if Above(t, seed, r) {
      var p :| LeadsTo(t, seed, p, r);
      var x := p[|p| - 1];
      if !ReachesAdmin(t, r) {
        ChainIsPath(t, p);
        assert !t[x].fullAdmin;
        assert GrantedVia(t, {}, p, r, x);
        Complete(t, {}, depth, p, r, x);
        assert x in down * seed;
      }
    }
  }
}
