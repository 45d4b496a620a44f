/** Registration of methods and events with roles, and the allowlists that follow from it. */
module RoleManager {
  import opened Prelude
  import opened RoleGraph

  datatype Entry = Entry(verb: string, resource: string)

  /** `resources` maps a resource to its roles, `allowlists` a role to its entries (a missing key reads as empty). */
  datatype Manager = Manager(kind: string, table: Table, resources: map<string, seq<string>>,
                             allowlists: map<string, seq<Entry>>)

  datatype Error = AlreadyRegistered | NotRegistered | InvalidRole | NotGrantable

  const READ_RESOURCE_BLACKLIST: seq<string> :=
    [".create", ".do_create", ".update", ".do_update", ".delete", ".do_delete"]

  predicate EndsWith(s: string, suffix: string) {
    |suffix| <= |s| && s[|s| - |suffix|..] == suffix
  }

  /** A role named `..._READ` may not be granted a resource that creates, updates or deletes. */
  predicate Blacklisted(role: string, resource: string) {
    && EndsWith(role, "_READ")
    && exists i :: 0 <= i < |READ_RESOURCE_BLACKLIST| && EndsWith(resource, READ_RESOURCE_BLACKLIST[i])
  }

  predicate Writes(verb: string) {
    verb in {".create", ".do_create", ".update", ".do_update", ".delete", ".do_delete"}
  }

  /** A reading role is one whose name ends in `_READ`; a writing resource ends in one of six verbs. */
  lemma BlacklistMeans(role: string, resource: string)
    ensures Blacklisted(role, resource)
       <==> && (exists stem :: role == stem + "_READ")
            && exists stem, verb :: resource == stem + verb && Writes(verb)
  {
    forall s: string, suffix: string
      ensures EndsWith(s, suffix) <==> exists stem :: s == stem + suffix
    {
      if EndsWith(s, suffix) {
        assert s == s[..|s| - |suffix|] + suffix;
      }
    }
    assert EndsWith(role, "_READ") <==> exists stem :: role == stem + "_READ";
    if i :| 0 <= i < |READ_RESOURCE_BLACKLIST| && EndsWith(resource, READ_RESOURCE_BLACKLIST[i]) {
      var verb := READ_RESOURCE_BLACKLIST[i];
      assert resource == resource[..|resource| - |verb|] + verb;
    }
    if stem: string, verb: string :| resource == stem + verb && Writes(verb) {
      var i := if verb == ".create" then 0 else if verb == ".do_create" then 1 else if verb == ".update" then 2
               else if verb == ".do_update" then 3 else if verb == ".delete" then 4 else 5;
      assert READ_RESOURCE_BLACKLIST[i] == verb && EndsWith(resource, verb);
    }
  }

  function RoleError(m: Manager, resource: string, role: string): Option<Error> {
    if role !in m.table then Some(InvalidRole)
    else if Blacklisted(role, resource) then Some(NotGrantable)
    else None
  }

  /** The first objection to a list of roles. */
  function RolesError(m: Manager, resource: string, roles: seq<string>): (e: Option<Error>)
    ensures e.None? <==> forall r :: r in roles ==> RoleError(m, resource, r).None?
  {
    if roles == [] then None
    else if RoleError(m, resource, roles[0]).Some? then RoleError(m, resource, roles[0])
    else RolesError(m, resource, roles[1..])
  }

  /** The error says what the first role that is refused is refused for. */
  lemma {:induction false} FirstObjection(m: Manager, resource: string, roles: seq<string>)
    requires RolesError(m, resource, roles).Some?
    ensures exists i :: 0 <= i < |roles|
              && (forall k :: 0 <= k < i ==> roles[k] in m.table && !Blacklisted(roles[k], resource))
              && if roles[i] !in m.table then RolesError(m, resource, roles) == Some(InvalidRole)
                 else Blacklisted(roles[i], resource) && RolesError(m, resource, roles) == Some(NotGrantable)
  {
    if RoleError(m, resource, roles[0]).None? {
      var rest := roles[1..];
      FirstObjection(m, resource, rest);
      var i :| 0 <= i < |rest|
               && (forall k :: 0 <= k < i ==> rest[k] in m.table && !Blacklisted(rest[k], resource))
               && if rest[i] !in m.table then RolesError(m, resource, rest) == Some(InvalidRole)
                  else Blacklisted(rest[i], resource) && RolesError(m, resource, rest) == Some(NotGrantable);
      forall k | 0 <= k < i + 1
        ensures roles[k] in m.table && !Blacklisted(roles[k], resource)
      {
        assert k > 0 ==> roles[k] == rest[k - 1];
      }
      assert roles[i + 1] == rest[i];
    } else {
      assert roles[0] == roles[0];
    }
  }

  function EntriesOf(m: Manager, role: string): seq<Entry> {
    if role in m.allowlists then m.allowlists[role] else []
  }

  function RolesOf(m: Manager, resource: string): seq<string> {
    if resource in m.resources then m.resources[resource] else []
  }

  function Append(m: Manager, role: string, e: Entry): Manager {
    m.(allowlists := m.allowlists[role := EntriesOf(m, role) + [e]])
  }

  function AppendAll(m: Manager, roles: seq<string>, e: Entry): Manager {
    if roles == [] then m else Append(AppendAll(m, roles[..|roles| - 1], e), roles[|roles| - 1], e)
  }

  function AddRoles(m: Manager, resource: string, roles: seq<string>): (Manager, Option<Error>) {
    if resource !in m.resources then (m, Some(NotRegistered))
    else if RolesError(m, resource, roles).Some? then (m, RolesError(m, resource, roles))
    else
      var m1 := m.(resources := m.resources[resource := m.resources[resource] + roles]);
      (AppendAll(m1, roles, Entry(m.kind, resource)), None)
  }

  function Register(m: Manager, resource: string, roles: seq<string>, existOk: bool): (Manager, Option<Error>) {
    if resource in m.resources && !existOk then (m, Some(AlreadyRegistered))
    else
      var m1 := if resource in m.resources then m else m.(resources := m.resources[resource := []]);
      AddRoles(m1, resource, roles)
  }

  datatype Call =
    | RegisterCall(resource: string, roles: seq<string>, existOk: bool)
    | AddCall(resource: string, roles: seq<string>)

  function Apply(m: Manager, c: Call): Manager {
    match c
    case RegisterCall(r, roles, ok) => Register(m, r, roles, ok).0
    case AddCall(r, roles) => AddRoles(m, r, roles).0
  }

  function Run(m: Manager, calls: seq<Call>): Manager
    decreases |calls|
  {
    if calls == [] then m else Run(Apply(m, calls[0]), calls[1..])
  }

  // ----- resources and allowlists stay each other's inverse

  lemma {:induction false} CountMember<T>(s: seq<T>, x: T)
    ensures Count(s, x) > 0 <==> x in s
  {
    if s != [] {
      CountMember(s[..|s| - 1], x);
    }
  }

  lemma {:induction false} CountConcat<T>(s: seq<T>, u: seq<T>, x: T)
    ensures Count(s + u, x) == Count(s, x) + Count(u, x)
  {
    if u == [] {
      assert s + u == s;
    } else {
      assert (s + u)[..|s + u| - 1] == s + u[..|u| - 1];
      CountConcat(s, u[..|u| - 1], x);
    }
  }

  /** A role is listed for a resource as often as the resource is listed for the role; only known roles are listed, and
      no reading role for a writing resource. */
  ghost predicate Inv(m: Manager) {
    && (forall role, res :: Count(EntriesOf(m, role), Entry(m.kind, res)) == Count(RolesOf(m, res), role))
    && (forall role, e :: e in EntriesOf(m, role) ==> e.verb == m.kind)
    && (forall role, res :: role in RolesOf(m, res) ==> RoleError(m, res, role).None?)
  }

  lemma {:induction false} AppendAllEffect(m: Manager, roles: seq<string>, e: Entry, role: string, x: Entry)
    ensures var m' := AppendAll(m, roles, e);
            && m' == m.(allowlists := m'.allowlists)
            && Count(EntriesOf(m', role), x)
               == Count(EntriesOf(m, role), x) + (if x == e then Count(roles, role) else 0)
            && (x in EntriesOf(m', role) ==> x == e || x in EntriesOf(m, role))
  {
    if roles != [] {
      var init, last := roles[..|roles| - 1], roles[|roles| - 1];
      var m1 := AppendAll(m, init, e);
      AppendAllEffect(m, init, e, role, x);
      AppendEffect(m1, last, e, role, x);
    }
  }

  lemma AppendEffect(m: Manager, last: string, e: Entry, role: string, x: Entry)
    ensures var m' := Append(m, last, e);
            && Count(EntriesOf(m', role), x) == Count(EntriesOf(m, role), x) + (if x == e && role == last then 1 else 0)
            && (x in EntriesOf(m', role) ==> x == e || x in EntriesOf(m, role))
  {
    var s := EntriesOf(m, last);
    assert (s + [e])[..|s + [e]| - 1] == s;
  }

  lemma AddRolesInv(m: Manager, resource: string, roles: seq<string>)
    requires Inv(m)
    ensures Inv(AddRoles(m, resource, roles).0)
  {
    if resource in m.resources && RolesError(m, resource, roles).None? {
      var m1 := m.(resources := m.resources[resource := m.resources[resource] + roles]);
      var e := Entry(m.kind, resource);
      var m' := AppendAll(m1, roles, e);
      AppendAllEffect(m1, roles, e, "", e);
      forall role, res
        ensures Count(EntriesOf(m', role), Entry(m.kind, res)) == Count(RolesOf(m', res), role)
      {
        AppendAllEffect(m1, roles, e, role, Entry(m.kind, res));
        CountConcat(RolesOf(m, resource), roles, role);
        assert Count(EntriesOf(m, role), Entry(m.kind, res)) == Count(RolesOf(m, res), role);
      }
      forall role, x | x in EntriesOf(m', role)
        ensures x.verb == m.kind
      {
        AppendAllEffect(m1, roles, e, role, x);
        assert x == e || x in EntriesOf(m, role);
      }
      forall role, res | role in RolesOf(m', res)
        ensures RoleError(m', res, role).None?
      {
        assert role in RolesOf(m, res) || (res == resource && role in roles);
      }
    }
  }

  lemma ApplyInv(m: Manager, c: Call)
    requires Inv(m)
    ensures Inv(Apply(m, c))
  {
    if c.RegisterCall? {
      var m1 := if c.resource in m.resources then m else m.(resources := m.resources[c.resource := []]);
      assert forall res :: RolesOf(m1, res) == RolesOf(m, res);
      assert forall role :: EntriesOf(m1, role) == EntriesOf(m, role);
      assert Inv(m1);
      AddRolesInv(m1, c.resource, c.roles);
    } else {
      AddRolesInv(m, c.resource, c.roles);
    }
  }

  lemma ApplyFrame(m: Manager, c: Call)
    ensures Apply(m, c).table == m.table && Apply(m, c).kind == m.kind
  {
    AppendAllEffect(m.(resources := map[]), c.roles, Entry(m.kind, c.resource), "", Entry("", ""));
    var m1 := if c.resource in m.resources then m else m.(resources := m.resources[c.resource := []]);
    var m2 := if c.resource !in m1.resources then m1
              else m1.(resources := m1.resources[c.resource := m1.resources[c.resource] + c.roles]);
    AppendAllEffect(m2, c.roles, Entry(m.kind, c.resource), "", Entry("", ""));
  }

  lemma {:induction false} RunInv(m: Manager, calls: seq<Call>)
    requires Inv(m)
    ensures Inv(Run(m, calls)) && Run(m, calls).table == m.table && Run(m, calls).kind == m.kind
    decreases |calls|
  {
    if calls != [] {
      ApplyInv(m, calls[0]);
      ApplyFrame(m, calls[0]);
      RunInv(Apply(m, calls[0]), calls[1..]);
    }
  }

  function Fresh(kind: string, table: Table): Manager {
    Manager(kind, table, map[], map[])
  }

  // ----- what a registration does

  /** All roles of the list may be granted the resource. */
  ghost predicate Grantable(m: Manager, resource: string, roles: seq<string>) {
    forall r :: r in roles ==> r in m.table && !Blacklisted(r, resource)
  }

  /** `resource` gained exactly `roles`, in order, and no other resource changed. */
  ghost predicate Gained(m: Manager, m': Manager, resource: string, roles: seq<string>) {
    && RolesOf(m', resource) == RolesOf(m, resource) + roles
    && forall other :: other != resource ==> RolesOf(m', other) == RolesOf(m, other)
  }

  /** Roles are added, all of them, exactly when the resource is known and all may be granted it; otherwise nothing
      changes. */
  lemma AddRolesMeans(m: Manager, resource: string, roles: seq<string>)
    ensures var (m', e) := AddRoles(m, resource, roles);
            && (e.None? <==> resource in m.resources && Grantable(m, resource, roles))
            && (e == Some(NotRegistered) <==> resource !in m.resources)
            && (e.None? ==> Gained(m, m', resource, roles) && m'.resources.Keys == m.resources.Keys)
            && (e.Some? ==> m' == m)
  {
    if resource in m.resources && RolesError(m, resource, roles).None? {
      var m1 := m.(resources := m.resources[resource := m.resources[resource] + roles]);
      AppendAllEffect(m1, roles, Entry(m.kind, resource), "", Entry("", ""));
    }
    NotTheOther(m, resource, roles);
  }

  lemma NotTheOther(m: Manager, resource: string, roles: seq<string>)
    ensures RolesError(m, resource, roles) in {None, Some(InvalidRole), Some(NotGrantable)}
    ensures RolesError(m, resource, roles).None? <==> Grantable(m, resource, roles)
  {
    forall r | r in roles
      ensures RoleError(m, resource, r).None? <==> r in m.table && !Blacklisted(r, resource)
    {
    }
    OnlyRoleErrors(m, resource, roles);
  }

  lemma {:induction false} OnlyRoleErrors(m: Manager, resource: string, roles: seq<string>)
    ensures RolesError(m, resource, roles) in {None, Some(InvalidRole), Some(NotGrantable)}
  {
    if roles != [] {
      OnlyRoleErrors(m, resource, roles[1..]);
    }
  }

  /** A resource is registered with all its roles, or with more of them where that is allowed. A resource that is
      already registered is otherwise refused, and a new one whose roles are refused stays behind without roles. */
  lemma RegisterMeans(m: Manager, resource: string, roles: seq<string>, existOk: bool)
    ensures var (m', e) := Register(m, resource, roles, existOk);
            && (e == Some(AlreadyRegistered) <==> resource in m.resources && !existOk)
            && (e.None? <==> (resource in m.resources ==> existOk) && Grantable(m, resource, roles))
            && (e.None? ==> Gained(m, m', resource, roles))
            && (e.Some? ==> Gained(m, m', resource, []))
            && m'.resources.Keys == m.resources.Keys + (if e == Some(AlreadyRegistered) then {} else {resource})
  {
    var m1 := if resource in m.resources then m else m.(resources := m.resources[resource := []]);
    assert forall other :: RolesOf(m1, other) == RolesOf(m, other);
    AddRolesMeans(m1, resource, roles);
    NotTheOther(m1, resource, roles);
    assert Grantable(m1, resource, roles) <==> Grantable(m, resource, roles);
    assert RolesOf(m, resource) + [] == RolesOf(m, resource);
  }

  function Outcome(m: Manager, c: Call): Option<Error> {
    match c
    case RegisterCall(r, roles, ok) => Register(m, r, roles, ok).1
    case AddCall(r, roles) => AddRoles(m, r, roles).1
  }

  /** An accepted call adds its roles; a refused one adds none. */
  lemma ApplyMeans(m: Manager, c: Call)
    ensures Gained(m, Apply(m, c), c.resource, if Outcome(m, c).None? then c.roles else [])
  {
    match c
    case RegisterCall(r, roles, ok) => RegisterMeans(m, r, roles, ok);
    case AddCall(r, roles) =>
      AddRolesMeans(m, r, roles);
      assert RolesOf(m, r) + [] == RolesOf(m, r);
  }

  /** All roles that the accepted calls of a run give a resource, in order. */
  function Given(m: Manager, calls: seq<Call>, resource: string): seq<string>
    decreases |calls|
  {
    if calls == [] then []
    else
      GivenBy(m, calls[0], resource) + Given(Apply(m, calls[0]), calls[1..], resource)
  }

  /** The roles that one call gives it. */
  function GivenBy(m: Manager, c: Call, resource: string): seq<string> {
    if c.resource == resource && Outcome(m, c).None? then c.roles else []
  }

  lemma GivenStep(m: Manager, c: Call, resource: string)
    ensures RolesOf(Apply(m, c), resource) == RolesOf(m, resource) + GivenBy(m, c, resource)
  {
    ApplyMeans(m, c);
    assert RolesOf(m, resource) + [] == RolesOf(m, resource);
  }

  lemma Assoc(a: seq<string>, b: seq<string>, c: seq<string>)
    ensures a + b + c == a + (b + c)
  {
  }

  /** After any run of registrations a resource has exactly the roles that accepted calls gave it, none lost and none
      added. */
  lemma {:induction false} RolesAreThoseGiven(m: Manager, calls: seq<Call>, resource: string)
    ensures RolesOf(Run(m, calls), resource) == RolesOf(m, resource) + Given(m, calls, resource)
    decreases |calls|
  {
    if calls == [] {
      assert RolesOf(m, resource) + [] == RolesOf(m, resource);
    } else {
      var m1 := Apply(m, calls[0]);
      GivenStep(m, calls[0], resource);
      RolesAreThoseGiven(m1, calls[1..], resource);
      Assoc(RolesOf(m, resource), GivenBy(m, calls[0], resource), Given(m1, calls[1..], resource));
    }
  }

  // ----- allowlists

  /** The methods and the events of one role manager. */
  datatype Managers = Managers(methods: Manager, events: Manager)

  function Collect(ms: Managers, roles: set<string>): set<Entry> {
    set role, e | role in roles && e in EntriesOf(ms.methods, role) + EntriesOf(ms.events, role) :: e
  }

  const FULL_ADMIN_ENTRY := Entry("*", "*")

  /** `allowlist_for_role`, as a set; `None` where computing the roles raises. */
  function AllowlistForRole(ms: Managers, role: string, stig: Flags, depth: nat): Option<set<Entry>> {
    if role in ms.methods.table && ms.methods.table[role].fullAdmin && stig == {} then Some({FULL_ADMIN_ENTRY})
    else
      match RolesForRole(ms.methods.table, role, stig, depth)
      case Ok(roles) => Some(Collect(ms, roles))
      case _ => None
  }

  ghost predicate Consistent(ms: Managers, table: Table) {
    && Inv(ms.methods) && Inv(ms.events)
    && ms.methods.table == table == ms.events.table
    && ms.methods.kind == "CALL" && ms.events.kind == "SUBSCRIBE"
  }

  ghost function AtomicRoles(m: Manager, resource: string): set<string> {
    set r | r in RolesOf(m, resource)
  }

  /** After any registrations both managers are in step. */
  lemma RegisteredConsistent(table: Table, methods: seq<Call>, events: seq<Call>)
    ensures Consistent(Registered(table, methods, events), table)
  {
    RunInv(Fresh("CALL", table), methods);
    RunInv(Fresh("SUBSCRIBE", table), events);
  }

  /** One of the two: the methods or the events. */
  ghost predicate PartOf(m: Manager, ms: Managers) {
    m == ms.methods || m == ms.events
  }

  /** A resource is collected exactly when one of the roles is among its own, for methods and for events. */
  lemma CollectedIff(ms: Managers, table: Table, roles: set<string>, m: Manager, name: string)
    requires Consistent(ms, table) && PartOf(m, ms)
    ensures Entry(m.kind, name) in Collect(ms, roles) <==> roles * AtomicRoles(m, name) != {}
  {
    var e := Entry(m.kind, name);
    if e in Collect(ms, roles) {
      var role :| role in roles && e in EntriesOf(ms.methods, role) + EntriesOf(ms.events, role);
      assert e in EntriesOf(m, role);
      CountMember(EntriesOf(m, role), e);
      CountMember(RolesOf(m, name), role);
      assert role in roles * AtomicRoles(m, name);
    }
    if roles * AtomicRoles(m, name) != {} {
      var role :| role in roles && role in RolesOf(m, name);
      CountMember(EntriesOf(m, role), e);
      CountMember(RolesOf(m, name), role);
      assert e in EntriesOf(ms.methods, role) + EntriesOf(ms.events, role);
    }
  }

  /** Without STIG, for a role that is not itself a full administrator: a method or event is on the role's allowlist
      exactly when its role list has the role, or the role includes a full administrator and the resource has roles at
      all. */
  lemma AllowlistMatchesRoles(ms: Managers, table: Table, role: string, depth: nat, m: Manager, name: string)
    requires Consistent(ms, table) && PartOf(m, ms) && (role in table ==> !table[role].fullAdmin)
    requires RolesForRole(table, role, {}, depth).Ok?
    ensures AllowlistForRole(ms, role, {}, depth).Some?
    ensures Entry(m.kind, name) in AllowlistForRole(ms, role, {}, depth).value
       <==> || (role in table && Above(table, AtomicRoles(m, name), role))
            || (ReachesAdmin(table, role) && RolesOf(m, name) != [])
  {
    var seed := AtomicRoles(m, name);
    assert seed <= table.Keys;
    CollectedIff(ms, table, RolesForRole(table, role, {}, depth).roles, m, name);
    UpMeetsDown(table, role, depth, seed);
    assert seed != {} <==> RolesOf(m, name) != [] by {
      if RolesOf(m, name) != [] {
        assert RolesOf(m, name)[0] in seed;
      }
    }
    if Above(table, seed, role) {
      var p :| LeadsTo(table, seed, p, role);
      assert |p| > 1 ==> Includes(table, p[0], p[1]);
    }
  }

  /** Both managers after some registrations. */
  function Registered(table: Table, methods: seq<Call>, events: seq<Call>): Managers {
    Managers(Run(Fresh("CALL", table), methods), Run(Fresh("SUBSCRIBE", table), events))
  }

  /** The promise, where no full administrator is involved: allowlist and role list describe the same relation, for
      methods and for events. */
  lemma AllowlistIffListed(table: Table, methods: seq<Call>, events: seq<Call>, role: string, depth: nat, name: string)
    requires !ReachesCycle(table, {}, role) && !ReachesAdmin(table, role) && depth > |table|
    ensures var ms := Registered(table, methods, events);
            var allow := AllowlistForRole(ms, role, {}, depth);
            && allow.Some?
            && (Entry("CALL", name) in allow.value <==> Above(table, AtomicRoles(ms.methods, name), role))
            && (Entry("SUBSCRIBE", name) in allow.value <==> Above(table, AtomicRoles(ms.events, name), role))
  {
    var ms := Registered(table, methods, events);
    RegisteredConsistent(table, methods, events);
    PartIffListed(ms, table, role, depth, ms.methods, name);
    PartIffListed(ms, table, role, depth, ms.events, name);
  }

  lemma PartIffListed(ms: Managers, table: Table, role: string, depth: nat, m: Manager, name: string)
    requires Consistent(ms, table) && PartOf(m, ms)
    requires !ReachesCycle(table, {}, role) && !ReachesAdmin(table, role) && depth > |table|
    ensures var allow := AllowlistForRole(ms, role, {}, depth);
            allow.Some? && (Entry(m.kind, name) in allow.value <==> Above(table, AtomicRoles(m, name), role))
  {
    ReturnsIffAcyclic(table, role, {}, depth);
    assert role in table ==> !table[role].fullAdmin by {
      assert Path(table, {}, [role]);
    }
    AllowlistMatchesRoles(ms, table, role, depth, m, name);
    if Above(table, AtomicRoles(m, name), role) {
      var p :| LeadsTo(table, AtomicRoles(m, name), p, role);
      assert |p| > 1 ==> Includes(table, p[0], p[1]);
      assert |p| == 1 ==> role in RolesOf(m, name);
    }
  }

  const ADMIN_BELOW: Table :=
    map["A" := Role(["ADMIN"], false, None), "ADMIN" := Role([], true, None), "B" := Role([], false, None)]

  /** A new resource gets the one role it is registered with. */
  lemma RegisterFirst(m: Manager, resource: string, role: string)
    requires resource !in m.resources && RoleError(m, resource, role).None?
    ensures RolesOf(Apply(m, RegisterCall(resource, [role], false)), resource) == [role]
  {
    var m1 := m.(resources := m.resources[resource := []]);
    assert RolesError(m1, resource, [role]).None?;
    var m2 := m1.(resources := m1.resources[resource := [role]]);
    assert m1.resources[resource] + [role] == [role];
    AppendAllEffect(m2, [role], Entry(m.kind, resource), "", Entry("", ""));
  }

  /** A role that includes a full administrator is allowed a method whose role list does not have it. */
  lemma AdminBelowIsNotListed()
    ensures var table := ADMIN_BELOW;
            var ms := Registered(table, [RegisterCall("m", ["B"], false)], []);
            var allow := AllowlistForRole(ms, "A", {}, 4);
            && allow.Some? && Entry("CALL", "m") in allow.value
            && !Above(table, AtomicRoles(ms.methods, "m"), "A")
  {
    var table := ADMIN_BELOW;
    var calls := [RegisterCall("m", ["B"], false)];
    var ms := Registered(table, calls, []);
    RegisteredConsistent(table, calls, []);
    RegisterFirst(Fresh("CALL", table), "m", "B");
    assert ms.methods == Apply(Fresh("CALL", table), calls[0]);
    assert RolesForAll(table, ["ADMIN"], {}, 3) == Ok(AllowedRoles(table, {}));
    assert Path(table, {}, ["A", "ADMIN"]);
    AllowlistMatchesRoles(ms, table, "A", 4, ms.methods, "m");
    if p :| LeadsTo(table, AtomicRoles(ms.methods, "m"), p, "A") {
      assert |p| > 1 ==> Includes(table, p[0], p[1]);
      assert |p| > 2 ==> Includes(table, p[1], p[2]);
    }
  }

  /** A full administrator is allowed everything without a STIG. Under one they are allowed exactly the methods and
      events that have a role available under it, and not the entry that stands for everything. */
  lemma AdminAllowlist(ms: Managers, table: Table, role: string, stig: Flags, depth: nat, m: Manager, name: string)
    requires Consistent(ms, table) && PartOf(m, ms) && role in table && table[role].fullAdmin && depth > 0
    ensures AllowlistForRole(ms, role, {}, depth) == Some({Entry("*", "*")})
    ensures stig != {} ==>
              var allow := AllowlistForRole(ms, role, stig, depth);
              && allow.Some? && Entry("*", "*") !in allow.value
              && (Entry(m.kind, name) in allow.value
                  <==> exists r :: r in RolesOf(m, name) && Available(table, stig, r))
  {
    if stig != {} {
      var roles := RolesForRole(table, role, stig, depth).roles;
      CollectedIff(ms, table, roles, m, name);
      if x :| x in roles * AtomicRoles(m, name) {
        AnswerUnderStig(table, role, stig, depth, x);
      }
      if r :| r in RolesOf(m, name) && Available(table, stig, r) {
        AnswerUnderStig(table, role, stig, depth, r);
        assert r in roles * AtomicRoles(m, name);
      }
    }
  }

  /** What an allowlist lets its holder do: the entries it lists, or everything. */
  predicate Permits(allow: set<Entry>, e: Entry) {
    e in allow || FULL_ADMIN_ENTRY in allow
  }

  /** A STIG only ever takes away: what a role, full administrators included, may do under one it may do without. */
  lemma StigRestricts(ms: Managers, table: Table, role: string, stig: Flags, depth: nat, e: Entry)
    requires Consistent(ms, table)
    requires AllowlistForRole(ms, role, {}, depth).Some? && AllowlistForRole(ms, role, stig, depth).Some?
    requires Permits(AllowlistForRole(ms, role, stig, depth).value, e)
    ensures Permits(AllowlistForRole(ms, role, {}, depth).value, e)
  {
    if !(role in table && table[role].fullAdmin) {
      var x := if e in AllowlistForRole(ms, role, stig, depth).value then e else FULL_ADMIN_ENTRY;
      StigRestrictsRole(ms, table, role, stig, depth, x);
    }
  }

  lemma StigRestrictsRole(ms: Managers, table: Table, role: string, stig: Flags, depth: nat, e: Entry)
    requires Consistent(ms, table) && (role in table ==> !table[role].fullAdmin)
    requires RolesForRole(table, role, {}, depth).Ok? && RolesForRole(table, role, stig, depth).Ok?
    requires e in AllowlistForRole(ms, role, stig, depth).value
    ensures e in AllowlistForRole(ms, role, {}, depth).value
  {
    var roles := RolesForRole(table, role, stig, depth).roles;
    var r :| r in roles && e in EntriesOf(ms.methods, r) + EntriesOf(ms.events, r);
    var p := Sound(table, role, stig, depth, r);
    assert forall i :: 0 <= i < |p| - 1 ==> Edge(table, stig, p[i], p[i + 1]) && Edge(table, {}, p[i], p[i + 1]);
    assert GrantedVia(table, {}, p, role, r);
    Complete(table, {}, depth, p, role, r);
  }

  // ----- the object

  class ResourceManager {
    const kind: string
    const table: Table
    var resources: map<string, seq<string>>
    var allowlists: map<string, seq<Entry>>

    ghost function State(): Manager
      reads this
    {
      Manager(kind, table, resources, allowlists)
    }

    constructor (kind: string, table: Table)
      ensures State() == Fresh(kind, table)
    {
      this.kind, this.table, resources, allowlists := kind, table, map[], map[];
    }

    method RegisterResource(resource: string, roles: seq<string>, existOk: bool) returns (e: Option<Error>)
      modifies this
      ensures (State(), e) == Register(old(State()), resource, roles, existOk)
    {
      if resource in resources {
        if !existOk {
          return Some(AlreadyRegistered);
        }
      } else {
        resources := resources[resource := []];
      }
      e := AddRolesToResource(resource, roles);
    }

    method AddRolesToResource(resource: string, roles: seq<string>) returns (e: Option<Error>)
      modifies this
      ensures (State(), e) == AddRoles(old(State()), resource, roles)
    {
      if resource !in resources {
        return Some(NotRegistered);
      }
      e := CheckRoles(resource, roles);
      if e.Some? {
        return;
      }
      resources := resources[resource := resources[resource] + roles];
      ghost var m1 := State();
      for i := 0 to |roles|
        invariant resources == m1.resources && State() == AppendAll(m1, roles[..i], Entry(kind, resource))
      {
        assert roles[..i + 1][..i] == roles[..i];
        var entries := if roles[i] in allowlists then allowlists[roles[i]] else [];
        allowlists := allowlists[roles[i] := entries + [Entry(kind, resource)]];
      }
      assert roles[..|roles|] == roles;
    }

    method CheckRoles(resource: string, roles: seq<string>) returns (e: Option<Error>)
      ensures e == RolesError(State(), resource, roles)
    {
      var i := 0;
      while i < |roles|
        invariant 0 <= i <= |roles| && RolesError(State(), resource, roles) == RolesError(State(), resource, roles[i..])
      {
        if roles[i] !in table {
          return Some(InvalidRole);
        }
        if Blacklisted(roles[i], resource) {
          return Some(NotGrantable);
        }
        assert roles[i..][1..] == roles[i + 1..];
        i := i + 1;
      }
      e := None;
    }

    /** `roles_for_resource`, before sorting; `order` is the iteration order of the role table. */
    method RolesForResource(resource: string, order: seq<string>) returns (roles: set<string>)
      requires forall r :: r in order <==> r in table
      ensures forall x :: x in roles <==> Above(table, AtomicRoles(State(), resource), x)
    {
      var atomic := if resource in resources then (set r | r in resources[resource]) else {};
      assert atomic == AtomicRoles(State(), resource);
      roles := RolesAbove(table, order, atomic);
    }
  }
}
