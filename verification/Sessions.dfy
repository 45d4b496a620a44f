/** How long a session lasts: expiry and inactivity of user credentials, and sessions opened with a token, which live
    off the credentials that first generated the token. */
module Sessions {
  import opened Prelude

  // ----- user credentials

  /** `expiry` and `inactivity` come from the assurance level and are both absent without one. */
  datatype User = User(createdAt: int, expiry: Option<int>, inactivity: Option<nat>, lastUsedAt: int)

  /** An assurance level: the maximum age of a session, and the maximum inactivity if any. */
  datatype Assurance = Assurance(maxSessionAge: nat, maxInactivity: Option<nat>)

  function NewUser(level: Option<Assurance>, now: int): User {
    match level
    case None => User(now, None, None, now)
    case Some(a) => User(now, Some(now + a.maxSessionAge), a.maxInactivity, now)
  }

  /** An inactivity limit of zero is as good as none. */
  predicate Limited(u: User) {
    u.inactivity.Some? && u.inactivity.value != 0
  }

  predicate UserValid(u: User, now: int) {
    && !(u.expiry.Some? && now > u.expiry.value)
    && !(Limited(u) && now > u.lastUsedAt + u.inactivity.value)
  }

  function UserUsed(u: User, now: int): User {
    if Limited(u) && now < u.lastUsedAt + u.inactivity.value then u.(lastUsedAt := now) else u
  }

  /** The credential after a run of `notify_used` calls. */
  function UsedAll(u: User, uses: seq<int>): User
    decreases |uses|
  {
    if uses == [] then u else UsedAll(UserUsed(u, uses[0]), uses[1..])
  }

  /** Once invalid, always invalid: no later use revives the credential. */
  lemma {:induction false} InvalidForGood(u: User, now: int, uses: seq<int>, t: int)
    requires !UserValid(u, now) && now <= t && forall i :: 0 <= i < |uses| ==> now <= uses[i]
    ensures !UserValid(UsedAll(u, uses), t)
    decreases |uses|
  {
    if uses != [] {
      var u1 := UserUsed(u, uses[0]);
      assert !UserValid(u1, now);
      InvalidForGood(u1, now, uses[1..], t);
    }
  }

  lemma {:induction false} UsesKeepExpiry(u: User, uses: seq<int>)
    ensures UsedAll(u, uses) == u.(lastUsedAt := UsedAll(u, uses).lastUsedAt)
    decreases |uses|
  {
    if uses != [] {
      UsesKeepExpiry(UserUsed(u, uses[0]), uses[1..]);
    }
  }

  /** No use extends a session beyond its maximum age (reauthentication, section 4.1.3 of NIST SP 800-63B). */
  lemma NeverOutlivesMaximumAge(a: Assurance, now: int, uses: seq<int>, t: int)
    requires UserValid(UsedAll(NewUser(Some(a), now), uses), t)
    ensures t <= now + a.maxSessionAge
  {
    UsesKeepExpiry(NewUser(Some(a), now), uses);
  }

  /** Uses in order, each less than `limit` after the one before; the first after `last`. */
  ghost predicate Busy(last: int, uses: seq<int>, limit: int)
    decreases |uses|
  {
    uses == [] || (last <= uses[0] < last + limit && Busy(uses[0], uses[1..], limit))
  }

  /** A session in steady use is valid for as long as its age allows, and one left idle beyond the limit is not. */
  lemma {:induction false} SteadyUseIsValid(u: User, uses: seq<int>, t: int)
    requires Limited(u) && Busy(u.lastUsedAt, uses, u.inactivity.value)
    ensures var last := if uses == [] then u.lastUsedAt else uses[|uses| - 1];
            UserValid(UsedAll(u, uses), t)
            <==> !(u.expiry.Some? && t > u.expiry.value) && t <= last + u.inactivity.value
    decreases |uses|
  {
    if uses != [] {
      SteadyUseIsValid(UserUsed(u, uses[0]), uses[1..], t);
    }
  }

  /** A session from its login on, in steady use. Under an assurance level with an inactivity limit it is valid
      exactly until its maximum age, or until the limit after the last use; under one without, exactly until its
      maximum age; and without a level always. */
  lemma ValidFromLogin(level: Option<Assurance>, now: int, uses: seq<int>, t: int)
    requires level.Some? && level.value.maxInactivity.Some? && level.value.maxInactivity.value != 0 ==>
               Busy(now, uses, level.value.maxInactivity.value)
    ensures var last := if uses == [] then now else uses[|uses| - 1];
            UserValid(UsedAll(NewUser(level, now), uses), t)
            <==> match level
                 case None => true
                 case Some(a) =>
                   && t <= now + a.maxSessionAge
                   && (a.maxInactivity.Some? && a.maxInactivity.value != 0 ==> t <= last + a.maxInactivity.value)
  {
    var u := NewUser(level, now);
    if Limited(u) {
      SteadyUseIsValid(u, uses, t);
    } else {
      UsesKeepExpiry(u, uses);
    }
  }

  // ----- tokens

  /** A credential object: a user's, one that is always valid (the peer node's), or a session opened with a token. The
      session keeps the root that it found when it was opened. */
  datatype Cred = UserCred(user: User) | NodeCred | TokenSession(token: nat, root: nat, pamAuthenticated: bool)

  datatype Token = Token(ttl: int, parent: Option<nat>, lastUsedAt: int)

  /** Credentials and tokens are referred to by position; `sessions` is the table of the session manager, from session
      ids to credentials. */
  datatype Heap = Heap(creds: seq<Cred>, tokens: seq<Token>, sessions: map<string, nat>)

  /** A parent is an existing credential, and a session among the parents uses an older token. */
  ghost predicate Refs(h: Heap) {
    forall t :: 0 <= t < |h.tokens| && h.tokens[t].parent.Some? ==>
      && h.tokens[t].parent.value < |h.creds|
      && (h.creds[h.tokens[t].parent.value].TokenSession? ==> h.creds[h.tokens[t].parent.value].token < t)
  }

  /** `Token.root_credentials`: up through token sessions to the first credential that is not one. */
  ghost function Root(h: Heap, t: nat): (r: Option<nat>)
    requires Refs(h) && t < |h.tokens|
    ensures r.Some? ==> r.value < |h.creds| && !h.creds[r.value].TokenSession?
    decreases t
  {
    match h.tokens[t].parent
    case None => None
    case Some(c) => if h.creds[c].TokenSession? then Root(h, h.creds[c].token) else Some(c)
  }

  /** A session's root is the parent of its token. */
  ghost predicate CredOk(c: Cred, tokens: seq<Token>) {
    c.TokenSession? ==> c.token < |tokens| && tokens[c.token].parent == Some(c.root)
  }

  /** A token's parent is not a token session. */
  ghost predicate TokenOk(t: Token, creds: seq<Cred>) {
    t.parent.Some? ==> t.parent.value < |creds| && !creds[t.parent.value].TokenSession?
  }

  ghost predicate Flat(h: Heap) {
    && (forall c :: 0 <= c < |h.creds| ==> CredOk(h.creds[c], h.tokens))
    && (forall t :: 0 <= t < |h.tokens| ==> TokenOk(h.tokens[t], h.creds))
    && (forall id :: id in h.sessions ==> h.sessions[id] < |h.creds|)
  }

  lemma FlatRefs(h: Heap)
    requires Flat(h)
    ensures Refs(h) && forall t :: 0 <= t < |h.tokens| ==> Root(h, t) == h.tokens[t].parent
  {
    forall t | 0 <= t < |h.tokens|
      ensures TokenOk(h.tokens[t], h.creds)
    {
    }
  }

  predicate TokenValid(t: Token, now: int) {
    now < t.lastUsedAt + t.ttl
  }

  /** The validity of a credential that is not a token session. */
  predicate RootValid(c: Cred, now: int) {
    c.UserCred? ==> UserValid(c.user, now)
  }

  predicate SessionValid(h: Heap, c: nat, now: int)
    requires c < |h.creds|
    requires h.creds[c].TokenSession? ==> h.creds[c].root < |h.creds| && h.creds[c].token < |h.tokens|
  {
    match h.creds[c]
    case TokenSession(t, r, pam) => RootValid(h.creds[r], now) && pam && TokenValid(h.tokens[t], now)
    case _ => RootValid(h.creds[c], now)
  }

  /** In `Create`, `parent` is the credential of the caller. `Open` and `Close` are `login` and `logout` of the session
      manager; `Message` is a message of a session, whose credential is checked first and marked used `later` seconds
      after. */
  datatype Action =
    | Login(level: Option<Assurance>)
    | NodeLogin
    | Create(parent: Option<nat>, ttl: int)
    | TokenLogin(token: nat)
    | PamAuthenticate(cred: nat, success: bool)
    | Open(id: string, cred: nat)
    | Close(id: string)
    | Message(id: string, later: nat)

  /** A login with a token that has no root raises, as does a second `pam_authenticate` after one that succeeded. */
  ghost predicate Enabled(h: Heap, a: Action)
    requires Refs(h)
  {
    match a
    case Create(p, _) => p.Some? ==> p.value < |h.creds|
    case TokenLogin(t) => t < |h.tokens| && Root(h, t).Some?
    case PamAuthenticate(c, _) => c < |h.creds| && h.creds[c].TokenSession? && !h.creds[c].pamAuthenticated
    case Open(_, c) => c < |h.creds|
    case _ => true
  }

  /** `TokenManager.create` hangs the new token on the root of the caller's credentials. */
  ghost function ParentFor(h: Heap, p: Option<nat>): Option<nat>
    requires Refs(h) && (p.Some? ==> p.value < |h.creds|)
  {
    if p.Some? && h.creds[p.value].TokenSession? && h.creds[p.value].token < |h.tokens| then
      var root := Root(h, h.creds[p.value].token);
      if root.Some? then root else p
    else p
  }

  function Touch(creds: seq<Cred>, c: nat, now: int): seq<Cred>
    requires c < |creds|
  {
    if creds[c].UserCred? then creds[c := UserCred(UserUsed(creds[c].user, now))] else creds
  }

  function Notify(h: Heap, c: nat, now: int): Heap
    requires c < |h.creds|
    requires h.creds[c].TokenSession? ==> h.creds[c].root < |h.creds| && h.creds[c].token < |h.tokens|
  {
    match h.creds[c]
    case TokenSession(t, r, _) =>
      h.(creds := Touch(h.creds, r, now), tokens := h.tokens[t := h.tokens[t].(lastUsedAt := now)])
    case _ => h.(creds := Touch(h.creds, c, now))
  }

  /** `_app_on_message`: a valid credential is marked used, an invalid one is logged out. */
  ghost function OnMessage(h: Heap, id: string, now: int, later: nat): Heap
    requires Flat(h)
  {
    if id !in h.sessions then h
    else
      var c := h.sessions[id];
      SessionRefs(h, c);
      if SessionValid(h, c, now) then Notify(h, c, now + later) else h.(sessions := h.sessions - {id})
  }

  ghost function Step(h: Heap, now: int, a: Action): Heap
    requires Flat(h)
  {
    FlatRefs(h);
    if !Enabled(h, a) then h
    else
      match a
      case Login(level) => h.(creds := h.creds + [UserCred(NewUser(level, now))])
      case NodeLogin => h.(creds := h.creds + [NodeCred])
      case Create(p, ttl) => h.(tokens := h.tokens + [Token(ttl, ParentFor(h, p), now)])
      case TokenLogin(t) => h.(creds := h.creds + [TokenSession(t, Root(h, t).value, false)])
      case PamAuthenticate(c, ok) => h.(creds := h.creds[c := h.creds[c].(pamAuthenticated := ok)])
      case Open(id, c) => h.(sessions := h.sessions[id := c])
      case Close(id) => h.(sessions := h.sessions - {id})
      case Message(id, later) => OnMessage(h, id, now, later)
  }

  /** When a step reads the clock for the use it records. */
  function UsedAt(now: int, a: Action): int {
    if a.Message? then now + a.later else now
  }

  /** What happens to a credential in a step: a user's may be used, a session keeps its token and root. */
  ghost predicate CredKept(c: Cred, c': Cred, now: int) {
    match c
    case UserCred(u) => c' == c || c' == UserCred(UserUsed(u, now))
    case NodeCred => c' == c
    case TokenSession(t, r, _) => c'.TokenSession? && c'.token == t && c'.root == r
  }

  ghost predicate TokenKept(t: Token, t': Token) {
    t'.parent == t.parent && t'.ttl == t.ttl
  }

  ghost predicate Grows(h: Heap, h': Heap, now: int) {
    && |h.creds| <= |h'.creds| && |h.tokens| <= |h'.tokens|
    && (forall c :: 0 <= c < |h.creds| ==> CredKept(h.creds[c], h'.creds[c], now))
    && (forall t :: 0 <= t < |h.tokens| ==> TokenKept(h.tokens[t], h'.tokens[t]))
  }

  lemma StepGrows(h: Heap, now: int, a: Action)
    requires Flat(h)
    ensures Grows(h, Step(h, now, a), UsedAt(now, a))
  {
    FlatRefs(h);
    if a.Message? {
      MessageGrows(h, a.id, now, a.later);
    }
  }

  lemma MessageGrows(h: Heap, id: string, now: int, later: nat)
    requires Flat(h)
    ensures Grows(h, OnMessage(h, id, now, later), now + later)
    ensures OnMessage(h, id, now, later).sessions.Keys <= h.sessions.Keys
    ensures |OnMessage(h, id, now, later).creds| == |h.creds| && |OnMessage(h, id, now, later).tokens| == |h.tokens|
  {
    if id in h.sessions {
      SessionRefs(h, h.sessions[id]);
    }
  }

  /** What exists stays well formed; what is new is checked on its own. */
  lemma GrowsFlat(h: Heap, h': Heap, now: int)
    requires Flat(h) && Grows(h, h', now)
    requires forall c :: |h.creds| <= c < |h'.creds| ==> CredOk(h'.creds[c], h'.tokens)
    requires forall t :: |h.tokens| <= t < |h'.tokens| ==> TokenOk(h'.tokens[t], h'.creds)
    requires forall id :: id in h'.sessions ==> h'.sessions[id] < |h'.creds|
    ensures Flat(h')
  {
    forall c | 0 <= c < |h'.creds|
      ensures CredOk(h'.creds[c], h'.tokens)
    {
      if c < |h.creds| {
        assert CredOk(h.creds[c], h.tokens) && CredKept(h.creds[c], h'.creds[c], now);
        if h.creds[c].TokenSession? {
          assert TokenKept(h.tokens[h.creds[c].token], h'.tokens[h.creds[c].token]);
        }
      }
    }
    forall t | 0 <= t < |h'.tokens|
      ensures TokenOk(h'.tokens[t], h'.creds)
    {
      if t < |h.tokens| {
        assert TokenOk(h.tokens[t], h.creds) && TokenKept(h.tokens[t], h'.tokens[t]);
        if h.tokens[t].parent.Some? {
          var p := h.tokens[t].parent.value;
          assert CredKept(h.creds[p], h'.creds[p], now);
        }
      }
    }
  }

  /** The caller's root is no token session. */
  lemma ParentForOk(h: Heap, p: Option<nat>, ttl: int, now: int)
    requires Flat(h) && (p.Some? ==> p.value < |h.creds|)
    ensures Refs(h) && TokenOk(Token(ttl, ParentFor(h, p), now), h.creds)
  {
    FlatRefs(h);
    if p.Some? {
      assert CredOk(h.creds[p.value], h.tokens);
      if h.creds[p.value].TokenSession? {
        assert TokenOk(h.tokens[h.creds[p.value].token], h.creds);
      }
    }
  }

  lemma StepFlat(h: Heap, now: int, a: Action)
    requires Flat(h)
    ensures Flat(Step(h, now, a))
  {
    StepGrows(h, now, a);
    FlatRefs(h);
    if a.Create? && Enabled(h, a) {
      ParentForOk(h, a.parent, a.ttl, now);
    }
    if a.Message? {
      MessageGrows(h, a.id, now, a.later);
    }
    GrowsFlat(h, Step(h, now, a), UsedAt(now, a));
  }

  const EMPTY := Heap([], [], map[])

  /** The heap after a run of timed actions. */
  ghost function Run(h: Heap, acts: seq<(int, Action)>): (h': Heap)
    requires Flat(h)
    ensures Flat(h')
    decreases |acts|
  {
    if acts == [] then h
    else
      StepFlat(h, acts[0].0, acts[0].1);
      Run(Step(h, acts[0].0, acts[0].1), acts[1..])
  }

  /** In every run each token's parent is not a token session, so the root lookup of any token ends at once, at that
      parent, and every session's root is the root of its token. */
  lemma RootIsParent(acts: seq<(int, Action)>)
    ensures var h := Run(EMPTY, acts);
            && Refs(h)
            && (forall t :: 0 <= t < |h.tokens| ==>
                  && Root(h, t) == h.tokens[t].parent
                  && (Root(h, t).Some? ==> !h.creds[Root(h, t).value].TokenSession?))
            && (forall c :: 0 <= c < |h.creds| && h.creds[c].TokenSession? ==>
                  h.creds[c].token < |h.tokens| && Root(h, h.creds[c].token) == Some(h.creds[c].root))
  {
    var h := Run(EMPTY, acts);
    FlatRefs(h);
    forall c | 0 <= c < |h.creds| && h.creds[c].TokenSession?
      ensures h.creds[c].token < |h.tokens| && Root(h, h.creds[c].token) == Some(h.creds[c].root)
    {
      assert CredOk(h.creds[c], h.tokens);
    }
  }

  /** The references of a session in a well-formed heap. */
  lemma SessionRefs(h: Heap, c: nat)
    requires Flat(h) && c < |h.creds|
    ensures h.creds[c].TokenSession? ==>
              h.creds[c].token < |h.tokens| && h.creds[c].root < |h.creds| && !h.creds[h.creds[c].root].TokenSession?
  {
    assert CredOk(h.creds[c], h.tokens);
    if h.creds[c].TokenSession? {
      assert TokenOk(h.tokens[h.creds[c].token], h.creds);
    }
  }

  lemma {:induction false} RootInvalidForGood(h: Heap, r: nat, now: int, acts: seq<(int, Action)>, t: int)
    requires Flat(h) && r < |h.creds| && !RootValid(h.creds[r], now) && now <= t
    requires forall i :: 0 <= i < |acts| ==> now <= acts[i].0
    ensures var h' := Run(h, acts); r < |h'.creds| && !RootValid(h'.creds[r], t)
    decreases |acts|
  {
    if acts != [] {
      var h1 := Step(h, acts[0].0, acts[0].1);
      StepFlat(h, acts[0].0, acts[0].1);
      StepGrows(h, acts[0].0, acts[0].1);
      assert CredKept(h.creds[r], h1.creds[r], UsedAt(acts[0].0, acts[0].1));
      RootInvalidForGood(h1, r, now, acts[1..], t);
    }
  }

  lemma {:induction false} SessionKeepsRoot(h: Heap, c: nat, acts: seq<(int, Action)>)
    requires Flat(h) && c < |h.creds| && h.creds[c].TokenSession?
    ensures var h' := Run(h, acts);
            && c < |h'.creds| && h'.creds[c].TokenSession?
            && h'.creds[c].token == h.creds[c].token && h'.creds[c].root == h.creds[c].root
    decreases |acts|
  {
    if acts != [] {
      var h1 := Step(h, acts[0].0, acts[0].1);
      StepFlat(h, acts[0].0, acts[0].1);
      StepGrows(h, acts[0].0, acts[0].1);
      assert CredKept(h.creds[c], h1.creds[c], UsedAt(acts[0].0, acts[0].1));
      SessionKeepsRoot(h1, c, acts[1..]);
    }
  }

  /** `SessionValid` on well-formed heaps, where its references are known to exist. */
  ghost predicate ValidAt(h: Heap, c: nat, now: int)
    requires Flat(h) && c < |h.creds|
  {
    SessionRefs(h, c);
    SessionValid(h, c, now)
  }

  /** A token session is never valid longer than its root: once the root is invalid, so is the session, for good and
      whatever else happens. */
  lemma NeverOutlivesRoot(h: Heap, c: nat, now: int, acts: seq<(int, Action)>, t: int)
    requires Flat(h) && c < |h.creds| && h.creds[c].TokenSession?
    requires h.creds[c].root < |h.creds| && !RootValid(h.creds[h.creds[c].root], now) && now <= t
    requires forall i :: 0 <= i < |acts| ==> now <= acts[i].0
    ensures c < |Run(h, acts).creds| && !ValidAt(Run(h, acts), c, t)
  {
    SessionKeepsRoot(h, c, acts);
    RootInvalidForGood(h, h.creds[c].root, now, acts, t);
  }

  /** A token that has lapsed is renewed by no step: the only use of a token is by a message of a session that was found
      valid first. */
  lemma StepKeepsLapsed(h: Heap, k: nat, now: int, a: Action)
    requires Flat(h) && k < |h.tokens| && !TokenValid(h.tokens[k], now)
    ensures k < |Step(h, now, a).tokens| && Step(h, now, a).tokens[k] == h.tokens[k]
  {
    FlatRefs(h);
    if a.Message? && a.id in h.sessions {
      SessionRefs(h, h.sessions[a.id]);
    }
  }

  /** So a lapsed token stays as it is, in every run. */
  lemma {:induction false} LapsedForGood(h: Heap, k: nat, now: int, acts: seq<(int, Action)>)
    requires Flat(h) && k < |h.tokens| && !TokenValid(h.tokens[k], now)
    requires forall i :: 0 <= i < |acts| ==> now <= acts[i].0
    ensures k < |Run(h, acts).tokens| && Run(h, acts).tokens[k] == h.tokens[k]
    decreases |acts|
  {
    if acts != [] {
      StepFlat(h, acts[0].0, acts[0].1);
      StepKeepsLapsed(h, k, acts[0].0, acts[0].1);
      LapsedForGood(Step(h, acts[0].0, acts[0].1), k, now, acts[1..]);
    }
  }

  /** A session that is found invalid is invalid for good, in every run, whether its age, its inactivity, its root or
      its token is the cause. The one cause that can pass is that PAM was not asked yet. */
  lemma SessionInvalidForGood(h: Heap, c: nat, now: int, acts: seq<(int, Action)>, t: int)
    requires Flat(h) && c < |h.creds| && (h.creds[c].TokenSession? ==> h.creds[c].pamAuthenticated)
    requires !ValidAt(h, c, now) && now <= t
    requires forall i :: 0 <= i < |acts| ==> now <= acts[i].0
    ensures c < |Run(h, acts).creds| && !ValidAt(Run(h, acts), c, t)
  {
    SessionRefs(h, c);
    if !h.creds[c].TokenSession? {
      RootInvalidForGood(h, c, now, acts, t);
    } else if !RootValid(h.creds[h.creds[c].root], now) {
      NeverOutlivesRoot(h, c, now, acts, t);
    } else {
      SessionKeepsRoot(h, c, acts);
      LapsedForGood(h, h.creds[c].token, now, acts);
    }
  }

  // ----- what the steps do

  /** A login adds a credential of its own: a user's, valid as the level says, or the peer node's, valid always. */
  lemma LoginAdds(h: Heap, now: int, level: Option<Assurance>, t: int)
    requires Flat(h)
    ensures var h1, h2, c := Step(h, now, Login(level)), Step(h, now, NodeLogin), |h.creds|;
            && h1.tokens == h.tokens == h2.tokens && h1.sessions == h.sessions == h2.sessions
            && |h1.creds| == c + 1 == |h2.creds| && h1.creds[..c] == h.creds == h2.creds[..c]
            && h1.creds[c] == UserCred(NewUser(level, now)) && h2.creds[c].NodeCred? && RootValid(h2.creds[c], t)
            && (RootValid(h1.creds[c], t)
                <==> match level
                     case None => true
                     case Some(a) =>
                       && t <= now + a.maxSessionAge
                       && (a.maxInactivity.Some? && a.maxInactivity.value != 0 ==> t <= now + a.maxInactivity.value))
  {
    FlatRefs(h);
    ValidFromLogin(level, now, [], t);
  }

  /** A token is made for the credential that the caller's session stands for: its root if it is a token session, and
      itself otherwise. It is valid for its lifetime from then on. */
  lemma CreatedToken(h: Heap, now: int, p: nat, ttl: int, t: int)
    requires Flat(h) && p < |h.creds|
    ensures var h1, k := Step(h, now, Create(Some(p), ttl)), |h.tokens|;
            && h1.creds == h.creds && h1.sessions == h.sessions
            && |h1.tokens| == k + 1 && h1.tokens[..k] == h.tokens
            && h1.tokens[k].parent == Some(if h.creds[p].TokenSession? then h.creds[p].root else p)
            && (TokenValid(h1.tokens[k], t) <==> t < now + ttl)
  {
    FlatRefs(h);
    assert CredOk(h.creds[p], h.tokens);
  }

  /** A login with a token opens a session on that token and its root, which is not valid before PAM is asked. */
  lemma TokenLoginOpens(h: Heap, now: int, k: nat, t: int)
    requires Flat(h) && k < |h.tokens| && h.tokens[k].parent.Some?
    ensures var h1, c := Step(h, now, TokenLogin(k)), |h.creds|;
            && h1.tokens == h.tokens && |h1.creds| == c + 1 && h1.creds[..c] == h.creds
            && h1.creds[c] == TokenSession(k, h.tokens[k].parent.value, false)
            && Flat(h1) && !ValidAt(h1, c, t)
  {
    FlatRefs(h);
    StepFlat(h, now, TokenLogin(k));
  }

  lemma {:induction false} RunNeedsPam(h: Heap, acts: seq<(int, Action)>, c: nat)
    requires Flat(h) && c < |Run(h, acts).creds| && Run(h, acts).creds[c].TokenSession?
    requires Run(h, acts).creds[c].pamAuthenticated
    requires c < |h.creds| && h.creds[c].TokenSession? ==> !h.creds[c].pamAuthenticated
    ensures exists i :: 0 <= i < |acts| && acts[i].1 == PamAuthenticate(c, true)
    decreases |acts|
  {
    if acts[0].1 != PamAuthenticate(c, true) {
      var h1 := Step(h, acts[0].0, acts[0].1);
      StepFlat(h, acts[0].0, acts[0].1);
      StepNeedsPam(h, acts[0].0, acts[0].1, c);
      RunNeedsPam(h1, acts[1..], c);
      var i :| 0 <= i < |acts[1..]| && acts[1..][i].1 == PamAuthenticate(c, true);
      assert acts[i + 1].1 == PamAuthenticate(c, true);
    }
  }

  lemma StepNeedsPam(h: Heap, now: int, a: Action, c: nat)
    requires Flat(h) && a != PamAuthenticate(c, true)
    requires c < |h.creds| && h.creds[c].TokenSession? ==> !h.creds[c].pamAuthenticated
    ensures var h1 := Step(h, now, a); c < |h1.creds| && h1.creds[c].TokenSession? ==> !h1.creds[c].pamAuthenticated
  {
    FlatRefs(h);
    StepGrows(h, now, a);
    var h1 := Step(h, now, a);
    if c < |h.creds| {
      assert CredKept(h.creds[c], h1.creds[c], UsedAt(now, a));
    }
    if a.Message? && a.id in h.sessions {
      SessionRefs(h, h.sessions[a.id]);
    }
  }

  /** A token session is never valid unless PAM was asked about it and agreed. */
  lemma ValidNeedsPam(acts: seq<(int, Action)>, c: nat, t: int)
    requires c < |Run(EMPTY, acts).creds| && Run(EMPTY, acts).creds[c].TokenSession? && ValidAt(Run(EMPTY, acts), c, t)
    ensures exists i :: 0 <= i < |acts| && acts[i].1 == PamAuthenticate(c, true)
  {
    RunNeedsPam(EMPTY, acts, c);
  }

  /** And once it has agreed, the session is valid as long as root and token are. */
  lemma PamSuffices(h: Heap, now: int, c: nat, t: int)
    requires Flat(h) && c < |h.creds| && h.creds[c].TokenSession? && !h.creds[c].pamAuthenticated
    ensures h.creds[c].token < |h.tokens| && h.creds[c].root < |h.creds|
    ensures var h1 := Step(h, now, PamAuthenticate(c, true));
            && Flat(h1) && |h1.creds| == |h.creds|
            && (ValidAt(h1, c, t)
                <==> RootValid(h.creds[h.creds[c].root], t) && TokenValid(h.tokens[h.creds[c].token], t))
  {
    FlatRefs(h);
    SessionRefs(h, c);
    StepFlat(h, now, PamAuthenticate(c, true));
  }

  /** A message of a valid session counts as a use of its credential: of the user's own, or of the root's and the
      token's, which then lives its lifetime again. Nothing else changes. */
  lemma MessageRenews(h: Heap, id: string, now: int, later: nat)
    requires Flat(h) && id in h.sessions && h.sessions[id] < |h.creds| && ValidAt(h, h.sessions[id], now)
    ensures var h1, c := Step(h, now, Message(id, later)), h.sessions[id];
            var r := if h.creds[c].TokenSession? then h.creds[c].root else c;
            && h1.sessions == h.sessions && |h1.creds| == |h.creds| && |h1.tokens| == |h.tokens| && r < |h.creds|
            && (forall i :: 0 <= i < |h.creds| ==>
                  h1.creds[i] == if i == r && h.creds[r].UserCred? then UserCred(UserUsed(h.creds[r].user, now + later))
                                 else h.creds[i])
            && (forall k :: 0 <= k < |h.tokens| ==>
                  h1.tokens[k] == if h.creds[c].TokenSession? && k == h.creds[c].token
                                  then h.tokens[k].(lastUsedAt := now + later) else h.tokens[k])
  {
    FlatRefs(h);
    SessionRefs(h, h.sessions[id]);
  }

  /** Nothing opens the session. */
  ghost predicate NotOpened(acts: seq<(int, Action)>, id: string) {
    forall i :: 0 <= i < |acts| && acts[i].1.Open? ==> acts[i].1.id != id
  }

  lemma {:induction false} StaysLoggedOut(h: Heap, acts: seq<(int, Action)>, id: string)
    requires Flat(h) && id !in h.sessions && NotOpened(acts, id)
    ensures id !in Run(h, acts).sessions
    decreases |acts|
  {
    if acts != [] {
      StepFlat(h, acts[0].0, acts[0].1);
      FlatRefs(h);
      if acts[0].1.Message? {
        MessageGrows(h, acts[0].1.id, acts[0].0, acts[0].1.later);
      }
      StaysLoggedOut(Step(h, acts[0].0, acts[0].1), acts[1..], id);
    }
  }

  /** A session that is closed, or whose message finds its credential invalid, is logged out until it is opened
      again. The other sessions are not touched. */
  lemma LoggedOut(h: Heap, now: int, a: Action, acts: seq<(int, Action)>)
    requires Flat(h) && (a.Close? || a.Message?) && NotOpened(acts, a.id)
    requires a.Message? && a.id in h.sessions ==>
               h.sessions[a.id] < |h.creds| && !ValidAt(h, h.sessions[a.id], now)
    ensures var h1 := Step(h, now, a);
            && h1.creds == h.creds && h1.tokens == h.tokens && h1.sessions == h.sessions - {a.id}
            && Flat(h1) && a.id !in Run(h1, acts).sessions
  {
    FlatRefs(h);
    StepFlat(h, now, a);
    if a.Message? && a.id !in h.sessions {
      assert h.sessions - {a.id} == h.sessions;
    }
    StaysLoggedOut(Step(h, now, a), acts, a.id);
  }

  /** A session that is opened has the credential it was opened with. */
  lemma OpenedWith(h: Heap, now: int, id: string, c: nat)
    requires Flat(h) && c < |h.creds|
    ensures var h1 := Step(h, now, Open(id, c));
            && h1.creds == h.creds && h1.tokens == h.tokens && id in h1.sessions && h1.sessions[id] == c
            && forall other :: other != id ==> (other in h1.sessions <==> other in h.sessions)
                                               && (other in h.sessions ==> h1.sessions[other] == h.sessions[other])
  {
    FlatRefs(h);
  }

  // ----- the objects

  class UserSessionManagerCredentials {
    var expiry: Option<int>
    var inactivityTimeout: Option<nat>
    var lastUsedAt: int
    const createdAt: int

    ghost function State(): User
      reads this
    {
      User(createdAt, expiry, inactivityTimeout, lastUsedAt)
    }

    constructor (level: Option<Assurance>, now: int)
      ensures State() == NewUser(level, now)
    {
      createdAt, lastUsedAt := now, now;
      if level.Some? {
        expiry, inactivityTimeout := Some(now + level.value.maxSessionAge), level.value.maxInactivity;
      } else {
        expiry, inactivityTimeout := None, None;
      }
    }

    method NotifyUsed(now: int)
      modifies this`lastUsedAt
      ensures State() == UserUsed(old(State()), now)
      ensures forall t :: now <= t && !UserValid(old(State()), now) ==> !UserValid(State(), t)
    {
      if inactivityTimeout.Some? && inactivityTimeout.value != 0 {
        if now < lastUsedAt + inactivityTimeout.value {
          lastUsedAt := now;
        }
      }
    }

    method IsValid(now: int) returns (b: bool)
      ensures b == UserValid(State(), now)
    {
      if expiry.Some? && now > expiry.value {
        return false;
      }
      if inactivityTimeout.Some? && inactivityTimeout.value != 0 {
        if now > lastUsedAt + inactivityTimeout.value {
          return false;
        }
      }
      b := true;
    }
  }

  /** The walk of `root_credentials`, which ends on every chain of tokens. */
  method RootCredentials(h: Heap, t: nat) returns (r: Option<nat>)
    requires Refs(h) && t < |h.tokens|
    ensures r == Root(h, t)
  {
    r := h.tokens[t].parent;
    ghost var at: nat := t;
    while r.Some? && h.creds[r.value].TokenSession?
      invariant at < |h.tokens| && r == h.tokens[at].parent && Root(h, at) == Root(h, t)
      decreases at
    {
      ghost var next := h.creds[r.value].token;
      r := h.tokens[h.creds[r.value].token].parent;
      at := next;
    }
  }

  class TokenManager {
    var heap: Heap
    var tokens: map<string, nat>

    constructor (heap: Heap)
      ensures this.heap == heap && tokens == map[]
    {
      this.heap, tokens := heap, map[];
    }

    /** `name` is the random string drawn for the token. */
    method Create(name: string, ttl: int, parent: Option<nat>, now: int) returns (t: nat)
      requires Flat(heap) && (parent.Some? ==> parent.value < |heap.creds|)
      modifies this
      ensures heap == Step(old(heap), now, Action.Create(parent, ttl)) && Flat(heap)
      ensures t == |old(heap).tokens| && tokens == old(tokens)[name := t]
    {
      StepFlat(heap, now, Action.Create(parent, ttl));
      var credentials := parent;
      if parent.Some? && heap.creds[parent.value].TokenSession? {
        var root := RootCredentials(heap, heap.creds[parent.value].token);
        if root.Some? {
          credentials := root;
        }
      }
      t := |heap.tokens|;
      heap := heap.(tokens := heap.tokens + [Token(ttl, credentials, now)]);
      tokens := tokens[name := t];
    }

    /** `matches` is the outcome of comparing the caller's origin with the token's. An expired token is dropped; one
        asked for from elsewhere is kept but not returned. */
    method Get(name: string, matches: bool, now: int) returns (t: Option<nat>)
      requires forall n :: n in tokens ==> tokens[n] < |heap.tokens|
      modifies this`tokens
      ensures t.Some? <==> name in old(tokens) && TokenValid(heap.tokens[old(tokens)[name]], now) && matches
      ensures t.Some? ==> t.value == old(tokens)[name]
      ensures var lapsed := name in old(tokens) && !TokenValid(heap.tokens[old(tokens)[name]], now);
              tokens == if lapsed then old(tokens) - {name} else old(tokens)
    {
      if name !in tokens {
        return None;
      }
      if !TokenValid(heap.tokens[tokens[name]], now) {
        tokens := tokens - {name};
        return None;
      }
      t := if matches then Some(tokens[name]) else None;
    }
  }

  class SessionManager {
    var creds: seq<Cred>
    var tokens: seq<Token>
    var sessions: map<string, nat>

    ghost function State(): Heap
      reads this
    {
      Heap(creds, tokens, sessions)
    }

    constructor ()
      ensures State() == EMPTY
    {
      creds, tokens, sessions := [], [], map[];
    }

    method Login(id: string, cred: nat, ghost now: int)
      requires Flat(State()) && cred < |creds|
      modifies this`sessions
      ensures State() == Step(old(State()), now, Open(id, cred)) && Flat(State())
    {
      StepFlat(State(), now, Open(id, cred));
      sessions := sessions[id := cred];
    }

    method Logout(id: string, ghost now: int)
      requires Flat(State())
      modifies this`sessions
      ensures State() == Step(old(State()), now, Close(id)) && Flat(State())
    {
      StepFlat(State(), now, Close(id));
      sessions := sessions - {id};
    }

    /** Whether the session is still logged in. It is exactly when it was and its credential was valid; otherwise
        nothing is marked used. */
    method AppOnMessage(id: string, now: int, later: nat) returns (loggedIn: bool)
      requires Flat(State())
      modifies this
      ensures State() == Step(old(State()), now, Message(id, later)) && Flat(State())
      ensures loggedIn <==> id in old(sessions) && ValidAt(old(State()), old(sessions)[id], now)
      ensures loggedIn <==> id in sessions
      ensures !loggedIn ==> creds == old(creds) && tokens == old(tokens)
    {
      StepFlat(State(), now, Message(id, later));
      if id !in sessions {
        return false;
      }
      var c := sessions[id];
      SessionRefs(State(), c);
      if !SessionValid(Heap(creds, tokens, sessions), c, now) {
        Logout(id, now);
        return false;
      }
      var h := Notify(Heap(creds, tokens, sessions), c, now + later);
      creds, tokens := h.creds, h.tokens;
      loggedIn := true;
    }
  }
}
