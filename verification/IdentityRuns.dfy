/** Whole runs of the identity core: users, sessions and every access token ever
    handed out, with each operation taken as one step. */
module IdentityRuns {
  import opened Common
  import opened Identity
  import opened IdentityOps
  import T = Tokens
  import Tenant

  /** An access token and the human it was handed to, who logged in at the start
      of it. The human is not in the token; it is kept here to compare with. */
  datatype Held = Held(claims: T.AccessClaims, human: string)

  /** minted holds every access token handed out; root names, for each session,
      the first session of the chain of refreshes it came from. */
  datatype World = World(store: Store, minted: set<Held>, root: map<string, string>, now: Time)

  datatype Step =
    | DoRegister(t: Tenant.ID, email: string, password: string, hash: PasswordHash, userID: string, d: Draw)
    | DoLogin(t: Tenant.ID, email: string, password: string, allowed: bool, owed: bool, d: Draw)
    | DoIssue(userID: string, t: Tenant.ID, authTime: int, acr: string, amr: seq<string>, d: Draw)
    | DoRefresh(t: Tenant.ID, token: string, d: Draw)
    | DoLogout(t: Tenant.ID, token: string)
    | DoRevokeUser(t: Tenant.ID, userID: string)
    | DoRevokeTenant(t: Tenant.ID)
    | DoEnter(session: Option<Held>, target: Tenant.ID)
    | DoImpersonate(session: Option<Held>, targetUserID: string, may: Result<bool, Error>)
    | DoInvite(t: Tenant.ID, email: string, invitedBy: string, ttl: int, d: Draw)
    | DoAccept(t: Tenant.ID, token: string, password: string, hash: PasswordHash, userID: string, d: Draw)
    | DoProvision(t: Tenant.ID, email: string, provider: string, subject: string, userID: string, identityID: string)
    | DoEdit(store': Store) // memberships, links, second factors, deactivation, password changes
    | Tick(later: Time)

  datatype Outcome = Outcome(store: Store, token: Option<T.AccessClaims>)

  function Token<R>(r: Result<R, Error>, access: R -> T.AccessClaims): Option<T.AccessClaims>
  {
    if r.Ok? then Some(access(r.value)) else None
  }

  function ClaimsOf(session: Option<Held>): Option<T.AccessClaims>
  {
    if session.Some? then Some(session.value.claims) else None
  }

  /** What the operation does to the store and hands out. */
  function Apply(cfg: Config, w: World, s: Step): Outcome
    requires Indexed(w.store)
  {
    match s
    case DoRegister(t, email, password, hash, userID, d) =>
      var (s', r) := Register(cfg, w.store, t, email, password, hash, userID, d, w.now);
      Outcome(s', Token(r, (x: Registered) => x.grant.access))
    case DoLogin(t, email, password, allowed, owed, d) =>
      var (s', r) := Login(cfg, w.store, t, email, password, allowed, owed, d, w.now);
      Outcome(s', Token(r, (x: LoggedIn) => x.grant.access))
    case DoIssue(userID, t, authTime, acr, amr, d) =>
      var (s', r) := IssueTokensForUser(cfg, w.store, userID, t, authTime, acr, amr, d, w.now);
      Outcome(s', Token(r, (x: Grant) => x.access))
    case DoRefresh(t, token, d) =>
      var (s', r) := Refresh(cfg, w.store, t, token, d, w.now);
      Outcome(s', Token(r, (x: LoggedIn) => x.grant.access))
    case DoLogout(t, token) => Outcome(Logout(cfg, w.store, t, token, w.now).0, None)
    case DoRevokeUser(t, userID) => Outcome(RevokeAllSessions(w.store, t, userID, w.now).0, None)
    case DoRevokeTenant(t) => Outcome(RevokeAllSessionsForTenant(w.store, t, w.now).0, None)
    case DoEnter(session, target) =>
      Outcome(w.store, Token(EnterTenant(cfg, w.store, ClaimsOf(session), target, w.now), (x: T.AccessClaims) => x))
    case DoImpersonate(session, target, may) =>
      Outcome(w.store, Token(Impersonate(cfg, w.store, ClaimsOf(session), target, may, w.now), (x: T.AccessClaims) => x))
    case DoInvite(t, email, invitedBy, ttl, d) => Outcome(Invite(cfg, w.store, t, email, invitedBy, ttl, d, w.now).0, None)
    case DoAccept(t, token, password, hash, userID, d) =>
      var (s', r) := AcceptInvitation(cfg, w.store, t, token, password, hash, userID, d, w.now);
      Outcome(s', Token(r, (x: Registered) => x.grant.access))
    case DoProvision(t, email, provider, subject, userID, identityID) =>
      Outcome(Provision(w.store, t, email, provider, subject, userID, identityID, w.now).0, None)
    case DoEdit(store') => Outcome(store', None)
    case Tick(_) => Outcome(w.store, None)
  }

  predicate NewUserID(w: World, id: string)
  {
    id != "" && id !in w.store.users
  }

  predicate NewSessionID(w: World, d: Draw)
  {
    d.sessionID !in w.store.sessions
  }

  /** A session presented to an operation is a token that was handed out and still parses:
      signatures cannot be forged. */
  predicate Presentable(cfg: Config, w: World, session: Option<Held>)
  {
    session.Some? ==>
      session.value in w.minted && cfg.jwt.Some? && T.ParseAccess(cfg.jwt.value, session.value.claims, w.now).Ok?
  }

  /** A token made from a session goes to the session's human; any other to the user it names. */
  function HumanOf(s: Step, c: T.AccessClaims): string
  {
    if (s.DoEnter? || s.DoImpersonate?) && s.session.Some? then s.session.value.human else c.subject
  }

  /** Edits leave who users are, and their sessions, alone. */
  predicate EditOk(s: Store, s': Store)
  {
    && Indexed(s') && s'.sessions == s.sessions && s'.hashes == s.hashes && s'.emails == s.emails
    && s'.users.Keys == s.users.Keys
    && forall id :: id in s.users ==> s'.users[id].id == id && s'.users[id].tenantID == s.users[id].tenantID
  }

  /** Ids are drawn fresh; the rest is as said above. */
  predicate Enabled(cfg: Config, w: World, s: Step)
  {
    match s
    case DoRegister(_, _, _, _, userID, d) => NewUserID(w, userID) && NewSessionID(w, d)
    case DoLogin(_, _, _, _, _, d) => NewSessionID(w, d)
    case DoIssue(_, _, _, _, _, d) => NewSessionID(w, d)
    case DoRefresh(_, _, d) => NewSessionID(w, d)
    case DoEnter(session, _) => Presentable(cfg, w, session)
    case DoImpersonate(session, _, _) => Presentable(cfg, w, session)
    case DoAccept(_, _, _, _, userID, d) => NewUserID(w, userID) && NewSessionID(w, d)
    case DoProvision(_, _, _, _, userID, _) => NewUserID(w, userID)
    case DoEdit(store') => EditOk(w.store, store')
    case Tick(later) => w.now <= later
    case _ => true
  }

  /** The chain a session created by this step belongs to. */
  function RootOf(cfg: Config, w: World, s: Step, id: string): string
    requires Indexed(w.store)
  {
    if s.DoRefresh? && Presented(cfg, w.store, s.t, s.token, w.now).Ok?
    then
      var prior := Presented(cfg, w.store, s.t, s.token, w.now).value.id;
      if prior in w.root then w.root[prior] else id
    else id
  }

  /** The world once the step has had this outcome. */
  function Following(cfg: Config, w: World, s: Step, o: Outcome): World
    requires Indexed(w.store)
  {
    World(
      o.store,
      if o.token.Some? then w.minted + {Held(o.token.value, HumanOf(s, o.token.value))} else w.minted,
      map id | id in o.store.sessions :: if id in w.root then w.root[id] else RootOf(cfg, w, s, id),
      if s.Tick? then s.later else w.now)
  }

  function Next(cfg: Config, w: World, s: Step): Option<World>
  {
    if !Indexed(w.store) || !Enabled(cfg, w, s) then None else Some(Following(cfg, w, s, Apply(cfg, w, s)))
  }

  function Run(cfg: Config, w: World, steps: seq<Step>): Option<World>
    decreases |steps|
  {
    if steps == [] then Some(w)
    else
      match Next(cfg, w, steps[0])
      case None => None
      case Some(w') => Run(cfg, w', steps[1..])
  }

  function Start(now: Time): World
  {
    World(EmptyStore(), {}, map[], now)
  }

  // ----- what holds of the store -----

  /** Users are under their own ids, and a session is in the tenant its user is stored in. */
  predicate StoreOk(s: Store)
  {
    && Indexed(s)
    && (forall id :: id in s.users ==> s.users[id].id == id && id != "")
    && (forall id :: id in s.sessions ==> SessionOk(s, id, s.sessions[id]))
  }

  predicate SessionOk(s: Store, id: string, x: Session)
  {
    x.id == id && Stored(s, x.userID, x.tenantID) && x.authTime > 0 && x.acr != ""
  }

  /** Whose a token is: an ordinary one is for the tenant its subject is stored
      in; an entered one names that tenant as home and another as the one acted
      in; an impersonated one acts on a user stored where it acts, for an actor
      stored in the home it names. */
  predicate Confined(s: Store, c: T.AccessClaims)
  {
    if c.Ordinary() then Stored(s, c.subject, c.tenantID)
    else if c.Entered() then Stored(s, c.subject, c.homeTenantID) && c.tenantID != c.homeTenantID && c.tenantID != ""
    else Stored(s, c.actorID, c.homeTenantID) && Stored(s, c.subject, c.tenantID) && c.tenantID != c.homeTenantID && c.tenantID != ""
  }

  predicate TokenOk(cfg: Config, s: Store, c: T.AccessClaims)
  {
    cfg.jwt.Some? && T.WellFormed(cfg.jwt.value, c) && Confined(s, c)
  }

  /** Users may be added, and keep their tenants. */
  predicate UsersKept(s: Store, s': Store)
  {
    forall id :: id in s.users ==> Stored(s', id, s.users[id].tenantID)
  }

  /** Sessions are never lost or brought back; they may end. */
  predicate OnlyEnds(s: Store, s': Store, now: Time)
  {
    forall id :: id in s.sessions ==> id in s'.sessions && (s'.sessions[id] == s.sessions[id] || s'.sessions[id] == Ended(s.sessions[id], now))
  }

  /** At most one session is new. */
  predicate OneNew(s: Store, s': Store, id: string)
  {
    forall k :: k in s'.sessions && k !in s.sessions ==> k == id && !s'.sessions[k].Revoked()
  }

  /** An operation's effect, as far as the invariant is concerned. */
  predicate Effect(cfg: Config, s: Store, o: Outcome, id: string, now: Time)
  {
    && StoreOk(o.store) && UsersKept(s, o.store) && OnlyEnds(s, o.store, now) && OneNew(s, o.store, id)
    && (o.token.Some? ==> TokenOk(cfg, o.store, o.token.value))
  }

  lemma FromStoredString(t: Tenant.ID)
    requires t.Valid()
    ensures Tenant.FromStored(t.String()) == t
  {
  }

  lemma NewSessionKeeps(s: Store, x: Session)
    requires StoreOk(s) && x.id !in s.sessions && SessionOk(CreateSession(s, x), x.id, x)
    ensures StoreOk(CreateSession(s, x))
  {
    forall id | id in s.sessions ensures SessionOk(CreateSession(s, x), id, s.sessions[id]) {
      assert SessionOk(s, id, s.sessions[id]);
    }
  }

  lemma IssuedTokenOk(cfg: Config, s: Store, userID: string, t: Tenant.ID, authTime: int, acr: string, amr: seq<string>, d: Draw, now: Time)
    requires Stored(s, userID, t.String()) && IssueTokens(cfg, s, userID, t, authTime, acr, amr, d, now).1.Ok?
    ensures TokenOk(cfg, s, IssueTokens(cfg, s, userID, t, authTime, acr, amr, d, now).1.value.access)
  {
  }

  /** Nothing, or a session for the user and tenant it is asked for. */
  lemma IssueTokensLeaves(cfg: Config, s: Store, userID: string, t: Tenant.ID, authTime: int, acr: string, amr: seq<string>, d: Draw, now: Time)
    ensures var (s', r) := IssueTokens(cfg, s, userID, t, authTime, acr, amr, d, now);
            || s' == s
            || (cfg.jwt.Some? && t.Valid() && authTime > 0 && acr != "" && d.token.Some? && cfg.hashToken(d.token.value).Some?
                && s' == CreateSession(s, NewSession(cfg, userID, t, authTime, acr, d.sessionID, cfg.hashToken(d.token.value).value, now)))
  {
  }

  lemma IssueTokensEffect(cfg: Config, s: Store, userID: string, t: Tenant.ID, authTime: int, acr: string, amr: seq<string>, d: Draw, now: Time)
    requires StoreOk(s) && Stored(s, userID, t.String()) && d.sessionID !in s.sessions
    ensures var (s', r) := IssueTokens(cfg, s, userID, t, authTime, acr, amr, d, now);
            Effect(cfg, s, Outcome(s', Token(r, (x: Grant) => x.access)), d.sessionID, now)
            && s'.users == s.users && (r.Ok? ==> TokenOk(cfg, s', r.value.access))
  {
    var (s', r) := IssueTokens(cfg, s, userID, t, authTime, acr, amr, d, now);
    IssueTokensLeaves(cfg, s, userID, t, authTime, acr, amr, d, now);
    if r.Ok? { IssuedTokenOk(cfg, s, userID, t, authTime, acr, amr, d, now); }
    if s' != s {
      var x := NewSession(cfg, userID, t, authTime, acr, d.sessionID, cfg.hashToken(d.token.value).value, now);
      assert SessionOk(s', x.id, x);
      NewSessionKeeps(s, x);
    }
  }

  /** First something that leaves sessions alone, then an effect. */
  lemma EffectAfter(cfg: Config, s: Store, s1: Store, o: Outcome, id: string, now: Time)
    requires UsersKept(s, s1) && s1.sessions == s.sessions && Effect(cfg, s1, o, id, now)
    ensures Effect(cfg, s, o, id, now)
  {
  }

  lemma CreateUserKeeps(s: Store, u: User)
    requires StoreOk(s) && u.id != "" && u.id !in s.users && CreateUser(s, u).Ok?
    ensures var s1 := CreateUser(s, u).value;
            StoreOk(s1) && UsersKept(s, s1) && Stored(s1, u.id, u.tenantID) && s1.sessions == s.sessions
  {
    var s1 := CreateUser(s, u).value;
    forall id | id in s1.sessions ensures SessionOk(s1, id, s1.sessions[id]) {
      assert SessionOk(s, id, s.sessions[id]);
    }
  }

  lemma NoEffect(cfg: Config, s: Store, id: string, now: Time)
    requires StoreOk(s)
    ensures Effect(cfg, s, Outcome(s, None), id, now)
  {
  }

  /** Create, then mint for the user just created. */
  lemma CreateAndMintEffect(cfg: Config, s: Store, u: User, t: Tenant.ID, authTime: int, d: Draw, now: Time)
    requires StoreOk(s) && u.id != "" && u.id !in s.users && d.sessionID !in s.sessions
    requires t.Valid() && u.tenantID == t.String() && CreateUser(s, u).Ok?
    ensures var (s2, g) := IssueTokens(cfg, CreateUser(s, u).value, u.id, t, authTime, cfg.defaultACR, [], d, now);
            Effect(cfg, s, Outcome(s2, Token(g, (x: Grant) => x.access)), d.sessionID, now)
  {
    var s1 := CreateUser(s, u).value;
    CreateUserKeeps(s, u);
    IssueTokensEffect(cfg, s1, u.id, t, authTime, cfg.defaultACR, [], d, now);
    var (s2, g) := IssueTokens(cfg, s1, u.id, t, authTime, cfg.defaultACR, [], d, now);
    EffectAfter(cfg, s, s1, Outcome(s2, Token(g, (x: Grant) => x.access)), d.sessionID, now);
  }

  lemma RegisterEffect(cfg: Config, s: Store, t: Tenant.ID, email: string, password: string, hash: PasswordHash, userID: string, d: Draw, now: Time)
    requires StoreOk(s) && userID != "" && userID !in s.users && d.sessionID !in s.sessions
    ensures var (s', r) := Register(cfg, s, t, email, password, hash, userID, d, now);
            Effect(cfg, s, Outcome(s', Token(r, (x: Registered) => x.grant.access)), d.sessionID, now)
  {
    NoEffect(cfg, s, d.sessionID, now);
    if NormaliseEmail(email).Ok? && PasswordAllowed(password) && t.Valid() {
      var u := User(userID, t.String(), NormaliseEmail(email).value, hash, true, false, now);
      if CreateUser(s, u).Ok? {
        FromStoredString(t);
        CreateAndMintEffect(cfg, s, u, t, Unix(now), d, now);
        var (s2, g) := IssueTokens(cfg, CreateUser(s, u).value, userID, t, Unix(now), cfg.defaultACR, [], d, now);
        var (s', r) := Register(cfg, s, t, email, password, hash, userID, d, now);
        assert s' == s2 && Token(r, (x: Registered) => x.grant.access) == Token(g, (x: Grant) => x.access);
      }
    }
  }

  lemma LoginEffect(cfg: Config, s: Store, t: Tenant.ID, email: string, password: string, allowed: bool, owed: bool, d: Draw, now: Time)
    requires StoreOk(s) && d.sessionID !in s.sessions
    ensures var (s', r) := Login(cfg, s, t, email, password, allowed, owed, d, now);
            Effect(cfg, s, Outcome(s', Token(r, (x: LoggedIn) => x.grant.access)), d.sessionID, now)
  {
    NoEffect(cfg, s, d.sessionID, now);
    if NormaliseEmail(email).Ok? && UserByEmail(s, t, NormaliseEmail(email).value).Ok? {
      var u := UserByEmail(s, t, NormaliseEmail(email).value).value;
      assert Stored(s, u.id, u.tenantID);
      IssueTokensEffect(cfg, s, u.id, Tenant.FromStored(u.tenantID), Unix(now), cfg.defaultACR, ["pwd"], d, now);
    }
  }

  lemma IssueForEffect(cfg: Config, s: Store, userID: string, t: Tenant.ID, authTime: int, acr: string, amr: seq<string>, d: Draw, now: Time)
    requires StoreOk(s) && d.sessionID !in s.sessions
    ensures var (s', r) := IssueTokensForUser(cfg, s, userID, t, authTime, acr, amr, d, now);
            Effect(cfg, s, Outcome(s', Token(r, (x: Grant) => x.access)), d.sessionID, now)
  {
    if UserInTenant(s, userID, t).Ok? {
      IssueTokensEffect(cfg, s, userID, t, authTime, acr, amr, d, now);
    }
  }

  lemma RevokeKeeps(s: Store, id: string, now: Time)
    requires StoreOk(s) && id in s.sessions
    ensures StoreOk(RevokeSession(s, id, now)) && OnlyEnds(s, RevokeSession(s, id, now), now)
    ensures RevokeSession(s, id, now).users == s.users && RevokeSession(s, id, now).sessions.Keys == s.sessions.Keys
  {
  }

  /** End the presented session, then mint for its user. */
  lemma RotateEffect(cfg: Config, s: Store, x: Session, d: Draw, now: Time)
    requires StoreOk(s) && x.id in s.sessions && s.sessions[x.id] == x && d.sessionID !in s.sessions
    ensures var s1 := RevokeSession(s, x.id, now);
            var (s2, g) := IssueTokens(cfg, s1, x.userID, Tenant.FromStored(x.tenantID), x.authTime, x.acr, [], d, now);
            Effect(cfg, s, Outcome(s1, None), d.sessionID, now)
            && Effect(cfg, s, Outcome(s2, Token(g, (y: Grant) => y.access)), d.sessionID, now)
  {
    assert SessionOk(s, x.id, x);
    RevokeKeeps(s, x.id, now);
    var s1 := RevokeSession(s, x.id, now);
    var home := Tenant.FromStored(x.tenantID);
    IssueTokensEffect(cfg, s1, x.userID, home, x.authTime, x.acr, [], d, now);
    var (s2, g) := IssueTokens(cfg, s1, x.userID, home, x.authTime, x.acr, [], d, now);
    EndsCompose(s, s1, s2, now);
  }

  lemma RefreshEffect(cfg: Config, s: Store, t: Tenant.ID, token: string, d: Draw, now: Time)
    requires StoreOk(s) && d.sessionID !in s.sessions
    ensures var (s', r) := Refresh(cfg, s, t, token, d, now);
            Effect(cfg, s, Outcome(s', Token(r, (x: LoggedIn) => x.grant.access)), d.sessionID, now)
  {
    NoEffect(cfg, s, d.sessionID, now);
    if Presented(cfg, s, t, token, now).Ok? {
      var x := Presented(cfg, s, t, token, now).value;
      PresentedIsStored(cfg, s, t, token, now);
      RotateEffect(cfg, s, x, d, now);
      var (s2, g) := IssueTokens(cfg, RevokeSession(s, x.id, now), x.userID, Tenant.FromStored(x.tenantID), x.authTime, x.acr, [], d, now);
      var (s', r) := Refresh(cfg, s, t, token, d, now);
      assert Outcome(s', Token(r, (x: LoggedIn) => x.grant.access)) == Outcome(RevokeSession(s, x.id, now), None)
          || Outcome(s', Token(r, (x: LoggedIn) => x.grant.access)) == Outcome(s2, Token(g, (y: Grant) => y.access));
    }
  }

  lemma PresentedIsStored(cfg: Config, s: Store, t: Tenant.ID, token: string, now: Time)
    requires StoreOk(s) && Presented(cfg, s, t, token, now).Ok?
    ensures var x := Presented(cfg, s, t, token, now).value;
            x.id in s.sessions && s.sessions[x.id] == x && !x.Revoked() && SessionOk(s, x.id, x)
  {
  }

  lemma EndsCompose(s: Store, s1: Store, s2: Store, now: Time)
    requires OnlyEnds(s, s1, now) && OnlyEnds(s1, s2, now)
    ensures OnlyEnds(s, s2, now)
  {
  }

  lemma BulkRevokeEffect(cfg: Config, s: Store, s': Store, id: string, now: Time)
    requires StoreOk(s) && s'.users == s.users && s'.sessions.Keys == s.sessions.Keys && OnlyEnds(s, s', now) && Indexed(s')
    ensures Effect(cfg, s, Outcome(s', None), id, now)
  {
  }

  lemma EnterEffect(cfg: Config, s: Store, session: Option<T.AccessClaims>, target: Tenant.ID, now: Time)
    requires EnterTenant(cfg, s, session, target, now).Ok?
    ensures TokenOk(cfg, s, EnterTenant(cfg, s, session, target, now).value)
    ensures EnterTenant(cfg, s, session, target, now).value.Entered()
  {
  }

  /** The presented token is confined, so the home it names is where the actor is stored. */
  lemma ImpersonateEffect(cfg: Config, s: Store, session: Option<T.AccessClaims>, target: string, may: Result<bool, Error>, now: Time)
    requires session.Some? ==> TokenOk(cfg, s, session.value)
    requires Impersonate(cfg, s, session, target, may, now).Ok?
    ensures TokenOk(cfg, s, Impersonate(cfg, s, session, target, may, now).value)
    ensures Impersonate(cfg, s, session, target, may, now).value.Impersonated()
  {
  }

  lemma InviteLeaves(cfg: Config, s: Store, t: Tenant.ID, email: string, invitedBy: string, ttl: int, d: Draw, now: Time)
    requires Indexed(s)
    ensures var s' := Invite(cfg, s, t, email, invitedBy, ttl, d, now).0;
            s' == s.(invitations := s'.invitations, invHashes := s'.invHashes) && Indexed(s')
  {
  }

  lemma InviteEffect(cfg: Config, s: Store, t: Tenant.ID, email: string, invitedBy: string, ttl: int, d: Draw, now: Time, id: string)
    requires StoreOk(s)
    ensures Effect(cfg, s, Outcome(Invite(cfg, s, t, email, invitedBy, ttl, d, now).0, None), id, now)
  {
    InviteLeaves(cfg, s, t, email, invitedBy, ttl, d, now);
    BulkRevokeEffect(cfg, s, Invite(cfg, s, t, email, invitedBy, ttl, d, now).0, id, now);
  }

  /** Redeeming is consuming the invitation and then registering, or nothing. */
  lemma AcceptIs(cfg: Config, s: Store, t: Tenant.ID, token: string, password: string, hash: PasswordHash, userID: string, d: Draw, now: Time)
    returns (inv: Option<Invitation>)
    requires Indexed(s)
    ensures inv.None? ==> AcceptInvitation(cfg, s, t, token, password, hash, userID, d, now).0 == s
                          && AcceptInvitation(cfg, s, t, token, password, hash, userID, d, now).1.Err?
    ensures inv.Some? ==> MarkAccepted(s, inv.value.id, now).Ok?
    ensures inv.Some? ==>
      AcceptInvitation(cfg, s, t, token, password, hash, userID, d, now)
         == Register(cfg, MarkAccepted(s, inv.value.id, now).value, Tenant.FromStored(inv.value.tenantID), inv.value.email, password, hash, userID, d, now)
  {
    inv := None;
    if t.Valid() && PasswordAllowed(password) && cfg.hashToken(token).Some? {
      var r := InvitationByHash(s, cfg.hashToken(token).value);
      if r.Ok? && r.value.tenantID == t.String() && r.value.Usable(now) && MarkAccepted(s, r.value.id, now).Ok? {
        inv := Some(r.value);
      }
    }
  }

  lemma AcceptEffect(cfg: Config, s: Store, t: Tenant.ID, token: string, password: string, hash: PasswordHash, userID: string, d: Draw, now: Time)
    requires StoreOk(s) && userID != "" && userID !in s.users && d.sessionID !in s.sessions
    ensures var (s', r) := AcceptInvitation(cfg, s, t, token, password, hash, userID, d, now);
            Effect(cfg, s, Outcome(s', Token(r, (x: Registered) => x.grant.access)), d.sessionID, now)
  {
    var inv := AcceptIs(cfg, s, t, token, password, hash, userID, d, now);
    NoEffect(cfg, s, d.sessionID, now);
    if inv.Some? {
      var s1 := MarkAccepted(s, inv.value.id, now).value;
      var home := Tenant.FromStored(inv.value.tenantID);
      BulkRevokeEffect(cfg, s, s1, d.sessionID, now);
      RegisterEffect(cfg, s1, home, inv.value.email, password, hash, userID, d, now);
      var (s', r) := Register(cfg, s1, home, inv.value.email, password, hash, userID, d, now);
      EffectAfter(cfg, s, s1, Outcome(s', Token(r, (x: Registered) => x.grant.access)), d.sessionID, now);
    }
  }

  lemma ProvisionEffect(cfg: Config, s: Store, t: Tenant.ID, email: string, provider: string, subject: string, userID: string, identityID: string, now: Time, id: string)
    requires StoreOk(s) && userID != "" && userID !in s.users
    ensures Effect(cfg, s, Outcome(Provision(s, t, email, provider, subject, userID, identityID, now).0, None), id, now)
  {
    var (s', r) := Provision(s, t, email, provider, subject, userID, identityID, now);
    if r.Ok? {
      var u := User(userID, t.String(), email, "", true, false, now);
      CreateUserKeeps(s, u);
      var s1 := CreateUser(s, u).value;
      BulkRevokeEffect(cfg, s1, s', id, now);
      EffectAfter(cfg, s, s1, Outcome(s', None), id, now);
    } else {
      BulkRevokeEffect(cfg, s, s', id, now);
    }
  }

  lemma EditEffect(cfg: Config, s: Store, s': Store, id: string, now: Time)
    requires StoreOk(s) && EditOk(s, s')
    ensures Effect(cfg, s, Outcome(s', None), id, now)
  {
  }

  // ----- the invariant -----

  /** A successor is for the same user in the same tenant, who authenticated when and how the first one did. */
  predicate SameOrigin(a: Session, b: Session)
  {
    a.userID == b.userID && a.tenantID == b.tenantID && a.authTime == b.authTime && a.acr == b.acr
  }

  /** Sessions of one chain agree on their origin and at most one of them is live. */
  predicate ChainsOk(w: World)
  {
    && w.root.Keys == w.store.sessions.Keys
    && (forall id :: id in w.root ==> w.root[id] in w.store.sessions)
    && (forall a, b :: a in w.root && b in w.root && w.root[a] == w.root[b] ==> ChainPair(w.store, a, b))
  }

  predicate ChainPair(s: Store, a: string, b: string)
    requires a in s.sessions && b in s.sessions
  {
    && SameOrigin(s.sessions[a], s.sessions[b])
    && (a != b ==> s.sessions[a].Revoked() || s.sessions[b].Revoked())
  }

  predicate Invariant(cfg: Config, w: World)
  {
    && StoreOk(w.store) && w.now > ZERO_TIME && ChainsOk(w)
    && forall x :: x in w.minted ==> TokenOk(cfg, w.store, x.claims)
  }

  /** The id a step would give a new session. */
  function SessionIDOf(s: Step): string
  {
    match s
    case DoRegister(_, _, _, _, _, d) => d.sessionID
    case DoLogin(_, _, _, _, _, d) => d.sessionID
    case DoIssue(_, _, _, _, _, d) => d.sessionID
    case DoRefresh(_, _, d) => d.sessionID
    case DoAccept(_, _, _, _, _, d) => d.sessionID
    case _ => ""
  }

  lemma RevokeUserEffect(cfg: Config, w: World, t: Tenant.ID, userID: string, id: string)
    requires StoreOk(w.store)
    ensures Effect(cfg, w.store, Outcome(RevokeAllSessions(w.store, t, userID, w.now).0, None), id, w.now)
  {
    NoEffect(cfg, w.store, id, w.now);
    if RevokeAllSessions(w.store, t, userID, w.now).1.Ok? {
      BulkRevokeEffect(cfg, w.store, RevokeForUser(w.store, userID, w.now), id, w.now);
    }
  }

  lemma RevokeTenantEffect(cfg: Config, w: World, t: Tenant.ID, id: string)
    requires StoreOk(w.store)
    ensures Effect(cfg, w.store, Outcome(RevokeAllSessionsForTenant(w.store, t, w.now).0, None), id, w.now)
  {
  }

  lemma LogoutIs(cfg: Config, s: Store, t: Tenant.ID, token: string, now: Time)
    requires StoreOk(s)
    ensures var s' := Logout(cfg, s, t, token, now).0;
            s' == s || exists id :: id in s.sessions && s' == RevokeSession(s, id, now)
  {
  }

  lemma LogoutEffect(cfg: Config, w: World, t: Tenant.ID, token: string, id: string)
    requires StoreOk(w.store)
    ensures Effect(cfg, w.store, Outcome(Logout(cfg, w.store, t, token, w.now).0, None), id, w.now)
  {
    LogoutIs(cfg, w.store, t, token, w.now);
    NoEffect(cfg, w.store, id, w.now);
    var s' := Logout(cfg, w.store, t, token, w.now).0;
    if s' != w.store {
      var k :| k in w.store.sessions && s' == RevokeSession(w.store, k, w.now);
      RevokeKeeps(w.store, k, w.now);
    }
  }

  /** Every step has an effect the invariant can live with. */
  lemma StepEffect(cfg: Config, w: World, s: Step)
    requires Invariant(cfg, w) && Enabled(cfg, w, s)
    ensures Effect(cfg, w.store, Apply(cfg, w, s), SessionIDOf(s), w.now)
  {
    match s
    case DoRegister(t, email, password, hash, userID, d) => RegisterEffect(cfg, w.store, t, email, password, hash, userID, d, w.now);
    case DoLogin(t, email, password, allowed, owed, d) => LoginEffect(cfg, w.store, t, email, password, allowed, owed, d, w.now);
    case DoIssue(userID, t, authTime, acr, amr, d) => IssueForEffect(cfg, w.store, userID, t, authTime, acr, amr, d, w.now);
    case DoRefresh(t, token, d) => RefreshEffect(cfg, w.store, t, token, d, w.now);
    case DoLogout(t, token) => LogoutEffect(cfg, w, t, token, "");
    case DoRevokeUser(t, userID) => RevokeUserEffect(cfg, w, t, userID, "");
    case DoRevokeTenant(t) => RevokeTenantEffect(cfg, w, t, "");
    case DoEnter(session, target) =>
      if EnterTenant(cfg, w.store, ClaimsOf(session), target, w.now).Ok? { EnterEffect(cfg, w.store, ClaimsOf(session), target, w.now); }
    case DoImpersonate(session, target, may) =>
      if Impersonate(cfg, w.store, ClaimsOf(session), target, may, w.now).Ok? { ImpersonateEffect(cfg, w.store, ClaimsOf(session), target, may, w.now); }
    case DoInvite(t, email, invitedBy, ttl, d) => InviteEffect(cfg, w.store, t, email, invitedBy, ttl, d, w.now, "");
    case DoAccept(t, token, password, hash, userID, d) => AcceptEffect(cfg, w.store, t, token, password, hash, userID, d, w.now);
    case DoProvision(t, email, provider, subject, userID, identityID) =>
      ProvisionEffect(cfg, w.store, t, email, provider, subject, userID, identityID, w.now, "");
    case DoEdit(store') => EditEffect(cfg, w.store, store', "", w.now);
    case Tick(_) =>
  }

  lemma MintedKeeps(cfg: Config, s: Store, s': Store, c: T.AccessClaims)
    requires TokenOk(cfg, s, c) && UsersKept(s, s')
    ensures TokenOk(cfg, s', c)
  {
  }

  /** Refresh ends the presented session before its successor exists, and the successor is of the same origin. */
  lemma SuccessorOf(cfg: Config, s: Store, t: Tenant.ID, token: string, d: Draw, now: Time)
    requires StoreOk(s) && d.sessionID !in s.sessions && now > ZERO_TIME
    requires d.sessionID in Refresh(cfg, s, t, token, d, now).0.sessions
    ensures Presented(cfg, s, t, token, now).Ok?
    ensures var x := Presented(cfg, s, t, token, now).value;
            var s' := Refresh(cfg, s, t, token, d, now).0;
            x.id in s.sessions && s.sessions[x.id] == x && !x.Revoked()
            && x.id in s'.sessions && s'.sessions[x.id].Revoked() && SameOrigin(s'.sessions[d.sessionID], x)
  {
    if Presented(cfg, s, t, token, now).Ok? {
      PresentedIsStored(cfg, s, t, token, now);
      RotateLeaves(cfg, s, Presented(cfg, s, t, token, now).value, d, now);
    }
  }

  /** Another step's new session starts a chain of its own. */
  lemma OtherRoot(cfg: Config, w: World, s: Step, id: string)
    requires Indexed(w.store) && !s.DoRefresh?
    ensures RootOf(cfg, w, s, id) == id
  {
  }

  /** The bookkeeping of Next, separated from what the step was. */
  predicate RootsNext(cfg: Config, w: World, w': World, s: Step)
    requires Indexed(w.store)
  {
    && w'.root.Keys == w'.store.sessions.Keys
    && forall id :: id in w'.root ==> w'.root[id] == if id in w.root then w.root[id] else RootOf(cfg, w, s, id)
  }

  /** The step as the chains see it. */
  predicate ChainStep(cfg: Config, w: World, s: Step, w': World)
    requires Indexed(w.store)
  {
    && RootsNext(cfg, w, w', s)
    && OnlyEnds(w.store, w'.store, w.now) && OneNew(w.store, w'.store, SessionIDOf(s))
    && (s.DoRefresh? ==> s.d.sessionID !in w.store.sessions && w'.store == Refresh(cfg, w.store, s.t, s.token, s.d, w.now).0)
  }

  lemma RootsKeep(cfg: Config, w: World, s: Step, w': World, k: string)
    requires Invariant(cfg, w) && ChainStep(cfg, w, s, w') && k in w'.root
    ensures w'.root[k] in w'.store.sessions
  {
    if k in w.root {
      assert w.root[k] in w.store.sessions;
    } else if s.DoRefresh? {
      SuccessorOf(cfg, w.store, s.t, s.token, s.d, w.now);
    } else {
      OtherRoot(cfg, w, s, k);
    }
  }

  lemma RootStays(cfg: Config, w: World, s: Step, w': World, id: string)
    requires Indexed(w.store) && RootsNext(cfg, w, w', s) && id in w.root && id in w'.root
    ensures w'.root[id] == w.root[id]
  {
  }

  lemma SharedRoot(w: World, a: string, b: string)
    requires ChainsOk(w) && a in w.root && b in w.root && w.root[a] == w.root[b]
    ensures ChainPair(w.store, a, b)
  {
  }

  lemma PairKeeps(cfg: Config, w: World, s: Step, w': World, a: string, b: string)
    requires Invariant(cfg, w) && ChainStep(cfg, w, s, w') && a in w'.root && b in w'.root && w'.root[a] == w'.root[b]
    ensures ChainPair(w'.store, a, b)
  {
    if a in w.root && b in w.root {
      RootStays(cfg, w, s, w', a);
      RootStays(cfg, w, s, w', b);
      SharedRoot(w, a, b);
      EndedPair(w.store, w'.store, a, b, w.now);
    } else if a in w.root {
      NewInChain(cfg, w, s, w', a, b);
    } else if b in w.root {
      NewInChain(cfg, w, s, w', b, a);
    } else {
      OnlyOneNew(cfg, w, s, w', a, b);
    }
  }

  lemma OnlyOneNew(cfg: Config, w: World, s: Step, w': World, a: string, b: string)
    requires ChainsOk(w) && Indexed(w.store) && ChainStep(cfg, w, s, w') && a in w'.root && b in w'.root && a !in w.root && b !in w.root
    ensures a == b
  {
  }

  lemma ChainsKeep(cfg: Config, w: World, s: Step, w': World)
    requires Invariant(cfg, w) && ChainStep(cfg, w, s, w')
    ensures ChainsOk(w')
  {
    forall k | k in w'.root ensures w'.root[k] in w'.store.sessions {
      RootsKeep(cfg, w, s, w', k);
    }
    forall a, b | a in w'.root && b in w'.root && w'.root[a] == w'.root[b] ensures ChainPair(w'.store, a, b) {
      PairKeeps(cfg, w, s, w', a, b);
    }
  }

  lemma EndedPair(s: Store, s': Store, a: string, b: string, now: Time)
    requires a in s.sessions && b in s.sessions && ChainPair(s, a, b) && OnlyEnds(s, s', now)
    ensures ChainPair(s', a, b)
  {
  }

  /** A new session that shares a chain with an older one is a successor; the one
      it succeeds has ended, and no other was live. */
  lemma NewInChain(cfg: Config, w: World, s: Step, w': World, kept: string, new': string)
    requires Invariant(cfg, w) && ChainStep(cfg, w, s, w')
    requires kept in w.root && kept in w'.root && new' in w'.root && new' !in w.root && w'.root[kept] == w'.root[new']
    ensures ChainPair(w'.store, kept, new') && ChainPair(w'.store, new', kept)
  {
    if !s.DoRefresh? {
      OtherRoot(cfg, w, s, new');
      assert false;
    } else {
      SuccessorOf(cfg, w.store, s.t, s.token, s.d, w.now);
      var x := Presented(cfg, w.store, s.t, s.token, w.now).value;
      assert w'.root[new'] == w.root[x.id];
      assert ChainPair(w.store, kept, x.id);
      SuccessorPair(w.store, w'.store, kept, x, new', w.now);
    }
  }

  lemma SuccessorPair(s: Store, s': Store, kept: string, x: Session, new': string, now: Time)
    requires kept in s.sessions && x.id in s.sessions && s.sessions[x.id] == x && !x.Revoked() && ChainPair(s, kept, x.id)
    requires OnlyEnds(s, s', now) && s'.sessions[x.id].Revoked() && new' in s'.sessions && SameOrigin(s'.sessions[new'], x)
    ensures ChainPair(s', kept, new') && ChainPair(s', new', kept)
  {
  }

  lemma FollowingRoots(cfg: Config, w: World, s: Step, o: Outcome)
    requires Indexed(w.store)
    ensures RootsNext(cfg, w, Following(cfg, w, s, o), s)
  {
  }

  lemma RefreshApplied(cfg: Config, w: World, s: Step)
    requires Indexed(w.store) && s.DoRefresh? && Enabled(cfg, w, s)
    ensures s.d.sessionID !in w.store.sessions && Apply(cfg, w, s).store == Refresh(cfg, w.store, s.t, s.token, s.d, w.now).0
  {
  }

  lemma NextIsChainStep(cfg: Config, w: World, s: Step)
    requires Invariant(cfg, w) && Next(cfg, w, s).Some?
    requires Effect(cfg, w.store, Apply(cfg, w, s), SessionIDOf(s), w.now)
    ensures ChainStep(cfg, w, s, Next(cfg, w, s).value)
  {
    FollowingRoots(cfg, w, s, Apply(cfg, w, s));
    if s.DoRefresh? {
      RefreshApplied(cfg, w, s);
    }
  }

  lemma MintedStep(cfg: Config, w: World, s: Step)
    requires Invariant(cfg, w) && Next(cfg, w, s).Some?
    requires Effect(cfg, w.store, Apply(cfg, w, s), SessionIDOf(s), w.now)
    ensures forall x :: x in Next(cfg, w, s).value.minted ==> TokenOk(cfg, Next(cfg, w, s).value.store, x.claims)
  {
    var o := Apply(cfg, w, s);
    forall x | x in Next(cfg, w, s).value.minted ensures TokenOk(cfg, o.store, x.claims) {
      if x in w.minted { MintedKeeps(cfg, w.store, o.store, x.claims); }
    }
  }

  lemma StepKeeps(cfg: Config, w: World, s: Step)
    requires Invariant(cfg, w) && Next(cfg, w, s).Some?
    ensures Invariant(cfg, Next(cfg, w, s).value)
  {
    StepEffect(cfg, w, s);
    NextIsChainStep(cfg, w, s);
    ChainsKeep(cfg, w, s, Next(cfg, w, s).value);
    MintedStep(cfg, w, s);
  }

  lemma {:induction false} RunKeeps(cfg: Config, w: World, steps: seq<Step>)
    requires Invariant(cfg, w) && Run(cfg, w, steps).Some?
    ensures Invariant(cfg, Run(cfg, w, steps).value)
    decreases |steps|
  {
    if steps != [] {
      StepKeeps(cfg, w, steps[0]);
      RunKeeps(cfg, Next(cfg, w, steps[0]).value, steps[1..]);
    }
  }

  lemma StartIsOk(cfg: Config, now: Time)
    requires now > ZERO_TIME
    ensures Invariant(cfg, Start(now))
  {
  }

  // ----- what runs promise -----

  /** The users a token accepted for tenant t names are stored where it says: an
      ordinary one is for a user stored in t; an entered one for a user stored in
      the other tenant it names as home; an impersonated one for an actor stored
      in the home it names and a user stored in t. On a route that invites neither
      guests nor impersonators, the subject is t's own. */
  predicate StoredAsNamed(s: Store, c: T.AccessClaims, t: Tenant.ID)
  {
    && (c.Ordinary() ==> UserInTenant(s, c.subject, t).Ok?)
    && (c.Entered() ==> UserInTenant(s, c.subject, Tenant.FromStored(c.homeTenantID)).Ok? && Tenant.FromStored(c.homeTenantID) != t)
    && (c.Impersonated() ==> UserInTenant(s, c.actorID, Tenant.FromStored(c.homeTenantID)).Ok?
                             && UserInTenant(s, c.subject, t).Ok? && Tenant.FromStored(c.homeTenantID) != t)
    && (T.FitsTenant(c, t.String(), false, false) ==> UserInTenant(s, c.subject, t).Ok?)
  }

  /** After any run, every token that verifies for a tenant names users stored where it says. */
  lemma TokensStayConfined(cfg: Config, now: Time, steps: seq<Step>, w: World, x: Held, t: Tenant.ID, at: Time)
    requires now > ZERO_TIME && Run(cfg, Start(now), steps) == Some(w)
    requires x in w.minted && cfg.jwt.Some? && T.VerifyAccess(cfg.jwt.value, x.claims, t, at).Ok?
    ensures StoredAsNamed(w.store, x.claims, t)
  {
    StartIsOk(cfg, now);
    RunKeeps(cfg, Start(now), steps);
    assert TokenOk(cfg, w.store, x.claims);
    FromStoredString(t);
    assert x.claims.tenantID == t.String();
  }

  /** Every token ever handed out parses until it expires. */
  lemma EveryTokenParses(cfg: Config, now: Time, steps: seq<Step>, w: World, x: Held, at: Time)
    requires now > ZERO_TIME && Run(cfg, Start(now), steps) == Some(w) && x in w.minted
    ensures cfg.jwt.Some? && (T.ParseAccess(cfg.jwt.value, x.claims, at).Ok? <==> at < x.claims.expiresAt)
  {
    StartIsOk(cfg, now);
    RunKeeps(cfg, Start(now), steps);
    assert TokenOk(cfg, w.store, x.claims);
  }

  /** Both are for the same user in the same tenant, authenticated when and how the first was; only one can be live. */
  predicate OneChain(s: Store, a: string, b: string)
  {
    && a in s.sessions && b in s.sessions && SameOrigin(s.sessions[a], s.sessions[b])
    && (!s.sessions[a].Revoked() && !s.sessions[b].Revoked() ==> a == b)
  }

  /** Sessions of one refresh chain carry the user, tenant, time and strength of the
      first authentication unchanged, and never more than one of them is live. */
  lemma ChainsStaySingle(cfg: Config, now: Time, steps: seq<Step>, w: World, a: string, b: string)
    requires now > ZERO_TIME && Run(cfg, Start(now), steps) == Some(w)
    requires a in w.root && b in w.root && w.root[a] == w.root[b]
    ensures OneChain(w.store, a, b)
  {
    StartIsOk(cfg, now);
    RunKeeps(cfg, Start(now), steps);
    assert ChainPair(w.store, a, b);
  }

  /** A successful Refresh ends the session it was given and starts one live
      successor, of the same origin; the new access token says the same. */
  lemma RefreshSucceeds(cfg: Config, s: Store, t: Tenant.ID, token: string, d: Draw, now: Time)
    requires StoreOk(s) && d.sessionID !in s.sessions && now > ZERO_TIME
    requires Refresh(cfg, s, t, token, d, now).1.Ok?
    ensures Presented(cfg, s, t, token, now).Ok?
    ensures var x := Presented(cfg, s, t, token, now).value;
            var (s', r) := Refresh(cfg, s, t, token, d, now);
            && x.id in s'.sessions && s'.sessions[x.id].Revoked()
            && d.sessionID in s'.sessions && !s'.sessions[d.sessionID].Revoked() && SameOrigin(s'.sessions[d.sessionID], x)
            && Tenant.FromStored(x.tenantID) == t
            && r.value.grant.access.subject == x.userID && r.value.grant.access.tenantID == x.tenantID
            && r.value.grant.access.authTime == x.authTime && r.value.grant.access.acr == x.acr
  {
    PresentedIsStored(cfg, s, t, token, now);
  }

  /** In a run, that successor joins the chain of the session it succeeds. */
  lemma RefreshExtendsChain(cfg: Config, w: World, t: Tenant.ID, token: string, d: Draw, w': World)
    requires Invariant(cfg, w) && ChainStep(cfg, w, DoRefresh(t, token, d), w') && d.sessionID in w'.store.sessions
    ensures Presented(cfg, w.store, t, token, w.now).Ok?
    ensures var x := Presented(cfg, w.store, t, token, w.now).value;
            x.id in w.root && w'.root[d.sessionID] == w.root[x.id]
  {
    SuccessorOf(cfg, w.store, t, token, d, w.now);
  }

  /** A session as it may be found later: the same row, or the same row ended. */
  predicate Continues(x: Session, later: Session)
  {
    later == x || (!x.Revoked() && later.Revoked() && later == x.(revokedAt := later.revokedAt))
  }

  lemma EffectContinues(cfg: Config, s: Store, o: Outcome, new': string, now: Time, id: string)
    requires Effect(cfg, s, o, new', now) && id in s.sessions && now > ZERO_TIME
    ensures id in o.store.sessions && Continues(s.sessions[id], o.store.sessions[id])
  {
  }

  lemma NextStore(cfg: Config, w: World, s: Step)
    requires Indexed(w.store) && Next(cfg, w, s).Some?
    ensures Next(cfg, w, s).value.store == Apply(cfg, w, s).store
  {
  }

  lemma SessionStep(cfg: Config, w: World, s: Step, id: string)
    requires Invariant(cfg, w) && Next(cfg, w, s).Some? && id in w.store.sessions
    ensures id in Apply(cfg, w, s).store.sessions && Continues(w.store.sessions[id], Apply(cfg, w, s).store.sessions[id])
  {
    StepEffect(cfg, w, s);
    EffectContinues(cfg, w.store, Apply(cfg, w, s), SessionIDOf(s), w.now, id);
  }

  /** Revoked stays revoked; no session is lost, rewritten or brought back. */
  lemma {:induction false} SessionsOnlyEnd(cfg: Config, w: World, steps: seq<Step>, w': World, id: string)
    requires Invariant(cfg, w) && Run(cfg, w, steps) == Some(w') && id in w.store.sessions
    ensures id in w'.store.sessions && Continues(w.store.sessions[id], w'.store.sessions[id])
    decreases |steps|
  {
    if steps != [] {
      SessionStep(cfg, w, steps[0], id);
      NextStore(cfg, w, steps[0]);
      StepKeeps(cfg, w, steps[0]);
      SessionsOnlyEnd(cfg, Next(cfg, w, steps[0]).value, steps[1..], w', id);
    }
  }

  /** A session presented on another tenant's route is refused, and nothing is written. */
  lemma WrongTenantRefreshChangesNothing(cfg: Config, s: Store, t: Tenant.ID, token: string, d: Draw, now: Time)
    requires Indexed(s) && cfg.hashToken(token).Some? && SessionByHash(s, cfg.hashToken(token).value).Ok?
    requires Tenant.FromStored(SessionByHash(s, cfg.hashToken(token).value).value.tenantID) != t
    ensures Refresh(cfg, s, t, token, d, now) == (s, Err(InvalidSession))
    ensures Logout(cfg, s, t, token, now) == (s, if cfg.refreshTTL <= 0 || token == "" then Ok(()) else Err(InvalidSession))
  {
  }

  /** A row this package would not have written is refused and ended, before
      anything is said about whether its user is active. */
  lemma ForeignRowIsEnded(cfg: Config, s: Store, t: Tenant.ID, token: string, d: Draw, now: Time)
    requires Indexed(s) && now > ZERO_TIME && Presented(cfg, s, t, token, now).Ok?
    requires var x := Presented(cfg, s, t, token, now).value;
             && x.id in s.sessions && s.sessions[x.id] == x && x.userID in s.users
             && (Tenant.FromStored(s.users[x.userID].tenantID) != t || x.authTime <= 0 || x.acr == "")
    ensures var x := Presented(cfg, s, t, token, now).value;
            Refresh(cfg, s, t, token, d, now) == (s.(sessions := s.sessions[x.id := x.(revokedAt := now)]), Err(InvalidSession))
  {
  }

  /** Locking a tenant out ends exactly the live sessions of the users stored in it. */
  lemma TenantRevokeIsExact(s: Store, t: Tenant.ID, now: Time, id: string)
    requires StoreOk(s) && now > ZERO_TIME && t.Valid() && id in s.sessions
    ensures var s' := RevokeAllSessionsForTenant(s, t, now).0;
            && s'.sessions.Keys == s.sessions.Keys && s' == s.(sessions := s'.sessions)
            && (UserInTenant(s, s.sessions[id].userID, t).Ok? ==> s'.sessions[id] == Ended(s.sessions[id], now) && s'.sessions[id].Revoked())
            && (UserInTenant(s, s.sessions[id].userID, t).Err? ==> s'.sessions[id] == s.sessions[id])
  {
  }

  /** And one user's "sign out everywhere" ends exactly that user's, if the user is the tenant's own. */
  lemma UserRevokeIsExact(s: Store, t: Tenant.ID, userID: string, now: Time, id: string)
    requires StoreOk(s) && now > ZERO_TIME && id in s.sessions
    ensures var (s', r) := RevokeAllSessions(s, t, userID, now);
            && s'.sessions.Keys == s.sessions.Keys && (r.Ok? <==> UserInTenant(s, userID, t).Ok?)
            && (r.Ok? && s.sessions[id].userID == userID ==> s'.sessions[id] == Ended(s.sessions[id], now) && s'.sessions[id].Revoked())
            && (r.Err? || s.sessions[id].userID != userID ==> s'.sessions[id] == s.sessions[id])
  {
  }
}
