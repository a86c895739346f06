/** What each operation of the identity core decides and writes, on any store and in
    the terms of its records: when it succeeds, what it says otherwise, and the rows
    it leaves. identity/core.go, invitation.go, linking.go. */
module IdentityVerdicts {
  import opened Common
  import opened Identity
  import opened IdentityOps
  import T = Tokens
  import Tenant

  /** What a mint needs beside a tenant: a service, a subject who authenticated some time and
      somehow, and where sessions are kept a refresh token that could be drawn and hashed. */
  predicate MintWorks(cfg: Config, userID: string, authTime: int, acr: string, amr: seq<string>, d: Draw)
  {
    && cfg.jwt.Some? && userID != "" && authTime > 0 && acr != "" && "" !in amr
    && (cfg.refreshTTL <= 0 || (d.token.Some? && cfg.hashToken(d.token.value).Some?))
  }

  /** An ordinary token for this user and tenant, lasting the service's lifetime to the second. */
  predicate SaysSo(cfg: Config, c: T.AccessClaims, userID: string, tenantID: string, authTime: int, acr: string, amr: seq<string>, now: Time)
  {
    && cfg.jwt.Some?
    && c.subject == userID && c.tenantID == tenantID && c.homeTenantID == "" && c.actorID == ""
    && c.authTime == authTime && c.acr == acr && c.amr == amr && c.issuer == cfg.jwt.value.issuer && c.purpose == "access"
    && c.expiresAt <= now + cfg.jwt.value.ttl < c.expiresAt + 1_000_000_000 && c.expiresAt % 1_000_000_000 == 0
  }

  /** The store with one more session, under its id and the hash of the refresh token, or as it was where none are kept. */
  predicate SessionAdded(cfg: Config, s: Store, s': Store, userID: string, tenantID: string, authTime: int, acr: string, d: Draw, now: Time, g: Grant)
  {
    if cfg.refreshTTL <= 0 then s' == s && g.refresh == "" && g.refreshExpiresAt == ZERO_TIME
    else
      && d.token == Some(g.refresh) && cfg.hashToken(g.refresh).Some? && g.refreshExpiresAt == now + cfg.refreshTTL
      && var hash := cfg.hashToken(g.refresh).value;
      s' == s.(sessions := s.sessions[d.sessionID := Session(d.sessionID, userID, tenantID, hash, now, now + cfg.refreshTTL, authTime, acr, ZERO_TIME)],
               hashes := s.hashes[hash := d.sessionID])
  }

  lemma IssueTokensOutcome(cfg: Config, s: Store, userID: string, t: Tenant.ID, authTime: int, acr: string, amr: seq<string>, d: Draw, now: Time)
    ensures var (s', r) := IssueTokens(cfg, s, userID, t, authTime, acr, amr, d, now);
            && (r.Ok? <==> t.Valid() && MintWorks(cfg, userID, authTime, acr, amr, d))
            && (r.Ok? ==> SaysSo(cfg, r.value.access, userID, t.String(), authTime, acr, amr, now)
                          && SessionAdded(cfg, s, s', userID, t.String(), authTime, acr, d, now, r.value))
            && (r.Err? ==> s' == s)
            && (r == Err(NoTokenService) <==> cfg.jwt.None?)
            && (r == Err(TenantRequired) <==> cfg.jwt.Some? && !t.Valid())
            && (r == Err(AuthContextRequired) <==> cfg.jwt.Some? && t.Valid() && (authTime <= 0 || acr == ""))
            && (r.Err? ==> r.error in {NoTokenService, TenantRequired, AuthContextRequired, SigningFailed, RandomFailed})
  {
  }

  // ----- logging in -----

  /** The user stored under this tenant and address. */
  predicate StoredUnder(s: Store, t: Tenant.ID, email: string, u: User)
  {
    (t.String(), email) in s.emails && s.emails[(t.String(), email)] in s.users && s.users[s.emails[(t.String(), email)]] == u
  }

  /** The password is this user's, who may log in with one. */
  predicate PasswordGood(cfg: Config, u: User, password: string)
  {
    u.active && u.passwordHash != "" && cfg.verifyPassword(u.passwordHash, password)
  }

  lemma LoginOutcome(cfg: Config, s: Store, t: Tenant.ID, email: string, password: string, allowed: bool, owed: bool, d: Draw, now: Time)
    requires Indexed(s)
    ensures var (s', r) := Login(cfg, s, t, email, password, allowed, owed, d, now);
            var e := NormaliseEmail(email);
            var asked := e.Ok? && allowed && t.Valid();
            && (r.Ok? <==> asked && exists u ::
                  && StoredUnder(s, t, e.value, u) && PasswordGood(cfg, u, password) && !u.totpEnrolled && !owed
                  && MintWorks(cfg, u.id, now / 1_000_000_000, cfg.defaultACR, ["pwd"], d))
            && (r == Err(TOTPRequired) <==> asked && exists u ::
                  StoredUnder(s, t, e.value, u) && PasswordGood(cfg, u, password) && (u.totpEnrolled || owed))
            && (r == Err(InvalidCredentials) <==> e.Err? || (asked && forall u :: StoredUnder(s, t, e.value, u) ==> !PasswordGood(cfg, u, password)))
            && (r == Err(Throttled) <==> e.Ok? && !allowed)
            && (r == Err(TenantRequired) <==> e.Ok? && allowed && !t.Valid())
            && (r.Err? ==> s' == s)
            && (r.Ok? ==> LoggedInAs(cfg, s, s', t, e.value, d, now, r.value))
  {
    if NormaliseEmail(email).Ok? && UserByEmail(s, t, NormaliseEmail(email).value).Ok? {
      var u := UserByEmail(s, t, NormaliseEmail(email).value).value;
      assert StoredUnder(s, t, NormaliseEmail(email).value, u);
      IssueTokensOutcome(cfg, s, u.id, Tenant.FromStored(u.tenantID), Unix(now), cfg.defaultACR, ["pwd"], d, now);
    }
  }

  predicate LoggedInAs(cfg: Config, s: Store, s': Store, t: Tenant.ID, email: string, d: Draw, now: Time, l: LoggedIn)
  {
    && StoredUnder(s, t, email, l.user)
    && SaysSo(cfg, l.grant.access, l.user.id, l.user.tenantID, now / 1_000_000_000, cfg.defaultACR, ["pwd"], now)
    && SessionAdded(cfg, s, s', l.user.id, l.user.tenantID, now / 1_000_000_000, cfg.defaultACR, d, now, l.grant)
  }

  /** The mint for a user who authenticated elsewhere: the row is read, and read as this tenant's. */
  lemma IssueForUserOutcome(cfg: Config, s: Store, userID: string, t: Tenant.ID, authTime: int, acr: string, amr: seq<string>, d: Draw, now: Time)
    ensures var (s', r) := IssueTokensForUser(cfg, s, userID, t, authTime, acr, amr, d, now);
            var own := t.Valid() && userID in s.users && s.users[userID].tenantID == t.String();
            && (r.Ok? <==> own && s.users[userID].active && MintWorks(cfg, userID, authTime, acr, amr, d))
            && (r == Err(UserInactive) <==> cfg.jwt.Some? && authTime > 0 && acr != "" && own && !s.users[userID].active)
            && (r == Err(NotFound) <==> cfg.jwt.Some? && t.Valid() && authTime > 0 && acr != "" && !own)
            && (r.Err? ==> s' == s)
            && (r.Ok? ==> SaysSo(cfg, r.value.access, userID, t.String(), authTime, acr, amr, now)
                          && SessionAdded(cfg, s, s', userID, t.String(), authTime, acr, d, now, r.value))
  {
    IssueTokensOutcome(cfg, s, userID, t, authTime, acr, amr, d, now);
  }

  // ----- registering -----

  lemma RegisterOutcome(cfg: Config, s: Store, t: Tenant.ID, email: string, password: string, hash: PasswordHash, userID: string, d: Draw, now: Time)
    ensures var (s', r) := Register(cfg, s, t, email, password, hash, userID, d, now);
            var e := NormaliseEmail(email);
            var long := 8 <= |password| <= 72;
            && (r == Err(InvalidEmail) <==> e.Err?)
            && (r == Err(PasswordPolicy) <==> e.Ok? && !long)
            && (r == Err(EmailTaken) <==> e.Ok? && long && t.Valid() && (t.String(), e.value) in s.emails)
            && (r.Ok? <==> e.Ok? && long && t.Valid() && (t.String(), e.value) !in s.emails
                           && MintWorks(cfg, userID, now / 1_000_000_000, cfg.defaultACR, [], d))
            && (e.Ok? && long && t.Valid() && (t.String(), e.value) !in s.emails ==>
                  var u := User(userID, t.String(), e.value, hash, true, false, now);
                  var s1 := s.(users := s.users[userID := u], emails := s.emails[(t.String(), e.value) := userID]);
                  && (r.Err? ==> s' == s1)
                  && (r.Ok? ==> r.value.user == u && (r.value.first <==> forall id :: id in s.users ==> s.users[id].tenantID != t.String())
                                && SaysSo(cfg, r.value.grant.access, userID, t.String(), now / 1_000_000_000, cfg.defaultACR, [], now)
                                && SessionAdded(cfg, s1, s', userID, t.String(), now / 1_000_000_000, cfg.defaultACR, d, now, r.value.grant)))
            && (!(e.Ok? && long && t.Valid() && (t.String(), e.value) !in s.emails) ==> s' == s)
  {
    var e := NormaliseEmail(email);
    if e.Ok? && PasswordAllowed(password) && t.Valid() && (t.String(), e.value) !in s.emails {
      var u := User(userID, t.String(), e.value, hash, true, false, now);
      assert Tenant.FromStored(t.String()) == t;
      IssueTokensOutcome(cfg, CreateUser(s, u).value, userID, t, Unix(now), cfg.defaultACR, [], d, now);
      assert UsersOf(s, t) == {} <==> forall id :: id in s.users ==> id !in UsersOf(s, t);
    }
  }

  // ----- refreshing and logging out -----

  /** The session this hash leads to. */
  predicate SessionUnder(s: Store, hash: Option<string>, x: Session)
  {
    hash.Some? && hash.value in s.hashes && s.hashes[hash.value] in s.sessions && s.sessions[s.hashes[hash.value]] == x
  }

  /** Of this tenant, not ended, not expired. */
  predicate Usable(x: Session, t: Tenant.ID, now: Time)
  {
    t.Valid() && x.tenantID == t.String() && x.revokedAt == ZERO_TIME && now < x.expiresAt
  }

  lemma RefreshOutcome(cfg: Config, s: Store, t: Tenant.ID, token: string, d: Draw, now: Time)
    requires Indexed(s)
    ensures var (s', r) := Refresh(cfg, s, t, token, d, now);
            && (r.Ok? <==> cfg.refreshTTL > 0 && exists x ::
                  && SessionUnder(s, cfg.hashToken(token), x) && Usable(x, t, now) && x.authTime > 0 && x.acr != ""
                  && x.userID in s.users && s.users[x.userID].tenantID == x.tenantID && s.users[x.userID].active
                  && MintWorks(cfg, x.userID, x.authTime, x.acr, [], d))
            && (r == Err(UserInactive) <==> cfg.refreshTTL > 0 && exists x ::
                  && SessionUnder(s, cfg.hashToken(token), x) && Usable(x, t, now) && x.authTime > 0 && x.acr != ""
                  && x.userID in s.users && s.users[x.userID].tenantID == x.tenantID && !s.users[x.userID].active)
            && ((cfg.refreshTTL <= 0 || forall x :: SessionUnder(s, cfg.hashToken(token), x) ==> !Usable(x, t, now)) ==>
                  s' == s && r == Err(InvalidSession))
  {
    if cfg.refreshTTL > 0 && cfg.hashToken(token).Some? && cfg.hashToken(token).value in s.hashes {
      var x := s.sessions[s.hashes[cfg.hashToken(token).value]];
      assert SessionUnder(s, cfg.hashToken(token), x);
      assert Tenant.FromStored(x.tenantID) == t <==> t.Valid() && x.tenantID == t.String();
      assert Presented(cfg, s, t, token, now) == if Usable(x, t, now) then Ok(x) else Err(InvalidSession);
      IssueTokensOutcome(cfg, RevokeSession(s, x.id, now), x.userID, Tenant.FromStored(x.tenantID), x.authTime, x.acr, [], d, now);
    }
  }

  /** What a rotation writes: the old session ended now, the new one begun now. */
  lemma RefreshWrites(cfg: Config, s: Store, t: Tenant.ID, token: string, d: Draw, now: Time, x: Session)
    requires Indexed(s) && SessionUnder(s, cfg.hashToken(token), x) && x.id == s.hashes[cfg.hashToken(token).value]
    requires Refresh(cfg, s, t, token, d, now).1.Ok?
    ensures var (s', r) := Refresh(cfg, s, t, token, d, now);
            && r.value.user.id == s.users[x.userID].id && x.userID in s.users
            && SaysSo(cfg, r.value.grant.access, x.userID, x.tenantID, x.authTime, x.acr, [], now)
            && SessionAdded(cfg, s.(sessions := s.sessions[x.id := x.(revokedAt := now)]), s', x.userID, x.tenantID, x.authTime, x.acr, d, now, r.value.grant)
  {
    RefreshOutcome(cfg, s, t, token, d, now);
    assert RevokeSession(s, x.id, now) == s.(sessions := s.sessions[x.id := x.(revokedAt := now)]);
    IssueTokensOutcome(cfg, RevokeSession(s, x.id, now), x.userID, Tenant.FromStored(x.tenantID), x.authTime, x.acr, [], d, now);
  }

  /** Logging out ends this tenant's live session and nothing else; only another tenant's session is an error. */
  lemma LogoutOutcome(cfg: Config, s: Store, t: Tenant.ID, token: string, now: Time)
    requires Indexed(s) && forall id :: id in s.sessions ==> s.sessions[id].id == id
    ensures var (s', r) := Logout(cfg, s, t, token, now);
            var on := cfg.refreshTTL > 0 && token != "";
            && (r.Ok? <==> !on || forall x :: SessionUnder(s, cfg.hashToken(token), x) ==> t.Valid() && x.tenantID == t.String())
            && (r.Err? ==> r == Err(InvalidSession) && s' == s)
            && (forall x :: on && r.Ok? && SessionUnder(s, cfg.hashToken(token), x) && x.revokedAt == ZERO_TIME ==>
                  s' == s.(sessions := s.sessions[x.id := x.(revokedAt := now)]))
            && (!on || (forall x :: SessionUnder(s, cfg.hashToken(token), x) ==> x.revokedAt != ZERO_TIME) ==> s' == s)
  {
    if cfg.hashToken(token).Some? && cfg.hashToken(token).value in s.hashes {
      var x := s.sessions[s.hashes[cfg.hashToken(token).value]];
      assert SessionUnder(s, cfg.hashToken(token), x);
      assert Tenant.FromStored(x.tenantID) == t <==> t.Valid() && x.tenantID == t.String();
    }
  }

  /** Of all sessions exactly the live ones that are meant end now, and nothing else changes. */
  ghost predicate EndsExactly(s: Store, s': Store, meant: Session -> bool, now: Time)
  {
    && s' == s.(sessions := s'.sessions) && s'.sessions.Keys == s.sessions.Keys
    && forall id :: id in s.sessions ==>
         s'.sessions[id] == if meant(s.sessions[id]) && s.sessions[id].revokedAt == ZERO_TIME then s.sessions[id].(revokedAt := now)
                            else s.sessions[id]
  }

  /** Signing a user out everywhere is for the tenant the user is stored in. */
  lemma RevokeUserOutcome(s: Store, t: Tenant.ID, userID: string, now: Time)
    ensures var (s', r) := RevokeAllSessions(s, t, userID, now);
            && (r.Ok? <==> userID != "" && t.Valid() && userID in s.users && s.users[userID].tenantID == t.String())
            && (r.Ok? ==> EndsExactly(s, s', (x: Session) => x.userID == userID, now))
            && (r.Err? ==> s' == s && r == Err(if userID == "" then UserIDRequired else NotFound))
  {
  }

  lemma RevokeTenantOutcome(s: Store, t: Tenant.ID, now: Time)
    ensures var (s', r) := RevokeAllSessionsForTenant(s, t, now);
            && (r.Ok? <==> t.Valid())
            && (r.Ok? ==> EndsExactly(s, s', (x: Session) => x.tenantID == t.String(), now))
            && (r.Err? ==> s' == s && r == Err(TenantRequired))
  {
  }

  // ----- inviting and accepting -----

  lemma InviteOutcome(cfg: Config, s: Store, t: Tenant.ID, email: string, invitedBy: string, ttl: int, d: Draw, now: Time)
    ensures var (s', r) := Invite(cfg, s, t, email, invitedBy, ttl, d, now);
            var e := NormaliseEmail(email);
            var hash := if d.token.Some? then cfg.hashToken(d.token.value) else None;
            && (r.Ok? <==> t.Valid() && e.Ok? && hash.Some? && hash.value !in s.invHashes)
            && (r == Err(TenantRequired) <==> !t.Valid()) && (r == Err(InvalidEmail) <==> t.Valid() && e.Err?)
            && (r.Err? ==> s' == s)
            && (r.Ok? ==>
                  && r.value == Invitation(d.sessionID, t.String(), e.value, hash.value, now + (if ttl > 0 then ttl else 604800_000_000_000),
                                           ZERO_TIME, invitedBy, now)
                  && s' == s.(invitations := s.invitations[d.sessionID := r.value], invHashes := s.invHashes[hash.value := d.sessionID]))
  {
  }

  /** The invitation this hash leads to. */
  predicate InvitedUnder(s: Store, hash: Option<string>, inv: Invitation)
  {
    hash.Some? && hash.value in s.invHashes && s.invHashes[hash.value] in s.invitations && s.invitations[s.invHashes[hash.value]] == inv
  }

  /** Pending, unexpired and of this tenant. */
  predicate Redeemable(inv: Invitation, t: Tenant.ID, now: Time)
  {
    inv.tenantID == t.String() && inv.acceptedAt == ZERO_TIME && now < inv.expiresAt
  }

  lemma AcceptProceeds(cfg: Config, s: Store, t: Tenant.ID, token: string, password: string, hash: PasswordHash, userID: string, d: Draw, now: Time, inv: Invitation)
    requires t.Valid() && 8 <= |password| <= 72 && InvitedUnder(s, cfg.hashToken(token), inv) && Redeemable(inv, t, now)
    requires inv.id in s.invitations && s.invitations[inv.id] == inv
    ensures AcceptInvitation(cfg, s, t, token, password, hash, userID, d, now)
         == Register(cfg, s.(invitations := s.invitations[inv.id := inv.(acceptedAt := now)]), t, inv.email, password, hash, userID, d, now)
  {
    assert Tenant.FromStored(inv.tenantID) == t;
  }

  lemma AcceptRefuses(cfg: Config, s: Store, t: Tenant.ID, token: string, password: string, hash: PasswordHash, userID: string, d: Draw, now: Time)
    requires t.Valid() && 8 <= |password| <= 72
    requires forall inv :: InvitedUnder(s, cfg.hashToken(token), inv) ==> !Redeemable(inv, t, now)
    ensures AcceptInvitation(cfg, s, t, token, password, hash, userID, d, now) == (s, Err(InvitationInvalid))
  {
    var h := cfg.hashToken(token);
    if h.Some? && h.value in s.invHashes && s.invHashes[h.value] in s.invitations {
      assert InvitedUnder(s, h, s.invitations[s.invHashes[h.value]]);
    }
  }

  /** What the token leads to decides: refused with one error and nothing written, or consumed, and then registered with what it names. */
  lemma AcceptOutcome(cfg: Config, s: Store, t: Tenant.ID, token: string, password: string, hash: PasswordHash, userID: string, d: Draw, now: Time)
    requires forall k :: k in s.invitations ==> s.invitations[k].id == k
    ensures var (s', r) := AcceptInvitation(cfg, s, t, token, password, hash, userID, d, now);
            var long := 8 <= |password| <= 72;
            && (!t.Valid() ==> r == Err(TenantRequired) && s' == s)
            && (t.Valid() && !long ==> r == Err(PasswordPolicy) && s' == s)
            && (r == Err(InvitationInvalid) <==> t.Valid() && long && forall inv ::
                  InvitedUnder(s, cfg.hashToken(token), inv) ==> !Redeemable(inv, t, now))
            && (r == Err(InvitationInvalid) ==> s' == s)
            && (forall inv :: t.Valid() && long && InvitedUnder(s, cfg.hashToken(token), inv) && Redeemable(inv, t, now) ==>
                  (s', r) == Register(cfg, s.(invitations := s.invitations[inv.id := inv.(acceptedAt := now)]), t, inv.email, password, hash, userID, d, now))
  {
    if t.Valid() && 8 <= |password| <= 72 {
      forall inv | InvitedUnder(s, cfg.hashToken(token), inv) && Redeemable(inv, t, now)
        ensures var s1 := s.(invitations := s.invitations[inv.id := inv.(acceptedAt := now)]);
                && AcceptInvitation(cfg, s, t, token, password, hash, userID, d, now) == Register(cfg, s1, t, inv.email, password, hash, userID, d, now)
                && Register(cfg, s1, t, inv.email, password, hash, userID, d, now).1 != Err(InvitationInvalid)
      {
        AcceptProceeds(cfg, s, t, token, password, hash, userID, d, now, inv);
        NeverInvalid(cfg, s.(invitations := s.invitations[inv.id := inv.(acceptedAt := now)]), t, inv.email, password, hash, userID, d, now);
      }
      if forall inv :: InvitedUnder(s, cfg.hashToken(token), inv) ==> !Redeemable(inv, t, now) {
        AcceptRefuses(cfg, s, t, token, password, hash, userID, d, now);
      }
    }
  }

  lemma NeverInvalid(cfg: Config, s: Store, t: Tenant.ID, email: string, password: string, hash: PasswordHash, userID: string, d: Draw, now: Time)
    ensures Register(cfg, s, t, email, password, hash, userID, d, now).1 != Err(InvitationInvalid)
  {
    var e := NormaliseEmail(email);
    if e.Ok? && t.Valid() {
      var u := User(userID, t.String(), e.value, hash, true, false, now);
      if CreateUser(s, u).Ok? {
        IssueTokensOutcome(cfg, CreateUser(s, u).value, userID, Tenant.FromStored(u.tenantID), Unix(now), cfg.defaultACR, [], d, now);
      }
    }
  }

  // ----- identities -----

  lemma ProvisionOutcome(s: Store, t: Tenant.ID, email: string, provider: string, subject: string, userID: string, identityID: string, now: Time)
    ensures var (s', r) := Provision(s, t, email, provider, subject, userID, identityID, now);
            var linked := exists id :: id in s.identities && s.identities[id].tenantID == t.String()
                                     && s.identities[id].provider == provider && s.identities[id].subject == subject;
            && (r.Ok? <==> t.Valid() && (t.String(), email) !in s.emails && !linked)
            && (r == Err(EmailTaken) <==> t.Valid() && (t.String(), email) in s.emails)
            && (r == Err(IdentityTaken) <==> t.Valid() && (t.String(), email) !in s.emails && linked)
            && (r.Err? ==> s' == s)
            && (r.Ok? ==>
                  && r.value == User(userID, t.String(), email, "", true, false, now)
                  && s' == s.(users := s.users[userID := r.value], emails := s.emails[(t.String(), email) := userID],
                              identities := s.identities[identityID := LinkedIdentity(identityID, userID, t.String(), provider, subject, now, Some(now))]))
  {
    assert CredentialTaken(s, t.String(), provider, subject)
      <==> exists id :: id in s.identities && s.identities[id].tenantID == t.String()
                        && s.identities[id].provider == provider && s.identities[id].subject == subject;
  }

  /** Whose identity it is, whose user that is, and what would be left. */
  lemma UnlinkOutcome(s: Store, t: Tenant.ID, userID: string, identityID: string)
    ensures var (s', r) := Unlink(s, t, userID, identityID);
            var own := && identityID in s.identities && s.identities[identityID].userID == userID
                       && t.Valid() && userID in s.users && s.users[userID].tenantID == t.String();
            var another := exists id :: id in s.identities && id != identityID && s.identities[id].userID == userID;
            && (r == Err(NotFound) <==> !own)
            && (r == Err(LastAuthMethod) <==> own && s.users[userID].passwordHash == "" && !another)
            && (r.Ok? <==> own && (s.users[userID].passwordHash != "" || another))
            && s' == if r.Ok? then s.(identities := s.identities - {identityID}) else s
  {
    if identityID in IdentitiesOf(s, userID) { AnotherIdentity(s, userID, identityID); }
    assert t.Valid() && userID in s.users ==> (Tenant.FromStored(s.users[userID].tenantID) == t <==> s.users[userID].tenantID == t.String());
  }

  lemma AnotherIdentity(s: Store, userID: string, identityID: string)
    requires identityID in IdentitiesOf(s, userID)
    ensures |IdentitiesOf(s, userID)| > 1
       <==> exists id :: id in s.identities && id != identityID && s.identities[id].userID == userID
  {
    var mine := IdentitiesOf(s, userID);
    if |mine| > 1 {
      assert mine == (mine - {identityID}) + {identityID};
      var other :| other in mine - {identityID};
      assert other in s.identities && other != identityID && s.identities[other].userID == userID;
    }
    forall id | id in s.identities && id != identityID && s.identities[id].userID == userID ensures |mine| > 1 {
      TwoAreMore(mine, id, identityID);
    }
  }

  lemma TwoAreMore(ids: set<string>, a: string, b: string)
    requires a in ids && b in ids && a != b
    ensures |ids| > 1
  {
    assert ids == {a, b} + (ids - {a, b}) && |{a, b}| == 2;
  }

  // ----- memberships -----

  lemma MembershipsAreSingle(s: Store, userID: string, t: Tenant.ID, u: string, v: Tenant.ID)
    ensures IsMember(AddMember(s, userID, t), u, v) <==> (u == userID && v == t) || IsMember(s, u, v)
    ensures IsMember(RemoveMember(s, userID, t), u, v) <==> !(u == userID && v == t) && IsMember(s, u, v)
  {
  }

  // ----- entering and impersonating, from any session -----

  /** The session says who is asking, and when and how that user authenticated. */
  predicate SaysWho(session: Option<T.AccessClaims>)
  {
    session.Some? && session.value.subject != "" && session.value.authTime > 0 && session.value.acr != ""
  }

  /** An own or an impersonated session of a user at home, who is a member of this other tenant. */
  predicate MayEnter(s: Store, c: T.AccessClaims, target: Tenant.ID)
  {
    && (c.homeTenantID == "" || c.actorID != "")
    && c.subject in s.users && s.users[c.subject].tenantID == c.tenantID && c.tenantID != ""
    && target.Named? && target.name != c.tenantID
    && c.subject in s.memberships && target in s.memberships[c.subject]
  }

  /** Every "no" is one error, and that a user is inactive is said only where everything else is right. */
  lemma EnterOutcome(cfg: Config, s: Store, session: Option<T.AccessClaims>, target: Tenant.ID, now: Time)
    ensures var r := EnterTenant(cfg, s, session, target, now);
            var wired := cfg.memberships && cfg.jwt.Some?;
            var asked := wired && target.Valid() && SaysWho(session);
            && (r == Err(NoMembershipStore) <==> !cfg.memberships)
            && (r == Err(NoTokenService) <==> cfg.memberships && cfg.jwt.None?)
            && (r == Err(TenantRequired) <==> wired && !target.Valid())
            && (r == Err(AuthContextRequired) <==> wired && target.Valid() && !SaysWho(session))
            && (r == Err(NotFound) <==> asked && !MayEnter(s, session.value, target))
            && (r == Err(UserInactive) <==> asked && MayEnter(s, session.value, target) && !s.users[session.value.subject].active)
            && (r.Ok? <==> asked && MayEnter(s, session.value, target) && s.users[session.value.subject].active)
            && (r.Ok? ==> EnteredFrom(cfg, session.value, target, r.value, now))
  {
    if cfg.jwt.Some? && session.Some? && session.value.subject in s.users {
      var c, home := session.value, Tenant.FromStored(s.users[session.value.subject].tenantID);
      T.EnteredClaims(cfg.jwt.value, c.subject, target, home, c.authTime, c.acr, cfg.enterTTL, [], now);
    }
  }

  predicate EnteredFrom(cfg: Config, c: T.AccessClaims, target: Tenant.ID, e: T.AccessClaims, now: Time)
  {
    && cfg.jwt.Some? && target.Named?
    && e.subject == c.subject && e.actorID == "" && e.tenantID == target.name && e.homeTenantID == c.tenantID
    && T.Says(e, cfg.jwt.value, c.authTime, c.acr, []) && T.Lasts(e, now, ShortLife(cfg.enterTTL, cfg.jwt.value.ttl))
  }

  /** A lifetime of its own, if there is one and it is shorter than the service's. */
  function ShortLife(ttl: int, serviceTTL: int): int
  {
    if 0 < ttl < serviceTTL then ttl else serviceTTL
  }

  /** From inside another tenant, not from an impersonated session, and a user stored there. */
  predicate MayBeTaken(s: Store, c: T.AccessClaims, target: string)
  {
    && c.actorID == "" && c.tenantID != "" && c.homeTenantID != "" && c.homeTenantID != c.tenantID
    && target in s.users && s.users[target].tenantID == c.tenantID
  }

  /** The policy is asked only about a user who may be taken, and its no is the same as any other. */
  lemma ImpersonateOutcome(cfg: Config, s: Store, session: Option<T.AccessClaims>, target: string, may: Result<bool, Error>, now: Time)
    ensures var r := Impersonate(cfg, s, session, target, may, now);
            var wired := cfg.impersonation && cfg.jwt.Some?;
            var asked := wired && SaysWho(session);
            && (!cfg.impersonation ==> r == Err(NoImpersonationPolicy))
            && (cfg.impersonation && cfg.jwt.None? ==> r == Err(NoTokenService))
            && (wired && !SaysWho(session) ==> r == Err(AuthContextRequired))
            && (asked && !MayBeTaken(s, session.value, target) ==> r == Err(NotFound))
            && (asked && MayBeTaken(s, session.value, target) ==>
                  match may
                  case Err(e) => r == Err(e)
                  case Ok(yes) =>
                    if !yes then r == Err(NotFound)
                    else if !s.users[target].active then r == Err(UserInactive)
                    else if target == "" || target == session.value.subject then r == Err(SigningFailed)
                    else r.Ok? && ImpersonatedFrom(cfg, session.value, target, r.value, now))
  {
    if cfg.jwt.Some? && session.Some? {
      var c := session.value;
      T.ImpersonatedClaims(cfg.jwt.value, target, c.subject, Tenant.New(c.tenantID), Tenant.New(c.ActorTenantID()),
                           c.authTime, c.acr, cfg.impersonationTTL, [], now);
    }
  }

  predicate ImpersonatedFrom(cfg: Config, c: T.AccessClaims, target: string, e: T.AccessClaims, now: Time)
  {
    && cfg.jwt.Some?
    && e.subject == target && e.actorID == c.subject && e.tenantID == c.tenantID && e.homeTenantID == c.homeTenantID
    && T.Says(e, cfg.jwt.value, c.authTime, c.acr, []) && T.Lasts(e, now, ShortLife(cfg.impersonationTTL, cfg.jwt.value.ttl))
  }
}
