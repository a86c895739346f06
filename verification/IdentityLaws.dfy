/** Laws that tie the operations of the identity core to one another: what one
    wrote, another one accepts, and only that. */
module IdentityLaws {
  import opened Common
  import opened Identity
  import opened IdentityOps
  import opened IdentityRuns
  import T = Tokens
  import Tenant

  /** A draw that can become a session. */
  predicate Drawn(cfg: Config, d: Draw)
  {
    cfg.refreshTTL <= 0 || (d.token.Some? && cfg.hashToken(d.token.value).Some?)
  }

  /** Minting writes sessions and nothing else. */
  lemma MintLeavesUsers(cfg: Config, s: Store, userID: string, t: Tenant.ID, authTime: int, acr: string, amr: seq<string>, d: Draw, now: Time)
    ensures var s' := IssueTokens(cfg, s, userID, t, authTime, acr, amr, d, now).0;
            s' == s.(sessions := s'.sessions, hashes := s'.hashes)
    ensures IssueTokens(cfg, s, userID, t, authTime, acr, amr, d, now).1.Ok? ==> cfg.jwt.Some? && acr != ""
  {
    IssueTokensLeaves(cfg, s, userID, t, authTime, acr, amr, d, now);
  }

  lemma RegisteredUser(cfg: Config, s: Store, t: Tenant.ID, email: string, password: string, hash: PasswordHash, userID: string, d: Draw, now: Time,
                       s': Store, r: Registered)
    requires Register(cfg, s, t, email, password, hash, userID, d, now) == (s', Ok(r))
    ensures t.Valid() && NormaliseEmail(email).Ok? && cfg.jwt.Some? && cfg.defaultACR != ""
    ensures (t.String(), NormaliseEmail(email).value) !in s.emails && (r.first <==> UsersOf(s, t) == {})
    ensures var u := User(userID, t.String(), NormaliseEmail(email).value, hash, true, false, now);
            && r.user == u && userID in s'.users && s'.users[userID] == u
            && (u.tenantID, u.email) in s'.emails && s'.emails[(u.tenantID, u.email)] == userID
  {
    var u := User(userID, t.String(), NormaliseEmail(email).value, hash, true, false, now);
    var s1 := CreateUser(s, u).value;
    MintLeavesUsers(cfg, s1, userID, Tenant.FromStored(u.tenantID), Unix(now), cfg.defaultACR, [], d, now);
  }

  /** Who registered can log in, under any spelling of the address and with no
      other password; nobody had the address in that tenant before. */
  lemma RegisterThenLogin(cfg: Config, s: Store, t: Tenant.ID, email: string, password: string, hash: PasswordHash, userID: string, d: Draw, now: Time,
                          s': Store, r: Registered, spelled: string, tried: string, d2: Draw, later: Time)
    requires StoreOk(s) && userID != "" && userID !in s.users && d.sessionID !in s.sessions
    requires Register(cfg, s, t, email, password, hash, userID, d, now) == (s', Ok(r))
    requires NormaliseEmail(spelled) == NormaliseEmail(email) && Unix(later) > 0 && Drawn(cfg, d2)
    ensures UserByEmail(s, t, NormaliseEmail(email).value) == Err(NotFound) && StoreOk(s')
    ensures cfg.verifyPassword(hash, tried) ==>
      var l := Login(cfg, s', t, spelled, tried, true, false, d2, later).1; l.Ok? && l.value.user == r.user
    ensures !cfg.verifyPassword(hash, tried) ==>
      Login(cfg, s', t, spelled, tried, true, false, d2, later) == (s', Err(InvalidCredentials))
  {
    RegisteredUser(cfg, s, t, email, password, hash, userID, d, now, s', r);
    RegisterEffect(cfg, s, t, email, password, hash, userID, d, now);
    LoginDecides(cfg, s', t, spelled, tried, d2, later);
  }

  /** Past the throttle and without a second factor, the password of the user with this address decides. */
  lemma LoginDecides(cfg: Config, s: Store, t: Tenant.ID, email: string, tried: string, d: Draw, now: Time)
    requires StoreOk(s) && t.Valid() && NormaliseEmail(email).Ok? && UserByEmail(s, t, NormaliseEmail(email).value).Ok?
    requires var u := UserByEmail(s, t, NormaliseEmail(email).value).value;
             u.passwordHash != "" && u.active && !u.totpEnrolled && u.tenantID == t.String()
    requires cfg.jwt.Some? && cfg.defaultACR != "" && Unix(now) > 0 && Drawn(cfg, d)
    ensures var u := UserByEmail(s, t, NormaliseEmail(email).value).value;
            var (s', l) := Login(cfg, s, t, email, tried, true, false, d, now);
            if cfg.verifyPassword(u.passwordHash, tried) then l.Ok? && l.value.user == u else s' == s && l == Err(InvalidCredentials)
  {
    var u := UserByEmail(s, t, NormaliseEmail(email).value).value;
    FromStoredString(t);
    MintSucceeds(cfg, s, u.id, t, Unix(now), cfg.defaultACR, ["pwd"], d, now);
  }

  lemma MintSucceeds(cfg: Config, s: Store, userID: string, t: Tenant.ID, authTime: int, acr: string, amr: seq<string>, d: Draw, now: Time)
    requires cfg.jwt.Some? && t.Valid() && userID != "" && authTime > 0 && acr != "" && "" !in amr && Drawn(cfg, d)
    ensures IssueTokens(cfg, s, userID, t, authTime, acr, amr, d, now).1.Ok?
  {
  }

  /** What is found under the token an Invite returned. */
  lemma InvitationStored(cfg: Config, s: Store, t: Tenant.ID, email: string, invitedBy: string, ttl: int, d: Draw, now: Time, s1: Store, inv: Invitation)
    requires Invite(cfg, s, t, email, invitedBy, ttl, d, now) == (s1, Ok(inv))
    ensures t.Valid() && d.token.Some? && cfg.hashToken(d.token.value).Some?
    ensures InvitationByHash(s1, cfg.hashToken(d.token.value).value) == Ok(inv) && inv.Pending()
    ensures inv.tenantID == t.String() && NormaliseEmail(email) == Ok(inv.email) && Some(inv.tokenHash) == cfg.hashToken(d.token.value)
  {
  }

  /** Under this hash the store still has the invitation; only whether it was accepted may have changed. */
  predicate StillHolds(s: Store, hash: string, inv: Invitation)
  {
    InvitationByHash(s, hash).Ok? && InvitationByHash(s, hash).value.(acceptedAt := inv.acceptedAt) == inv
  }

  /** Whatever happened in the meantime, the token of an invitation makes only the invited account, in
      the inviting tenant and on its route, whoever presents it... */
  lemma InvitedAccount(cfg: Config, s: Store, t: Tenant.ID, email: string, invitedBy: string, ttl: int, d: Draw, now: Time, inv: Invitation,
                       s1: Store, route: Tenant.ID, password: string, hash: PasswordHash, userID: string, d2: Draw, at: Time, s2: Store, r: Registered)
    requires Invite(cfg, s, t, email, invitedBy, ttl, d, now).1 == Ok(inv) && StillHolds(s1, inv.tokenHash, inv)
    requires AcceptInvitation(cfg, s1, route, d.token.value, password, hash, userID, d2, at) == (s2, Ok(r))
    ensures route == t && Ok(r.user.email) == NormaliseEmail(email) && r.user.tenantID == t.String() && at < inv.expiresAt
  {
    InvitationStored(cfg, s, t, email, invitedBy, ttl, d, now, Invite(cfg, s, t, email, invitedBy, ttl, d, now).0, inv);
    AcceptedAccount(cfg, s1, route, d.token.value, password, hash, userID, d2, at, s2, r);
    NormaliseIsIdempotent(email);
    FromStoredString(t);
  }

  /** An account that comes of a token is the one its invitation names. */
  lemma AcceptedAccount(cfg: Config, s: Store, t: Tenant.ID, token: string, password: string, hash: PasswordHash, userID: string, d: Draw, at: Time,
                        s2: Store, r: Registered)
    requires AcceptInvitation(cfg, s, t, token, password, hash, userID, d, at) == (s2, Ok(r))
    ensures t.Valid() && cfg.hashToken(token).Some? && InvitationByHash(s, cfg.hashToken(token).value).Ok?
    ensures var inv := InvitationByHash(s, cfg.hashToken(token).value).value;
            inv.tenantID == t.String() && at < inv.expiresAt && Ok(r.user.email) == NormaliseEmail(inv.email) && r.user.tenantID == inv.tenantID
  {
    var inv := InvitationByHash(s, cfg.hashToken(token).value).value;
    var s1 := MarkAccepted(s, inv.id, at).value;
    RegisteredUser(cfg, s1, Tenant.FromStored(inv.tenantID), inv.email, password, hash, userID, d, at, s2, r);
  }

  /** ... and on another tenant's route, or too late, it does nothing. */
  lemma InvitationRefused(cfg: Config, s: Store, t: Tenant.ID, email: string, invitedBy: string, ttl: int, d: Draw, now: Time, inv: Invitation,
                          s1: Store, other: Tenant.ID, password: string, hash: PasswordHash, userID: string, d2: Draw, at: Time)
    requires Invite(cfg, s, t, email, invitedBy, ttl, d, now).1 == Ok(inv) && StillHolds(s1, inv.tokenHash, inv)
    requires other != t || at >= inv.expiresAt
    ensures var (s2, a) := AcceptInvitation(cfg, s1, other, d.token.value, password, hash, userID, d2, at); a.Err? && s2 == s1
  {
    InvitationStored(cfg, s, t, email, invitedBy, ttl, d, now, Invite(cfg, s, t, email, invitedBy, ttl, d, now).0, inv);
    FromStoredString(t);
  }

  /** Registering does not touch invitations. */
  lemma RegisterLeavesInvitations(cfg: Config, s: Store, t: Tenant.ID, email: string, password: string, hash: PasswordHash, userID: string, d: Draw, now: Time)
    ensures var s' := Register(cfg, s, t, email, password, hash, userID, d, now).0;
            s'.invitations == s.invitations && s'.invHashes == s.invHashes
  {
    var normalised := NormaliseEmail(email);
    if normalised.Ok? {
      var u := User(userID, t.String(), normalised.value, hash, true, false, now);
      if CreateUser(s, u).Ok? {
        MintLeavesUsers(cfg, CreateUser(s, u).value, userID, Tenant.FromStored(u.tenantID), Unix(now), cfg.defaultACR, [], d, now);
      }
    }
  }

  /** Once a token has been redeemed, whatever came of the account, it is refused from then on. */
  lemma InvitationIsSpent(cfg: Config, s: Store, t: Tenant.ID, token: string, password: string, hash: PasswordHash, userID: string, d: Draw, at: Time,
                          s2: Store, password2: string, hash2: PasswordHash, userID2: string, d2: Draw, later: Time)
    requires StoreOk(s) && at > ZERO_TIME && (forall k :: k in s.invitations ==> s.invitations[k].id == k)
    requires AcceptInvitation(cfg, s, t, token, password, hash, userID, d, at).0 == s2 && s2 != s
    ensures var (s3, a) := AcceptInvitation(cfg, s2, t, token, password2, hash2, userID2, d2, later); a.Err? && s3 == s2
  {
    var inv := InvitationByHash(s, cfg.hashToken(token).value).value;
    var s1 := MarkAccepted(s, inv.id, at).value;
    RegisterLeavesInvitations(cfg, s1, Tenant.FromStored(inv.tenantID), inv.email, password, hash, userID, d, at);
    assert InvitationByHash(s1, cfg.hashToken(token).value).value == inv.(acceptedAt := at);
  }

  /** A refresh token is spent by its use: presented again it is refused and nothing is written. */
  lemma RefreshTokenIsSpent(cfg: Config, s: Store, t: Tenant.ID, token: string, d: Draw, now: Time, d2: Draw, later: Time)
    requires StoreOk(s) && d.sessionID !in s.sessions && now > ZERO_TIME
    requires Refresh(cfg, s, t, token, d, now).1.Ok?
    requires d.token.Some? && cfg.hashToken(d.token.value) != cfg.hashToken(token)
    ensures var s1 := Refresh(cfg, s, t, token, d, now).0;
            Indexed(s1) && Refresh(cfg, s1, t, token, d2, later) == (s1, Err(InvalidSession))
  {
    RefreshEffect(cfg, s, t, token, d, now);
    PresentedIsStored(cfg, s, t, token, now);
    RotateLeaves(cfg, s, Presented(cfg, s, t, token, now).value, d, now);
    var s1, hash := Refresh(cfg, s, t, token, d, now).0, cfg.hashToken(token).value;
    assert s1.hashes[hash] == s.hashes[hash] && s1.sessions[s.hashes[hash]].Revoked();
    RefusedRefresh(cfg, s1, t, token, d2, later);
  }

  /** The session behind the token, if this tenant has one, has ended. */
  lemma LoggedOut(cfg: Config, s: Store, t: Tenant.ID, token: string, now: Time)
    requires StoreOk(s) && now > ZERO_TIME && cfg.refreshTTL > 0 && token != "" && Logout(cfg, s, t, token, now).1.Ok?
    ensures var s1 := Logout(cfg, s, t, token, now).0;
            Indexed(s1) && (cfg.hashToken(token).Some? && SessionInTenant(s1, cfg.hashToken(token).value, t).Ok? ==>
                              SessionInTenant(s1, cfg.hashToken(token).value, t).value.Revoked())
  {
    if cfg.hashToken(token).Some? && cfg.hashToken(token).value in s.hashes {
      var id := s.hashes[cfg.hashToken(token).value];
      assert SessionOk(s, id, s.sessions[id]);
    }
  }

  /** Logging out ends the session, after which the token refreshes nothing. */
  lemma LogoutEndsRefresh(cfg: Config, s: Store, t: Tenant.ID, token: string, now: Time, d: Draw, later: Time)
    requires StoreOk(s) && now > ZERO_TIME && cfg.refreshTTL > 0 && token != "" && Logout(cfg, s, t, token, now).1.Ok?
    ensures var s1 := Logout(cfg, s, t, token, now).0;
            Indexed(s1) && Refresh(cfg, s1, t, token, d, later) == (s1, Err(InvalidSession))
  {
    LoggedOut(cfg, s, t, token, now);
    RefusedRefresh(cfg, Logout(cfg, s, t, token, now).0, t, token, d, later);
  }

  lemma RefusedRefresh(cfg: Config, s: Store, t: Tenant.ID, token: string, d: Draw, now: Time)
    requires Indexed(s)
    requires cfg.hashToken(token).Some? && SessionInTenant(s, cfg.hashToken(token).value, t).Ok? ==>
      SessionInTenant(s, cfg.hashToken(token).value, t).value.Revoked()
    ensures Refresh(cfg, s, t, token, d, now) == (s, Err(InvalidSession))
  {
  }

  // ----- entering and impersonating, from a session that was handed out -----

  /** A session that is not itself entered enters exactly the named tenants its
      subject is a member of, other than the one the subject is stored in, while
      the subject is active. An impersonated session counts as one of its subject,
      and the token then has no actor: who is acting is kept exactly for a session
      that is not impersonated. */
  lemma EntersWhereMember(cfg: Config, s: Store, c: T.AccessClaims, target: Tenant.ID, now: Time)
    requires StoreOk(s) && TokenOk(cfg, s, c) && cfg.memberships
    ensures EnterTenant(cfg, s, Some(c), target, now).Ok? <==>
      && !c.Entered() && c.tenantID != "" && target.Named? && target.name != c.tenantID
      && IsMember(s, c.subject, target) && s.users[c.subject].active
    ensures EnterTenant(cfg, s, Some(c), target, now).Ok? ==>
      var e := EnterTenant(cfg, s, Some(c), target, now).value;
      && e.Entered() && e.subject == c.subject && e.tenantID == target.String() && e.homeTenantID == c.tenantID
      && e.authTime == c.authTime && e.acr == c.acr && e.expiresAt <= now + cfg.jwt.value.ttl
      && (e.ActorUserID() == c.ActorUserID() <==> !c.Impersonated())
  {
    if !c.Entered() {
      var home := Tenant.FromStored(s.users[c.subject].tenantID);
      assert home.String() == c.tenantID;
    }
  }

  /** Only from inside another tenant, entered in one's own name, and only an
      active user stored there whom the policy allows, other than oneself. */
  lemma ImpersonatesFromInside(cfg: Config, s: Store, c: T.AccessClaims, target: string, may: Result<bool, Error>, now: Time)
    requires StoreOk(s) && TokenOk(cfg, s, c) && cfg.impersonation
    ensures Impersonate(cfg, s, Some(c), target, may, now).Ok? <==>
      c.Entered() && Stored(s, target, c.tenantID) && may == Ok(true) && s.users[target].active && target != c.subject
    ensures Impersonate(cfg, s, Some(c), target, may, now).Ok? ==>
      var e := Impersonate(cfg, s, Some(c), target, may, now).value;
      && e.subject == target && e.actorID == c.subject && e.tenantID == c.tenantID && e.homeTenantID == c.homeTenantID
      && e.authTime == c.authTime && e.acr == c.acr && e.expiresAt <= now + cfg.jwt.value.ttl
  {
  }

  /** A user of another tenant and a user that does not exist get one answer, and no session. */
  lemma MissAndMismatchAlike(cfg: Config, s: Store, userID: string, t: Tenant.ID, authTime: int, acr: string, amr: seq<string>, d: Draw, now: Time)
    requires UserInTenant(s, userID, t).Err?
    ensures IssueTokensForUser(cfg, s, userID, t, authTime, acr, amr, d, now).0 == s
    ensures IssueTokensForUser(cfg, s, userID, t, authTime, acr, amr, d, now).1
         == IssueTokensForUser(cfg, s.(users := s.users - {userID}), userID, t, authTime, acr, amr, d, now).1
  {
  }
}
