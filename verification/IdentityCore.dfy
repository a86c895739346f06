/** identity/core.go, linking.go, invitation.go, membership.go: the operations as
    sequences of store calls, each proved to be the operation of IdentityOps. */
module IdentityCore {
  import opened Common
  import opened Identity
  import opened IdentityOps
  import opened IdentityStore
  import T = Tokens
  import Tenant
  import Ops = IdentityOps

  class Core {
    const cfg: Config
    const store: MemStore

    constructor (cfg: Config, store: MemStore)
      ensures this.cfg == cfg && this.store == store
    {
      this.cfg := cfg;
      this.store := store;
    }

    method IssueTokens(userID: string, t: Tenant.ID, authTime: int, acr: string, amr: seq<string>, d: Draw, now: Time)
      returns (r: Result<Grant, Error>)
      requires store.Valid()
      modifies store
      ensures store.Valid() && (store.Value(), r) == Ops.IssueTokens(cfg, old(store.Value()), userID, t, authTime, acr, amr, d, now)
    {
      var gate := MintGate(cfg, t, authTime, acr);
      if gate.Some? {
        return Err(gate.value);
      }
      var access := T.IssueAccess(cfg.jwt.value, userID, t, authTime, acr, amr, now);
      if access.Err? {
        return Err(SigningFailed);
      }
      if cfg.refreshTTL <= 0 {
        return Ok(Grant(access.value, "", ZERO_TIME));
      }
      if d.token.None? {
        return Err(RandomFailed);
      }
      var hash := cfg.hashToken(d.token.value);
      if hash.None? {
        return Err(RandomFailed);
      }
      store.CreateRefreshSession(NewSession(cfg, userID, t, authTime, acr, d.sessionID, hash.value, now));
      r := Ok(Grant(access.value, d.token.value, now + cfg.refreshTTL));
    }

    method Register(t: Tenant.ID, email: string, password: string, hash: PasswordHash, userID: string, d: Draw, now: Time)
      returns (r: Result<Registered, Error>)
      requires store.Valid()
      modifies store
      ensures store.Valid() && (store.Value(), r) == Ops.Register(cfg, old(store.Value()), t, email, password, hash, userID, d, now)
    {
      var normalised := NormaliseEmail(email);
      if normalised.Err? {
        return Err(InvalidEmail);
      }
      if !PasswordAllowed(password) {
        return Err(PasswordPolicy);
      }
      if !t.Valid() {
        return Err(TenantRequired);
      }
      var count := store.CountUsers(t);
      var created := store.CreateUser(userID, t.String(), normalised.value, hash, now);
      if created.Err? {
        return Err(created.error);
      }
      var u := created.value;
      var grant := IssueTokens(u.id, Tenant.FromStored(u.tenantID), Unix(now), cfg.defaultACR, [], d, now);
      if grant.Err? {
        return Err(grant.error);
      }
      assert count == 0 <==> UsersOf(old(store.Value()), t) == {};
      r := Ok(Registered(u, grant.value, count == 0));
    }

    method Login(t: Tenant.ID, email: string, password: string, allowed: bool, owed: bool, d: Draw, now: Time)
      returns (r: Result<LoggedIn, Error>)
      requires store.Valid()
      modifies store
      ensures store.Valid() && (store.Value(), r) == Ops.Login(cfg, old(store.Value()), t, email, password, allowed, owed, d, now)
    {
      var normalised := NormaliseEmail(email);
      if normalised.Err? {
        return Err(InvalidCredentials);
      }
      if !allowed {
        return Err(Throttled);
      }
      if !t.Valid() {
        return Err(TenantRequired);
      }
      var found := store.UserByEmail(t, normalised.value);
      if found.Err? {
        return Err(InvalidCredentials);
      }
      var u := found.value;
      if u.passwordHash == "" || !u.active {
        return Err(InvalidCredentials);
      }
      if !cfg.verifyPassword(u.passwordHash, password) {
        return Err(InvalidCredentials);
      }
      if u.totpEnrolled || owed {
        return Err(TOTPRequired);
      }
      var grant := IssueTokens(u.id, Tenant.FromStored(u.tenantID), Unix(now), cfg.defaultACR, ["pwd"], d, now);
      r := if grant.Err? then Err(grant.error) else Ok(LoggedIn(u, grant.value));
    }

    method IssueTokensForUser(userID: string, t: Tenant.ID, authTime: int, acr: string, amr: seq<string>, d: Draw, now: Time)
      returns (r: Result<Grant, Error>)
      requires store.Valid()
      modifies store
      ensures store.Valid()
      ensures (store.Value(), r) == Ops.IssueTokensForUser(cfg, old(store.Value()), userID, t, authTime, acr, amr, d, now)
    {
      var gate := MintGate(cfg, t, authTime, acr);
      if gate.Some? {
        return Err(gate.value);
      }
      var found := store.UserByID(userID);
      if found.Err? || Tenant.FromStored(found.value.tenantID) != t {
        return Err(NotFound);
      }
      if !found.value.active {
        return Err(UserInactive);
      }
      r := IssueTokens(userID, t, authTime, acr, amr, d, now);
    }

    method Refresh(t: Tenant.ID, token: string, d: Draw, now: Time) returns (r: Result<LoggedIn, Error>)
      requires store.Valid()
      modifies store
      ensures store.Valid() && (store.Value(), r) == Ops.Refresh(cfg, old(store.Value()), t, token, d, now)
    {
      if cfg.refreshTTL <= 0 {
        return Err(InvalidSession);
      }
      var hash := cfg.hashToken(token);
      if hash.None? {
        return Err(InvalidSession);
      }
      var found := store.RefreshSessionByHash(hash.value);
      if found.Err? || Tenant.FromStored(found.value.tenantID) != t {
        return Err(InvalidSession);
      }
      var x := found.value;
      if x.Revoked() || x.expiresAt <= now {
        return Err(InvalidSession);
      }
      var owner := store.UserByID(x.userID);
      if owner.Err? {
        return Err(InvalidSession);
      }
      var u := owner.value;
      if Tenant.FromStored(x.tenantID) != Tenant.FromStored(u.tenantID) {
        store.RevokeRefreshSession(x.id, now);
        return Err(InvalidSession);
      }
      if x.authTime <= 0 || x.acr == "" {
        store.RevokeRefreshSession(x.id, now);
        return Err(InvalidSession);
      }
      if !u.active {
        store.RevokeRefreshSession(x.id, now);
        return Err(UserInactive);
      }
      store.RevokeRefreshSession(x.id, now);
      var grant := IssueTokens(x.userID, Tenant.FromStored(x.tenantID), x.authTime, x.acr, [], d, now);
      r := if grant.Err? then Err(grant.error) else Ok(LoggedIn(u, grant.value));
    }

    method Logout(t: Tenant.ID, token: string, now: Time) returns (r: Result<(), Error>)
      requires store.Valid()
      modifies store
      ensures store.Valid() && (store.Value(), r) == Ops.Logout(cfg, old(store.Value()), t, token, now)
    {
      if cfg.refreshTTL <= 0 || token == "" {
        return Ok(());
      }
      var hash := cfg.hashToken(token);
      if hash.None? {
        return Ok(());
      }
      var found := store.RefreshSessionByHash(hash.value);
      if found.Err? {
        return Ok(());
      }
      if Tenant.FromStored(found.value.tenantID) != t {
        return Err(InvalidSession);
      }
      if found.value.Revoked() {
        return Ok(());
      }
      store.RevokeRefreshSession(found.value.id, now);
      r := Ok(());
    }

    method RevokeAllSessions(t: Tenant.ID, userID: string, now: Time) returns (r: Result<(), Error>)
      requires store.Valid()
      modifies store
      ensures store.Valid() && (store.Value(), r) == Ops.RevokeAllSessions(old(store.Value()), t, userID, now)
    {
      if userID == "" {
        return Err(UserIDRequired);
      }
      var found := store.UserByID(userID);
      if found.Err? || Tenant.FromStored(found.value.tenantID) != t {
        return Err(NotFound);
      }
      store.RevokeAllRefreshSessionsForUser(userID, now);
      r := Ok(());
    }

    method RevokeAllSessionsForTenant(t: Tenant.ID, now: Time) returns (r: Result<(), Error>)
      requires store.Valid()
      modifies store
      ensures store.Valid() && (store.Value(), r) == Ops.RevokeAllSessionsForTenant(old(store.Value()), t, now)
    {
      if !t.Valid() {
        return Err(TenantRequired);
      }
      store.RevokeAllRefreshSessionsForTenant(t, now);
      r := Ok(());
    }

    // ----- invitations -----

    method Invite(t: Tenant.ID, email: string, invitedBy: string, ttl: int, d: Draw, now: Time) returns (r: Result<Invitation, Error>)
      requires store.Valid()
      modifies store
      ensures store.Valid() && (store.Value(), r) == Ops.Invite(cfg, old(store.Value()), t, email, invitedBy, ttl, d, now)
    {
      if !t.Valid() {
        return Err(TenantRequired);
      }
      var normalised := NormaliseEmail(email);
      if normalised.Err? {
        return Err(InvalidEmail);
      }
      if d.token.None? {
        return Err(RandomFailed);
      }
      var hash := cfg.hashToken(d.token.value);
      if hash.None? {
        return Err(RandomFailed);
      }
      var life := if ttl <= 0 then DEFAULT_INVITATION_TTL else ttl;
      var inv := Invitation(d.sessionID, t.String(), normalised.value, hash.value, now + life, ZERO_TIME, invitedBy, now);
      var stored := store.CreateInvitation(inv);
      r := if stored.Err? then Err(stored.error) else Ok(inv);
    }

    /** Consumes the invitation first, then creates the account. */
    method AcceptInvitation(t: Tenant.ID, token: string, password: string, hash: PasswordHash, userID: string, d: Draw, now: Time)
      returns (r: Result<Registered, Error>)
      requires store.Valid()
      modifies store
      ensures store.Valid()
      ensures (store.Value(), r) == Ops.AcceptInvitation(cfg, old(store.Value()), t, token, password, hash, userID, d, now)
    {
      if !t.Valid() {
        return Err(TenantRequired);
      }
      if !PasswordAllowed(password) {
        return Err(PasswordPolicy);
      }
      var tokenHash := cfg.hashToken(token);
      if tokenHash.None? {
        return Err(InvitationInvalid);
      }
      var found := store.InvitationByHash(tokenHash.value);
      if found.Err? {
        return Err(InvitationInvalid);
      }
      var inv := found.value;
      if inv.tenantID != t.String() || !inv.Usable(now) {
        return Err(InvitationInvalid);
      }
      var consumed := store.MarkAccepted(inv.id, now);
      if consumed.Err? {
        return Err(InvitationInvalid);
      }
      r := Register(Tenant.FromStored(inv.tenantID), inv.email, password, hash, userID, d, now);
    }

    // ----- identities -----

    method ProvisionUserWithIdentity(t: Tenant.ID, email: string, provider: string, subject: string, userID: string, identityID: string, now: Time)
      returns (r: Result<User, Error>)
      requires store.Valid()
      modifies store
      ensures store.Valid()
      ensures (store.Value(), r) == Ops.Provision(old(store.Value()), t, email, provider, subject, userID, identityID, now)
    {
      if !t.Valid() {
        return Err(TenantRequired);
      }
      var u := User(userID, t.String(), email, "", true, false, now);
      var stored := store.ProvisionUserWithIdentity(u, LinkedIdentity(identityID, userID, u.tenantID, provider, subject, now, Some(now)));
      r := if stored.Err? then Err(stored.error) else Ok(u);
    }

    /** Run by itself, Link either finds the credential with this user, or with
        another, or inserts it: afterwards it is this user's exactly if it succeeded. */
    method Link(t: Tenant.ID, userID: string, provider: string, subject: string, identityID: string, now: Time)
      returns (r: Result<LinkedIdentity, Error>)
      requires store.Valid()
      modifies store
      ensures store.Valid()
      ensures Links(old(store.Value()), t, userID, provider, subject, identityID, now, store.Value(), r)
    {
      var found := store.UserByID(userID);
      if found.Err? || Tenant.FromStored(found.value.tenantID) != t {
        return Err(NotFound);
      }
      assert found.value.tenantID == t.String();
      var existing := store.IdentityByProviderSubject(t, provider, subject);
      if existing.Ok? {
        if existing.value.userID == userID {
          return existing;
        }
        return Err(LinkConflict);
      }
      var x := LinkedIdentity(identityID, userID, t.String(), provider, subject, now, None);
      var inserted := store.InsertIdentity(x);
      if inserted.Ok? {
        return Ok(x);
      }
      // Alone, nobody can have taken it in between; IdentityRaces has the rest.
      assert false;
    }

    method Unlink(t: Tenant.ID, userID: string, identityID: string) returns (r: Result<(), Error>)
      requires store.Valid()
      modifies store
      ensures store.Valid() && (store.Value(), r) == Ops.Unlink(old(store.Value()), t, userID, identityID)
    {
      if identityID !in store.identities {
        return Err(NotFound);
      }
      if store.identities[identityID].userID != userID {
        return Err(NotFound);
      }
      var found := store.UserByID(userID);
      if found.Err? || Tenant.FromStored(found.value.tenantID) != t {
        return Err(NotFound);
      }
      if found.value.passwordHash == "" {
        var count := store.CountIdentitiesByUserID(userID);
        if count <= 1 {
          return Err(LastAuthMethod);
        }
      }
      store.DeleteIdentity(identityID);
      r := Ok(());
    }

    // ----- memberships -----

    /** The tenants a user may enter: the memberships with a named tenant other
        than home, once each, in the order of their names. */
    method EnterableTenants(userID: string) returns (r: Result<seq<Tenant.ID>, Error>)
      ensures !cfg.memberships ==> r == Err(NoMembershipStore)
      ensures cfg.memberships && userID !in store.usersByID ==> r == Err(NotFound)
      ensures cfg.memberships && userID in store.usersByID ==>
        var u := store.usersByID[userID];
        if !u.active && exists t :: Enterable(store.Value(), userID, u, t) then r == Err(UserInactive)
        else r.Ok? && Increasing(r.value, ByName) && forall t :: t in r.value <==> Enterable(store.Value(), userID, u, t)
    {
      if !cfg.memberships {
        return Err(NoMembershipStore);
      }
      var found := store.UserByID(userID);
      if found.Err? {
        return Err(NotFound);
      }
      var u := found.value;
      var home := Tenant.FromStored(u.tenantID);
      ByNameIsPartial();
      if home.IsSingle() {
        return Ok([]);
      }
      var all := store.MembershipsFor(userID);
      var out: seq<Tenant.ID> := [];
      for i := 0 to |all|
        invariant Comparable(out, ByName)
        invariant forall t :: t in out <==> t in all[..i] && t.Named? && t != home
      {
        assert all[..i + 1] == all[..i] + [all[i]];
        if !all[i].Valid() || all[i].IsSingle() || all[i] == home {
          continue;
        }
        if all[i] in out {
          continue;
        }
        forall j | 0 <= j < |out| ensures ByName(out[j], all[i]) || ByName(all[i], out[j]) {
          assert out[j] in out && out[j] != all[i];
        }
        out := out + [all[i]];
      }
      assert all[..|all|] == all;
      if !u.active && |out| > 0 {
        assert out[0] in out && Enterable(store.Value(), userID, u, out[0]);
        return Err(UserInactive);
      }
      out := Sort(out, ByName);
      r := Ok(out);
    }
  }

  predicate ByName(a: Tenant.ID, b: Tenant.ID)
  {
    StringLess(a.String(), b.String())
  }

  lemma ByNameIsPartial()
    ensures StrictPartialOrder(ByName)
    ensures forall a: Tenant.ID, b: Tenant.ID :: a.Named? && b.Named? && a != b ==> ByName(a, b) || ByName(b, a)
  {
    StringLessIsStrict();
  }

  predicate Enterable(s: Store, userID: string, u: User, t: Tenant.ID)
  {
    !Tenant.FromStored(u.tenantID).IsSingle() && t.Named? && t != Tenant.FromStored(u.tenantID) && IsMember(s, userID, t)
  }
}
