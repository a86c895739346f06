/** The operations of identity/'s Core on the value of the store: what each one
    leaves behind and answers. Passwords are hashed, tokens drawn and ids made
    outside; those results are arguments here. */
module IdentityOps {
  import opened Common
  import opened Identity
  import T = Tokens
  import Tenant

  /** hashToken is None for text no refresh token has; verifyPassword(hash, password). */
  datatype Config = Config(
    jwt: Option<T.JWTService>,
    refreshTTL: int,
    defaultACR: string,
    enterTTL: int,
    impersonationTTL: int,
    memberships: bool,
    impersonation: bool,
    verifyPassword: (string, string) -> bool,
    hashToken: string -> Option<string>)

  type PasswordHash = s: string | s != "" witness "h"

  /** A drawn refresh token, or None where the random source failed, and the id for its session. */
  datatype Draw = Draw(token: Option<string>, sessionID: string)

  datatype Grant = Grant(access: T.AccessClaims, refresh: string, refreshExpiresAt: Time)

  datatype LoggedIn = LoggedIn(user: User, grant: Grant)

  /** first is the bootstrap signal: no other user was stored in the tenant. */
  datatype Registered = Registered(user: User, grant: Grant, first: bool)

  /** Unix seconds of a time. */
  function Unix(now: Time): int
  {
    now / T.NANOS
  }

  function MintGate(cfg: Config, t: Tenant.ID, authTime: int, acr: string): Option<Error>
  {
    if cfg.jwt.None? then Some(NoTokenService)
    else if !t.Valid() then Some(TenantRequired)
    else if authTime <= 0 || acr == "" then Some(AuthContextRequired)
    else None
  }

  function NewSession(cfg: Config, userID: string, t: Tenant.ID, authTime: int, acr: string, id: string, hash: string, now: Time): Session
  {
    Session(id, userID, t.String(), hash, now, now + cfg.refreshTTL, authTime, acr, ZERO_TIME)
  }

  /** issueTokens */
  function IssueTokens(cfg: Config, s: Store, userID: string, t: Tenant.ID, authTime: int, acr: string, amr: seq<string>, d: Draw, now: Time)
    : (Store, Result<Grant, Error>)
  {
    if MintGate(cfg, t, authTime, acr).Some? then (s, Err(MintGate(cfg, t, authTime, acr).value))
    else
      match T.IssueAccess(cfg.jwt.value, userID, t, authTime, acr, amr, now)
      case Err(_) => (s, Err(SigningFailed))
      case Ok(access) =>
        if cfg.refreshTTL <= 0 then (s, Ok(Grant(access, "", ZERO_TIME)))
        else if d.token.None? || cfg.hashToken(d.token.value).None? then (s, Err(RandomFailed))
        else
          var x := NewSession(cfg, userID, t, authTime, acr, d.sessionID, cfg.hashToken(d.token.value).value, now);
          (CreateSession(s, x), Ok(Grant(access, d.token.value, x.expiresAt)))
  }

  function Register(cfg: Config, s: Store, t: Tenant.ID, email: string, password: string, hash: PasswordHash, userID: string, d: Draw, now: Time)
    : (Store, Result<Registered, Error>)
  {
    if NormaliseEmail(email).Err? then (s, Err(InvalidEmail))
    else if !PasswordAllowed(password) then (s, Err(PasswordPolicy))
    else if !t.Valid() then (s, Err(TenantRequired))
    else
      var u := User(userID, t.String(), NormaliseEmail(email).value, hash, true, false, now);
      match CreateUser(s, u)
      case Err(e) => (s, Err(e))
      case Ok(s1) =>
        var (s2, r) := IssueTokens(cfg, s1, u.id, Tenant.FromStored(u.tenantID), Unix(now), cfg.defaultACR, [], d, now);
        match r
        case Err(e) => (s2, Err(e))
        case Ok(g) => (s2, Ok(Registered(u, g, UsersOf(s, t) == {})))
  }

  /** allowed is the throttle's verdict on the normalised address, owed the second-factor policy's on the user. */
  function Login(cfg: Config, s: Store, t: Tenant.ID, email: string, password: string, allowed: bool, owed: bool, d: Draw, now: Time)
    : (Store, Result<LoggedIn, Error>)
    requires Indexed(s)
  {
    if NormaliseEmail(email).Err? then (s, Err(InvalidCredentials))
    else if !allowed then (s, Err(Throttled))
    else if !t.Valid() then (s, Err(TenantRequired))
    else
      match UserByEmail(s, t, NormaliseEmail(email).value)
      case Err(_) => (s, Err(InvalidCredentials))
      case Ok(u) =>
        if u.passwordHash == "" || !u.active then (s, Err(InvalidCredentials))
        else if !cfg.verifyPassword(u.passwordHash, password) then (s, Err(InvalidCredentials))
        else if u.totpEnrolled || owed then (s, Err(TOTPRequired))
        else
          var (s1, r) := IssueTokens(cfg, s, u.id, Tenant.FromStored(u.tenantID), Unix(now), cfg.defaultACR, ["pwd"], d, now);
          match r
          case Err(e) => (s1, Err(e))
          case Ok(g) => (s1, Ok(LoggedIn(u, g)))
  }

  function IssueTokensForUser(cfg: Config, s: Store, userID: string, t: Tenant.ID, authTime: int, acr: string, amr: seq<string>, d: Draw, now: Time)
    : (Store, Result<Grant, Error>)
  {
    if MintGate(cfg, t, authTime, acr).Some? then (s, Err(MintGate(cfg, t, authTime, acr).value))
    else
      match UserInTenant(s, userID, t)
      case Err(_) => (s, Err(NotFound))
      case Ok(u) => if !u.active then (s, Err(UserInactive)) else IssueTokens(cfg, s, userID, t, authTime, acr, amr, d, now)
  }

  /** The session a presented refresh token stands for, if it may still be rotated by this route. */
  function Presented(cfg: Config, s: Store, t: Tenant.ID, token: string, now: Time): Result<Session, Error>
    requires Indexed(s)
  {
    if cfg.refreshTTL <= 0 || cfg.hashToken(token).None? then Err(InvalidSession)
    else
      match SessionInTenant(s, cfg.hashToken(token).value, t)
      case Err(_) => Err(InvalidSession)
      case Ok(x) => if x.Revoked() || x.expiresAt <= now then Err(InvalidSession) else Ok(x)
  }

  function Refresh(cfg: Config, s: Store, t: Tenant.ID, token: string, d: Draw, now: Time): (Store, Result<LoggedIn, Error>)
    requires Indexed(s)
  {
    match Presented(cfg, s, t, token, now)
    case Err(e) => (s, Err(e))
    case Ok(x) => Rotate(cfg, s, x, d, now)
  }

  /** What follows the read: x is ended as it was read, without another look at it, and a successor is issued. */
  function Rotate(cfg: Config, s: Store, x: Session, d: Draw, now: Time): (Store, Result<LoggedIn, Error>)
  {
    if x.userID !in s.users then (s, Err(InvalidSession))
    else
      var u := s.users[x.userID];
      var s1 := RevokeSession(s, x.id, now);
      if Tenant.FromStored(x.tenantID) != Tenant.FromStored(u.tenantID) then (s1, Err(InvalidSession))
      else if x.authTime <= 0 || x.acr == "" then (s1, Err(InvalidSession))
      else if !u.active then (s1, Err(UserInactive))
      else
        var (s2, r) := IssueTokens(cfg, s1, x.userID, Tenant.FromStored(x.tenantID), x.authTime, x.acr, [], d, now);
        match r
        case Err(e) => (s2, Err(e))
        case Ok(g) => (s2, Ok(LoggedIn(u, g)))
  }

  /** A rotation ends the session it read and begins at most one. */
  lemma RotateLeaves(cfg: Config, s: Store, x: Session, d: Draw, now: Time)
    ensures var (s', r) := Rotate(cfg, s, x, d, now);
            var s1 := RevokeSession(s, x.id, now);
            || (s' == s && r.Err?)
            || s' == s1
            || (d.token.Some? && cfg.hashToken(d.token.value).Some?
                && s' == CreateSession(s1, NewSession(cfg, x.userID, Tenant.FromStored(x.tenantID), x.authTime, x.acr,
                                                      d.sessionID, cfg.hashToken(d.token.value).value, now)))
  {
  }

  function Logout(cfg: Config, s: Store, t: Tenant.ID, token: string, now: Time): (Store, Result<(), Error>)
    requires Indexed(s)
  {
    if cfg.refreshTTL <= 0 || token == "" || cfg.hashToken(token).None? then (s, Ok(()))
    else
      match SessionInTenant(s, cfg.hashToken(token).value, t)
      case Err(NotFound) => (s, Ok(()))
      case Err(e) => (s, Err(e))
      case Ok(x) => if x.Revoked() then (s, Ok(())) else (RevokeSession(s, x.id, now), Ok(()))
  }

  function RevokeAllSessions(s: Store, t: Tenant.ID, userID: string, now: Time): (Store, Result<(), Error>)
  {
    if userID == "" then (s, Err(UserIDRequired))
    else if UserInTenant(s, userID, t).Err? then (s, Err(NotFound))
    else (RevokeForUser(s, userID, now), Ok(()))
  }

  function RevokeAllSessionsForTenant(s: Store, t: Tenant.ID, now: Time): (Store, Result<(), Error>)
  {
    if !t.Valid() then (s, Err(TenantRequired)) else (RevokeForTenant(s, t, now), Ok(()))
  }

  /** The claims say who is asking, and when and how that user authenticated. */
  predicate HasContext(c: T.AccessClaims)
  {
    c.subject != "" && c.authTime > 0 && c.acr != ""
  }

  function EnterTenant(cfg: Config, s: Store, session: Option<T.AccessClaims>, target: Tenant.ID, now: Time): Result<T.AccessClaims, Error>
  {
    if !cfg.memberships then Err(NoMembershipStore)
    else if cfg.jwt.None? then Err(NoTokenService)
    else if !target.Valid() then Err(TenantRequired)
    else if session.None? || !HasContext(session.value) then Err(AuthContextRequired)
    else
      var c := session.value;
      if c.Entered() || c.subject !in s.users then Err(NotFound)
      else
        var u := s.users[c.subject];
        var home := Tenant.FromStored(u.tenantID);
        if c.tenantID != home.String() || home.IsSingle() || target.IsSingle() || home == target then Err(NotFound)
        else if !IsMember(s, c.subject, target) then Err(NotFound)
        else if !u.active then Err(UserInactive)
        else
          match T.IssueAccessEntered(cfg.jwt.value, c.subject, target, home, c.authTime, c.acr, cfg.enterTTL, [], now)
          case Err(_) => Err(SigningFailed)
          case Ok(access) => Ok(access)
  }

  /** may is the impersonation policy's answer. */
  function Impersonate(cfg: Config, s: Store, session: Option<T.AccessClaims>, target: string, may: Result<bool, Error>, now: Time)
    : Result<T.AccessClaims, Error>
  {
    if !cfg.impersonation then Err(NoImpersonationPolicy)
    else if cfg.jwt.None? then Err(NoTokenService)
    else if session.None? || !HasContext(session.value) then Err(AuthContextRequired)
    else
      var c := session.value;
      var t, home := Tenant.New(c.tenantID), Tenant.New(c.ActorTenantID());
      if c.Impersonated() then Err(NotFound)
      else if !t.Valid() || t.IsSingle() || !home.Valid() || home.IsSingle() || home == t then Err(NotFound)
      else if target !in s.users then Err(NotFound)
      else
        var u := s.users[target];
        var targetHome := Tenant.FromStored(u.tenantID);
        if !targetHome.Valid() || targetHome.IsSingle() || targetHome != t then Err(NotFound)
        else
          match may
          case Err(e) => Err(e)
          case Ok(yes) =>
            if !yes then Err(NotFound)
            else if !u.active then Err(UserInactive)
            else
              match T.IssueAccessImpersonated(cfg.jwt.value, target, c.subject, t, home, c.authTime, c.acr, cfg.impersonationTTL, [], now)
              case Err(_) => Err(SigningFailed)
              case Ok(access) => Ok(access)
  }

  const DEFAULT_INVITATION_TTL := 7 * 24 * 3600 * T.NANOS

  function Invite(cfg: Config, s: Store, t: Tenant.ID, email: string, invitedBy: string, ttl: int, d: Draw, now: Time)
    : (Store, Result<Invitation, Error>)
  {
    if !t.Valid() then (s, Err(TenantRequired))
    else if NormaliseEmail(email).Err? then (s, Err(InvalidEmail))
    else if d.token.None? || cfg.hashToken(d.token.value).None? then (s, Err(RandomFailed))
    else
      var inv := Invitation(d.sessionID, t.String(), NormaliseEmail(email).value, cfg.hashToken(d.token.value).value,
                            now + (if ttl <= 0 then DEFAULT_INVITATION_TTL else ttl), ZERO_TIME, invitedBy, now);
      match CreateInvitation(s, inv)
      case Err(e) => (s, Err(e))
      case Ok(s1) => (s1, Ok(inv))
  }

  function AcceptInvitation(cfg: Config, s: Store, t: Tenant.ID, token: string, password: string, hash: PasswordHash, userID: string, d: Draw, now: Time)
    : (Store, Result<Registered, Error>)
  {
    if !t.Valid() then (s, Err(TenantRequired))
    else if !PasswordAllowed(password) then (s, Err(PasswordPolicy))
    else if cfg.hashToken(token).None? then (s, Err(InvitationInvalid))
    else
      match InvitationByHash(s, cfg.hashToken(token).value)
      case Err(_) => (s, Err(InvitationInvalid))
      case Ok(inv) =>
        if inv.tenantID != t.String() || !inv.Usable(now) then (s, Err(InvitationInvalid))
        else
          match MarkAccepted(s, inv.id, now)
          case Err(_) => (s, Err(InvitationInvalid))
          case Ok(s1) => Register(cfg, s1, Tenant.FromStored(inv.tenantID), inv.email, password, hash, userID, d, now)
  }

  /** ProvisionUserWithIdentity: the user and the identity get one tenant. */
  function Provision(s: Store, t: Tenant.ID, email: string, provider: string, subject: string, userID: string, identityID: string, now: Time)
    : (Store, Result<User, Error>)
  {
    if !t.Valid() then (s, Err(TenantRequired))
    else
      var u := User(userID, t.String(), email, "", true, false, now);
      match ProvisionUser(s, u, LinkedIdentity(identityID, userID, u.tenantID, provider, subject, now, Some(now)))
      case Err(e) => (s, Err(e))
      case Ok(s1) => (s1, Ok(u))
  }

  /** What Link leaves and answers when nobody comes in between. A credential that is stored may be
      answered by any identity that carries it. */
  ghost predicate Links(s: Store, t: Tenant.ID, userID: string, provider: string, subject: string, identityID: string, now: Time,
                        s': Store, r: Result<LinkedIdentity, Error>)
  {
    var x := LinkedIdentity(identityID, userID, t.String(), provider, subject, now, None);
    if UserInTenant(s, userID, t).Err? then r == Err(NotFound) && s' == s
    else if CredentialTaken(s, t.String(), provider, subject) then
      && s' == s
      && match r
         case Ok(y) => y.userID == userID && SameCredential(y, t.String(), provider, subject) && y in s.identities.Values
         case Err(e) => e == LinkConflict && exists id :: id in s.identities && s.identities[id].userID != userID
                                                    && SameCredential(s.identities[id], t.String(), provider, subject)
    else r == Ok(x) && s' == s.(identities := s.identities[identityID := x])
  }

  /** Password first: only a user without one is kept from removing the last identity. */
  function MayUnlink(s: Store, t: Tenant.ID, userID: string, identityID: string): Result<(), Error>
  {
    if identityID !in s.identities || s.identities[identityID].userID != userID then Err(NotFound)
    else
      match UserInTenant(s, userID, t)
      case Err(_) => Err(NotFound)
      case Ok(u) => if u.passwordHash == "" && |IdentitiesOf(s, userID)| <= 1 then Err(LastAuthMethod) else Ok(())
  }

  function Unlink(s: Store, t: Tenant.ID, userID: string, identityID: string): (Store, Result<(), Error>)
  {
    match MayUnlink(s, t, userID, identityID)
    case Err(e) => (s, Err(e))
    case Ok(_) => (DeleteIdentity(s, identityID), Ok(()))
  }
}
