/** crypto/jwt.go and espresso/tenantgate.go:77-93: the claims of an access token,
    the three ways to mint one, and what a verifier and a route check. A token is
    its claims; that a signature cannot be forged is said where tokens are used. */
module Tokens {
  import opened Common
  import Tenant

  const NANOS := 1_000_000_000

  const PURPOSE_ACCESS := "access"

  datatype AccessClaims = AccessClaims(
    subject: string,
    tenantID: string,      // tid: the tenant being acted in
    homeTenantID: string,  // htid: where the actor is stored, when that is another tenant
    actorID: string,       // act: who is acting, when that is not the subject
    authTime: int,
    acr: string,
    amr: seq<string>,
    purpose: string,
    issuer: string,
    expiresAt: Time)
  {
    predicate Entered()
    {
      homeTenantID != "" && actorID == ""
    }

    predicate Impersonated()
    {
      actorID != ""
    }

    predicate Ordinary()
    {
      homeTenantID == "" && actorID == ""
    }

    /** The human behind the request, as far as the token says. */
    function ActorUserID(): string
    {
      if actorID != "" then actorID else subject
    }

    function ActorTenantID(): string
    {
      if homeTenantID != "" then homeTenantID else tenantID
    }
  }

  datatype Error = TenantRequired | InvalidToken | EnteredTenants | SelfImpersonation | WrongTenant

  datatype JWTService = JWTService(issuer: string, ttl: int)

  /** Token times have whole seconds. */
  function NumericDate(t: Time): Time
  {
    t / NANOS * NANOS
  }

  /** issueAccessWithActor, the one place claims are made. */
  function Issued(j: JWTService, sub: string, act: string, tid: string, htid: string,
                  authTime: int, acr: string, ttl: int, amr: seq<string>, now: Time): Result<AccessClaims, Error>
  {
    if sub == "" || authTime <= 0 || acr == "" || "" in amr then Err(InvalidToken)
    else Ok(AccessClaims(sub, tid, htid, act, authTime, acr, amr, PURPOSE_ACCESS, j.issuer, NumericDate(now + ttl)))
  }

  method IssueAccessWithActor(j: JWTService, sub: string, act: string, tid: string, htid: string,
                              authTime: int, acr: string, ttl: int, amr: seq<string>, now: Time)
    returns (r: Result<AccessClaims, Error>)
    ensures r == Issued(j, sub, act, tid, htid, authTime, acr, ttl, amr, now)
  {
    if sub == "" || authTime <= 0 || acr == "" {
      return Err(InvalidToken);
    }
    var methods: seq<string> := [];
    for i := 0 to |amr|
      invariant methods == amr[..i] && "" !in methods
    {
      if amr[i] == "" {
        assert amr[i] in amr;
        return Err(InvalidToken);
      }
      methods := methods + [amr[i]];
    }
    assert methods == amr;
    r := Ok(AccessClaims(sub, tid, htid, act, authTime, acr, methods, PURPOSE_ACCESS, j.issuer, NumericDate(now + ttl)));
  }

  function IssueAccess(j: JWTService, userID: string, t: Tenant.ID, authTime: int, acr: string, amr: seq<string>, now: Time)
    : Result<AccessClaims, Error>
  {
    if !t.Valid() then Err(TenantRequired)
    else Issued(j, userID, "", t.String(), "", authTime, acr, j.ttl, amr, now)
  }

  /** A lifetime is cut to the service's own, which also stands in for none. */
  function CutTTL(j: JWTService, ttl: int): int
  {
    if ttl <= 0 || ttl > j.ttl then j.ttl else ttl
  }

  predicate TwoTenants(a: Tenant.ID, b: Tenant.ID)
  {
    !a.IsSingle() && !b.IsSingle() && a != b
  }

  function IssueAccessEntered(j: JWTService, userID: string, t: Tenant.ID, home: Tenant.ID,
                              authTime: int, acr: string, ttl: int, amr: seq<string>, now: Time): Result<AccessClaims, Error>
  {
    if !t.Valid() || !home.Valid() then Err(TenantRequired)
    else if !TwoTenants(t, home) then Err(EnteredTenants)
    else Issued(j, userID, "", t.String(), home.String(), authTime, acr, CutTTL(j, ttl), amr, now)
  }

  function IssueAccessImpersonated(j: JWTService, target: string, actor: string, t: Tenant.ID, actorHome: Tenant.ID,
                                   authTime: int, acr: string, ttl: int, amr: seq<string>, now: Time): Result<AccessClaims, Error>
  {
    if target == "" || actor == "" then Err(InvalidToken)
    else if target == actor then Err(SelfImpersonation)
    else if !t.Valid() || !actorHome.Valid() then Err(TenantRequired)
    else if !TwoTenants(t, actorHome) then Err(EnteredTenants)
    else Issued(j, target, actor, t.String(), actorHome.String(), authTime, acr, CutTTL(j, ttl), amr, now)
  }

  // ----- verification -----

  /** The claim checks of ParseAccess that do not depend on the time. */
  predicate WellFormed(j: JWTService, c: AccessClaims)
  {
    && c.issuer == j.issuer && c.purpose == PURPOSE_ACCESS
    && c.subject != "" && c.authTime > 0 && c.acr != ""
    && (c.homeTenantID != "" ==> c.tenantID != "" && c.homeTenantID != c.tenantID)
    && (c.actorID != "" ==> c.homeTenantID != "" && c.actorID != c.subject)
  }

  /** ParseAccess on a token whose signature holds. */
  function ParseAccess(j: JWTService, c: AccessClaims, now: Time): Result<AccessClaims, Error>
  {
    if now < c.expiresAt && WellFormed(j, c) then Ok(c) else Err(InvalidToken)
  }

  function VerifyAccess(j: JWTService, c: AccessClaims, t: Tenant.ID, now: Time): Result<AccessClaims, Error>
  {
    if !t.Valid() then Err(TenantRequired)
    else if ParseAccess(j, c, now).Err? then Err(InvalidToken)
    else if c.tenantID != t.String() then Err(WrongTenant)
    else Ok(c)
  }

  /** May this token be used on a route of this tenant? */
  predicate FitsTenant(c: AccessClaims, routed: string, guests: bool, impersonators: bool)
  {
    c.tenantID == routed
    && if c.Impersonated() then impersonators
       else if c.Entered() then guests
       else true
  }

  // ----- what every mint yields -----

  /** The last whole second of the lifetime. */
  predicate Lasts(c: AccessClaims, now: Time, ttl: int)
  {
    c.expiresAt <= now + ttl < c.expiresAt + 1_000_000_000 && c.expiresAt % 1_000_000_000 == 0
  }

  predicate Says(c: AccessClaims, j: JWTService, authTime: int, acr: string, amr: seq<string>)
  {
    c.authTime == authTime && c.acr == acr && c.amr == amr && c.issuer == j.issuer && c.purpose == "access"
  }

  /** An entered token: for whom, where, from where, and for how long. */
  lemma EnteredClaims(j: JWTService, userID: string, t: Tenant.ID, home: Tenant.ID, authTime: int, acr: string, ttl: int, amr: seq<string>, now: Time)
    ensures var r := IssueAccessEntered(j, userID, t, home, authTime, acr, ttl, amr, now);
            && (r.Ok? <==> t.Named? && home.Named? && t != home && userID != "" && authTime > 0 && acr != "" && "" !in amr)
            && (r.Ok? ==>
                  && r.value.subject == userID && r.value.actorID == "" && r.value.tenantID == t.name && r.value.homeTenantID == home.name
                  && Says(r.value, j, authTime, acr, amr)
                  && Lasts(r.value, now, if 0 < ttl < j.ttl then ttl else j.ttl))
  {
  }

  /** An impersonated token: as whom, by whom, where, from where, and for how long. */
  lemma ImpersonatedClaims(j: JWTService, target: string, actor: string, t: Tenant.ID, home: Tenant.ID,
                           authTime: int, acr: string, ttl: int, amr: seq<string>, now: Time)
    ensures var r := IssueAccessImpersonated(j, target, actor, t, home, authTime, acr, ttl, amr, now);
            && (r.Ok? <==> t.Named? && home.Named? && t != home && target != "" && actor != "" && target != actor
                           && authTime > 0 && acr != "" && "" !in amr)
            && (r.Ok? ==>
                  && r.value.subject == target && r.value.actorID == actor && r.value.tenantID == t.name && r.value.homeTenantID == home.name
                  && Says(r.value, j, authTime, acr, amr)
                  && Lasts(r.value, now, if 0 < ttl < j.ttl then ttl else j.ttl))
  {
  }

  /** What any of the three mints of this service yields. */
  ghost predicate MintedBy(j: JWTService, c: AccessClaims)
  {
    || (exists sub, t, authTime, acr, amr, now :: IssueAccess(j, sub, t, authTime, acr, amr, now) == Ok(c))
    || (exists sub, t, home, authTime, acr, ttl, amr, now :: IssueAccessEntered(j, sub, t, home, authTime, acr, ttl, amr, now) == Ok(c))
    || (exists sub, act, t, home, authTime, acr, ttl, amr, now :: IssueAccessImpersonated(j, sub, act, t, home, authTime, acr, ttl, amr, now) == Ok(c))
  }

  /** The parser takes an unexpired token exactly if some mint of this service could have made it: claims no
      mint writes together are refused together. It does not look at the two things only a mint checks. */
  lemma ParsesIffMinted(j: JWTService, c: AccessClaims, later: Time)
    requires later < c.expiresAt
    ensures MintedBy(j, c) <==> ParseAccess(j, c, later) == Ok(c) && "" !in c.amr && c.expiresAt % 1_000_000_000 == 0
  {
    if WellFormed(j, c) && "" !in c.amr && c.expiresAt % 1_000_000_000 == 0 {
      var t, now := Tenant.FromStored(c.tenantID), c.expiresAt - j.ttl;
      if c.homeTenantID == "" {
        assert IssueAccess(j, c.subject, t, c.authTime, c.acr, c.amr, now) == Ok(c);
      } else if c.actorID == "" {
        assert IssueAccessEntered(j, c.subject, t, Tenant.Named(c.homeTenantID), c.authTime, c.acr, 0, c.amr, now) == Ok(c);
      } else {
        assert IssueAccessImpersonated(j, c.subject, c.actorID, t, Tenant.Named(c.homeTenantID), c.authTime, c.acr, 0, c.amr, now) == Ok(c);
      }
    }
  }

  /** Only the issuer's own parser takes a token, only until it expires, and only for what it was minted for. */
  lemma OthersRefuse(j: JWTService, j': JWTService, c: AccessClaims, purpose: string, t: Tenant.ID, later: Time)
    requires MintedBy(j, c)
    ensures ParseAccess(j', c, later).Ok? <==> j'.issuer == j.issuer && later < c.expiresAt
    ensures purpose != "access" ==> ParseAccess(j', c.(purpose := purpose), later) == Err(InvalidToken)
    ensures VerifyAccess(j', c, t, later).Ok? <==> j'.issuer == j.issuer && later < c.expiresAt && t.Valid() && c.tenantID == t.String()
  {
  }

  /** A route of the token's own tenant takes an ordinary token always, an entered one with guests and an
      impersonated one with impersonators; a route of another tenant takes none. */
  lemma FitsIff(j: JWTService, c: AccessClaims, routed: string, guests: bool, impersonators: bool)
    requires MintedBy(j, c)
    ensures FitsTenant(c, routed, guests, impersonators)
       <==> c.tenantID == routed && (c.homeTenantID == "" || (c.actorID == "" && guests) || (c.actorID != "" && impersonators))
  {
  }

  /** Whatever a mint returns, the same service's parser accepts until it expires,
      and it lives no longer than the service allows. */
  lemma MintedParses(j: JWTService, c: AccessClaims, sub: string, act: string, t: Tenant.ID, home: Tenant.ID,
                     authTime: int, acr: string, ttl: int, amr: seq<string>, now: Time, later: Time)
    requires || IssueAccess(j, sub, t, authTime, acr, amr, now) == Ok(c)
             || IssueAccessEntered(j, sub, t, home, authTime, acr, ttl, amr, now) == Ok(c)
             || IssueAccessImpersonated(j, sub, act, t, home, authTime, acr, ttl, amr, now) == Ok(c)
    ensures later < c.expiresAt <==> ParseAccess(j, c, later) == Ok(c)
    ensures c.expiresAt <= now + j.ttl
    ensures VerifyAccess(j, c, t, later) == if later < c.expiresAt then Ok(c) else Err(InvalidToken)
  {
  }
}
