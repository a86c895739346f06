/** Who is behind a token. A token names a human (crypto/jwt.go:830-835); the runs
    of IdentityRuns remember the human it was handed to. The design promises that
    the two are the same and that impersonating leads to no further impersonating
    (identity/impersonation.go:62, docs/phases/PHASE11-IMPERSONATION-SKETCH.md).
    EnterTenant refuses an entered session and not an impersonated one, so this
    holds exactly for the runs in which nobody enters a tenant from one. */
module IdentityActors {
  import opened Common
  import opened Identity
  import opened IdentityOps
  import opened IdentityLaws
  import opened IdentityRuns
  import T = Tokens
  import Tenant

  predicate NamesItsHuman(x: Held)
  {
    x.claims.ActorUserID() == x.human
  }

  predicate AllNamed(w: World)
  {
    forall x :: x in w.minted ==> NamesItsHuman(x)
  }

  /** A tenant is entered from an impersonated session. */
  predicate EntersImpersonated(cfg: Config, w: World, s: Step)
  {
    && s.DoEnter? && s.session.Some? && s.session.value.claims.Impersonated()
    && EnterTenant(cfg, w.store, ClaimsOf(s.session), s.target, w.now).Ok?
  }

  /** No step of the run does that. */
  predicate NoneEntersImpersonated(cfg: Config, w: World, steps: seq<Step>)
    decreases |steps|
  {
    steps != [] && Next(cfg, w, steps[0]).Some? ==>
      !EntersImpersonated(cfg, w, steps[0]) && NoneEntersImpersonated(cfg, Next(cfg, w, steps[0]).value, steps[1..])
  }

  // ----- one step -----

  lemma MintedIsOwn(cfg: Config, s: Store, userID: string, t: Tenant.ID, authTime: int, acr: string, amr: seq<string>, d: Draw, now: Time)
    requires IssueTokens(cfg, s, userID, t, authTime, acr, amr, d, now).1.Ok?
    ensures IssueTokens(cfg, s, userID, t, authTime, acr, amr, d, now).1.value.access.Ordinary()
  {
  }

  lemma RegisteredIsOwn(cfg: Config, s: Store, t: Tenant.ID, email: string, password: string, hash: PasswordHash, userID: string, d: Draw, now: Time)
    requires Register(cfg, s, t, email, password, hash, userID, d, now).1.Ok?
    ensures Register(cfg, s, t, email, password, hash, userID, d, now).1.value.grant.access.Ordinary()
  {
    var u := User(userID, t.String(), NormaliseEmail(email).value, hash, true, false, now);
    MintedIsOwn(cfg, CreateUser(s, u).value, userID, Tenant.FromStored(u.tenantID), Unix(now), cfg.defaultACR, [], d, now);
  }

  lemma AcceptedIsOwn(cfg: Config, s: Store, t: Tenant.ID, token: string, password: string, hash: PasswordHash, userID: string, d: Draw, now: Time)
    requires Indexed(s) && AcceptInvitation(cfg, s, t, token, password, hash, userID, d, now).1.Ok?
    ensures AcceptInvitation(cfg, s, t, token, password, hash, userID, d, now).1.value.grant.access.Ordinary()
  {
    var inv := AcceptIs(cfg, s, t, token, password, hash, userID, d, now);
    RegisteredIsOwn(cfg, MarkAccepted(s, inv.value.id, now).value, Tenant.FromStored(inv.value.tenantID), inv.value.email, password, hash, userID, d, now);
  }

  /** Only entering and impersonating start from somebody else's word for who is there. */
  lemma OthersMintOwn(cfg: Config, w: World, s: Step)
    requires Indexed(w.store) && !s.DoEnter? && !s.DoImpersonate? && Apply(cfg, w, s).token.Some?
    ensures NamesItsHuman(Held(Apply(cfg, w, s).token.value, HumanOf(s, Apply(cfg, w, s).token.value)))
  {
    match s
    case DoRegister(t, email, password, hash, userID, d) => RegisteredIsOwn(cfg, w.store, t, email, password, hash, userID, d, w.now);
    case DoAccept(t, token, password, hash, userID, d) => AcceptedIsOwn(cfg, w.store, t, token, password, hash, userID, d, w.now);
    case DoRefresh(t, token, d) => RefreshedIsOwn(cfg, w.store, t, token, d, w.now);
    case _ =>
  }

  lemma RefreshedIsOwn(cfg: Config, s: Store, t: Tenant.ID, token: string, d: Draw, now: Time)
    requires Indexed(s) && Refresh(cfg, s, t, token, d, now).1.Ok?
    ensures Refresh(cfg, s, t, token, d, now).1.value.grant.access.Ordinary()
  {
    var x := Presented(cfg, s, t, token, now).value;
    MintedIsOwn(cfg, RevokeSession(s, x.id, now), x.userID, Tenant.FromStored(x.tenantID), x.authTime, x.acr, [], d, now);
  }

  /** What comes of a session that names its human: entering keeps the human's
      name exactly when the session is the human's own; impersonating keeps it. */
  lemma DerivedNames(cfg: Config, s: Store, x: Held, target: Tenant.ID, user: string, may: Result<bool, Error>, now: Time)
    requires TokenOk(cfg, s, x.claims) && NamesItsHuman(x)
    ensures EnterTenant(cfg, s, Some(x.claims), target, now).Ok? ==>
      (NamesItsHuman(Held(EnterTenant(cfg, s, Some(x.claims), target, now).value, x.human)) <==> !x.claims.Impersonated())
    ensures Impersonate(cfg, s, Some(x.claims), user, may, now).Ok? ==>
      NamesItsHuman(Held(Impersonate(cfg, s, Some(x.claims), user, may, now).value, x.human))
  {
  }

  lemma StepNames(cfg: Config, w: World, s: Step)
    requires Invariant(cfg, w) && AllNamed(w) && Next(cfg, w, s).Some?
    ensures AllNamed(Next(cfg, w, s).value) <==> !EntersImpersonated(cfg, w, s)
  {
    var o := Apply(cfg, w, s);
    if o.token.Some? {
      var x := Held(o.token.value, HumanOf(s, o.token.value));
      assert Next(cfg, w, s).value.minted == w.minted + {x};
      assert NamesItsHuman(x) <==> !EntersImpersonated(cfg, w, s) by {
        NewTokenNames(cfg, w, s);
      }
      assert x in Next(cfg, w, s).value.minted;
    }
  }

  lemma NewTokenNames(cfg: Config, w: World, s: Step)
    requires Invariant(cfg, w) && AllNamed(w) && Enabled(cfg, w, s) && Apply(cfg, w, s).token.Some?
    ensures NamesItsHuman(Held(Apply(cfg, w, s).token.value, HumanOf(s, Apply(cfg, w, s).token.value))) <==> !EntersImpersonated(cfg, w, s)
  {
    if s.DoEnter? {
      DerivedNames(cfg, w.store, s.session.value, s.target, "", Err(NotFound), w.now);
    } else if s.DoImpersonate? {
      DerivedNames(cfg, w.store, s.session.value, Tenant.Unset, s.targetUserID, s.may, w.now);
    } else {
      OthersMintOwn(cfg, w, s);
    }
  }

  // ----- whole runs -----

  lemma {:induction false} MintedGrows(cfg: Config, w: World, steps: seq<Step>, w': World)
    requires Run(cfg, w, steps) == Some(w')
    ensures w.minted <= w'.minted
    decreases |steps|
  {
    if steps != [] {
      MintedGrows(cfg, Next(cfg, w, steps[0]).value, steps[1..], w');
    }
  }

  lemma {:induction false} RunNames(cfg: Config, w: World, steps: seq<Step>, w': World)
    requires Invariant(cfg, w) && AllNamed(w) && Run(cfg, w, steps) == Some(w')
    ensures AllNamed(w') <==> NoneEntersImpersonated(cfg, w, steps)
    decreases |steps|
  {
    if steps != [] {
      var w1 := Next(cfg, w, steps[0]).value;
      StepNames(cfg, w, steps[0]);
      StepKeeps(cfg, w, steps[0]);
      if AllNamed(w1) {
        RunNames(cfg, w1, steps[1..], w');
      } else {
        MintedGrows(cfg, w1, steps[1..], w');
        var x :| x in w1.minted && !NamesItsHuman(x);
        assert x in w'.minted;
      }
    }
  }

  /** Over any run: every token ever handed out names the human it was handed to
      if and only if nobody entered a tenant from an impersonated session. */
  lemma TokensNameTheirHuman(cfg: Config, now: Time, steps: seq<Step>, w: World)
    requires now > ZERO_TIME && Run(cfg, Start(now), steps) == Some(w)
    ensures AllNamed(w) <==> NoneEntersImpersonated(cfg, Start(now), steps)
  {
    StartIsOk(cfg, now);
    RunNames(cfg, Start(now), steps, w);
  }

  lemma ImpersonatedEnters(cfg: Config, s: Store, c: T.AccessClaims, target: Tenant.ID, now: Time)
    requires TokenOk(cfg, s, c) && c.Impersonated() && cfg.memberships && target.Named? && target.name != c.tenantID
    requires IsMember(s, c.subject, target) && s.users[c.subject].active
    ensures EnterTenant(cfg, s, Some(c), target, now).Ok?
    ensures var e := EnterTenant(cfg, s, Some(c), target, now).value; e.Entered() && e.subject == c.subject
  {
    var home := Tenant.FromStored(s.users[c.subject].tenantID);
    assert home.String() == c.tenantID;
  }

  /** An impersonated session whose user is a member elsewhere can be entered from
      in any run that has one; the token that comes of it has no actor and names
      the impersonated user in the human's place. */
  lemma EnteringLosesTheActor(cfg: Config, w: World, x: Held, target: Tenant.ID) returns (y: Held)
    requires Invariant(cfg, w) && x in w.minted && NamesItsHuman(x) && x.claims.Impersonated() && w.now < x.claims.expiresAt
    requires cfg.memberships && target.Named? && target.name != x.claims.tenantID
    requires IsMember(w.store, x.claims.subject, target) && w.store.users[x.claims.subject].active
    ensures Next(cfg, w, DoEnter(Some(x), target)).Some? && y in Next(cfg, w, DoEnter(Some(x), target)).value.minted
    ensures y.human == x.human && y.claims.Entered() && y.claims.subject == x.claims.subject && !NamesItsHuman(y)
  {
    ImpersonatedEnters(cfg, w.store, x.claims, target, w.now);
    y := Held(EnterTenant(cfg, w.store, Some(x.claims), target, w.now).value, x.human);
    DerivedNames(cfg, w.store, x, target, "", Err(NotFound), w.now);
    EnterIsEnabled(cfg, w, x, target);
  }

  /** And there the chain goes on: from that token any active user of the tenant entered can be
      impersonated, if the policy allows, and the first user is named as the one who acts. */
  lemma ImpersonatesAgain(cfg: Config, w: World, x: Held, target: Tenant.ID, y: Held, user: string, now: Time)
    requires Invariant(cfg, w) && x.claims.Impersonated() && TokenOk(cfg, w.store, x.claims) && cfg.memberships && cfg.impersonation
    requires EnterTenant(cfg, w.store, Some(x.claims), target, w.now) == Ok(y.claims)
    requires Stored(w.store, user, target.String()) && w.store.users[user].active && user != x.claims.subject
    ensures var r := Impersonate(cfg, w.store, Some(y.claims), user, Ok(true), now);
            r.Ok? && r.value.subject == user && r.value.ActorUserID() == x.claims.subject
  {
    EntersWhereMember(cfg, w.store, x.claims, target, w.now);
    EnterEffect(cfg, w.store, Some(x.claims), target, w.now);
    ImpersonatesFromInside(cfg, w.store, y.claims, user, Ok(true), now);
  }

  lemma EnterApplied(cfg: Config, w: World, x: Held, target: Tenant.ID)
    requires Indexed(w.store) && EnterTenant(cfg, w.store, Some(x.claims), target, w.now).Ok?
    ensures Apply(cfg, w, DoEnter(Some(x), target)) == Outcome(w.store, Some(EnterTenant(cfg, w.store, Some(x.claims), target, w.now).value))
  {
  }

  lemma EnterIsEnabled(cfg: Config, w: World, x: Held, target: Tenant.ID)
    requires Invariant(cfg, w) && x in w.minted && w.now < x.claims.expiresAt && EnterTenant(cfg, w.store, Some(x.claims), target, w.now).Ok?
    ensures Next(cfg, w, DoEnter(Some(x), target)).Some?
    ensures Held(EnterTenant(cfg, w.store, Some(x.claims), target, w.now).value, x.human) in Next(cfg, w, DoEnter(Some(x), target)).value.minted
  {
    assert TokenOk(cfg, w.store, x.claims);
    assert Presentable(cfg, w, Some(x));
    EnterApplied(cfg, w, x, target);
    var s := DoEnter(Some(x), target);
    assert Next(cfg, w, s) == Some(Following(cfg, w, s, Apply(cfg, w, s)));
  }

  // ----- an input -----

  lemma RunsFirst(cfg: Config, w: World, s: Step, w1: World, steps: seq<Step>, w': World)
    requires Next(cfg, w, s) == Some(w1) && Run(cfg, w1, steps) == Some(w')
    ensures Run(cfg, w, [s] + steps) == Some(w')
  {
    assert ([s] + steps)[1..] == steps;
  }

  function DemoConfig(): Config
  {
    Config(Some(T.JWTService("issuer", 3600 * T.NANOS)), 0, "pwd", 0, 0, true, true, (h, p) => false, t => None)
  }

  /** A step of a run without refresh sessions. */
  lemma StepWithoutSessions(cfg: Config, w: World, s: Step, o: Outcome)
    requires Indexed(w.store) && Enabled(cfg, w, s) && Apply(cfg, w, s) == o && !s.Tick?
    requires o.store.sessions == map[] && w.root == map[]
    ensures Next(cfg, w, s)
         == Some(w.(store := o.store, minted := if o.token.Some? then w.minted + {Held(o.token.value, HumanOf(s, o.token.value))} else w.minted))
  {
  }

  function DemoUser(id: string, tenantID: string, now: Time): User
  {
    User(id, tenantID, id, "", true, false, now)
  }

  function DemoIdentity(id: string, tenantID: string, now: Time): LinkedIdentity
  {
    LinkedIdentity(id, id, tenantID, "idp", id, now, Some(now))
  }

  /** One more federated user. */
  function WithUser(s: Store, id: string, tenantID: string, now: Time): Store
  {
    s.(users := s.users[id := DemoUser(id, tenantID, now)], emails := s.emails[(tenantID, id) := id],
       identities := s.identities[id := DemoIdentity(id, tenantID, now)])
  }

  lemma ProvisionsUser(w: World, id: string, t: Tenant.ID)
    requires Indexed(w.store) && w.store.sessions == map[] && w.root == map[] && t.Valid() && id != "" && id !in w.store.users
    requires (t.String(), id) !in w.store.emails && !CredentialTaken(w.store, t.String(), "idp", id)
    ensures Next(DemoConfig(), w, DoProvision(t, id, "idp", id, id, id)) == Some(w.(store := WithUser(w.store, id, t.String(), w.now)))
  {
    StepWithoutSessions(DemoConfig(), w, DoProvision(t, id, "idp", id, id, id), Outcome(WithUser(w.store, id, t.String(), w.now), None));
  }

  /** An administrator stored in platform, who may enter acme, and a user stored
      in acme, who may enter globex. */
  function DemoStore(now: Time): Store
  {
    WithUser(WithUser(EmptyStore(), "admin", "platform", now), "bob", "acme", now)
    .(memberships := map["admin" := {Tenant.Named("acme")}, "bob" := {Tenant.Named("globex")}])
  }

  function DemoWorld(s: Store, minted: set<Held>, now: Time): World
  {
    World(s, minted, map[], now)
  }

  lemma FirstUser(now: Time)
    ensures var s1 := WithUser(EmptyStore(), "admin", "platform", now);
            Next(DemoConfig(), Start(now), DoProvision(Tenant.Named("platform"), "admin", "idp", "admin", "admin", "admin"))
            == Some(DemoWorld(s1, {}, now))
  {
    ProvisionsUser(Start(now), "admin", Tenant.Named("platform"));
  }

  lemma SecondUser(now: Time)
    ensures var s1 := WithUser(EmptyStore(), "admin", "platform", now);
            Next(DemoConfig(), DemoWorld(s1, {}, now), DoProvision(Tenant.Named("acme"), "bob", "idp", "bob", "bob", "bob"))
            == Some(DemoWorld(WithUser(s1, "bob", "acme", now), {}, now))
  {
    var s1 := WithUser(EmptyStore(), "admin", "platform", now);
    assert s1.users.Keys == {"admin"} && s1.emails.Keys == {("platform", "admin")} && s1.identities.Keys == {"admin"};
    assert ("acme", "bob") !in s1.emails;
    ProvisionsUser(DemoWorld(s1, {}, now), "bob", Tenant.Named("acme"));
  }

  lemma Memberships(now: Time)
    ensures var s2 := WithUser(WithUser(EmptyStore(), "admin", "platform", now), "bob", "acme", now);
            Next(DemoConfig(), DemoWorld(s2, {}, now), DoEdit(DemoStore(now))) == Some(DemoWorld(DemoStore(now), {}, now))
  {
    var s2 := WithUser(WithUser(EmptyStore(), "admin", "platform", now), "bob", "acme", now);
    StepWithoutSessions(DemoConfig(), DemoWorld(s2, {}, now), DoEdit(DemoStore(now)), Outcome(DemoStore(now), None));
  }

  function DemoSetup(now: Time): seq<Step>
  {
    [DoProvision(Tenant.Named("platform"), "admin", "idp", "admin", "admin", "admin")]
    + ([DoProvision(Tenant.Named("acme"), "bob", "idp", "bob", "bob", "bob")] + [DoEdit(DemoStore(now))])
  }

  /** Following one another. */
  lemma ThreeSteps(cfg: Config, w0: World, s1: Step, w1: World, s2: Step, w2: World, s3: Step, w3: World)
    requires Next(cfg, w0, s1) == Some(w1) && Next(cfg, w1, s2) == Some(w2) && Next(cfg, w2, s3) == Some(w3)
    ensures Run(cfg, w0, [s1] + ([s2] + [s3])) == Some(w3)
  {
    assert Run(cfg, w3, []) == Some(w3);
    RunsFirst(cfg, w2, s3, w3, [], w3);
    assert [s3] + [] == [s3];
    RunsFirst(cfg, w1, s2, w2, [s3], w3);
    RunsFirst(cfg, w0, s1, w1, [s2] + [s3], w3);
  }

  lemma SetupRuns(now: Time)
    ensures Run(DemoConfig(), Start(now), DemoSetup(now)) == Some(DemoWorld(DemoStore(now), {}, now))
  {
    var s1 := WithUser(EmptyStore(), "admin", "platform", now);
    var s2 := WithUser(s1, "bob", "acme", now);
    FirstUser(now);
    SecondUser(now);
    Memberships(now);
    ThreeSteps(DemoConfig(), Start(now),
               DoProvision(Tenant.Named("platform"), "admin", "idp", "admin", "admin", "admin"), DemoWorld(s1, {}, now),
               DoProvision(Tenant.Named("acme"), "bob", "idp", "bob", "bob", "bob"), DemoWorld(s2, {}, now),
               DoEdit(DemoStore(now)), DemoWorld(DemoStore(now), {}, now));
  }

  function DemoClaims(now: Time, sub: string, tid: string, htid: string, act: string): T.AccessClaims
  {
    T.AccessClaims(sub, tid, htid, act, 1, "pwd", [], T.PURPOSE_ACCESS, "issuer", T.NumericDate(now + 3600 * T.NANOS))
  }

  /** The four tokens of the run, all in the hands of the administrator. */
  function DemoHeld(now: Time, n: nat): Held
  {
    var c :=
      if n == 1 then DemoClaims(now, "admin", "platform", "", "")
      else if n == 2 then DemoClaims(now, "admin", "acme", "platform", "")
      else if n == 3 then DemoClaims(now, "bob", "acme", "platform", "admin")
      else DemoClaims(now, "bob", "globex", "acme", "");
    Held(c, "admin")
  }

  /** Session n turned into token n + 1. */
  function DemoStep(now: Time, n: nat): Step
  {
    if n == 0 then DoIssue("admin", Tenant.Named("platform"), 1, "pwd", [], Draw(None, "x"))
    else if n == 1 then DoEnter(Some(DemoHeld(now, 1)), Tenant.Named("acme"))
    else if n == 2 then DoImpersonate(Some(DemoHeld(now, 2)), "bob", Ok(true))
    else DoEnter(Some(DemoHeld(now, 3)), Tenant.Named("globex"))
  }

  function DemoMinted(now: Time, n: nat): set<Held>
  {
    if n == 0 then {} else DemoMinted(now, n - 1) + {DemoHeld(now, n)}
  }

  lemma DemoUsers(now: Time)
    ensures var s := DemoStore(now);
            && Indexed(s) && s.sessions == map[] && s.users.Keys == {"admin", "bob"}
            && s.users["admin"] == DemoUser("admin", "platform", now) && s.users["bob"] == DemoUser("bob", "acme", now)
            && IsMember(s, "admin", Tenant.Named("acme")) && IsMember(s, "bob", Tenant.Named("globex"))
  {
  }

  lemma DemoParses(now: Time, n: nat)
    requires 1 <= n <= 3
    ensures T.ParseAccess(DemoConfig().jwt.value, DemoHeld(now, n).claims, now).Ok?
  {
  }

  lemma DemoOutcome(now: Time, n: nat)
    requires n <= 3
    ensures Indexed(DemoStore(now))
    ensures Apply(DemoConfig(), DemoWorld(DemoStore(now), DemoMinted(now, n), now), DemoStep(now, n))
         == Outcome(DemoStore(now), Some(DemoHeld(now, n + 1).claims))
  {
    DemoUsers(now);
  }

  lemma DemoNext(now: Time, n: nat)
    requires n <= 3
    ensures Next(DemoConfig(), DemoWorld(DemoStore(now), DemoMinted(now, n), now), DemoStep(now, n))
         == Some(DemoWorld(DemoStore(now), DemoMinted(now, n + 1), now))
  {
    var w := DemoWorld(DemoStore(now), DemoMinted(now, n), now);
    DemoUsers(now);
    DemoOutcome(now, n);
    if n > 0 {
      DemoParses(now, n);
    }
    StepWithoutSessions(DemoConfig(), w, DemoStep(now, n), Outcome(DemoStore(now), Some(DemoHeld(now, n + 1).claims)));
  }

  /** The promise fails on an input: an administrator of platform enters acme,
      impersonates bob there, and from that session enters globex. The last token
      is bob's own, with no trace of the administrator who holds it. */
  lemma ActorIsLostSomewhere(now: Time) returns (steps: seq<Step>, w: World, x: Held)
    requires now > ZERO_TIME
    ensures Run(DemoConfig(), Start(now), steps) == Some(w) && x in w.minted
    ensures x.human == "admin" && x.claims.subject == "bob" && x.claims.actorID == "" && !NamesItsHuman(x)
  {
    var cfg, s := DemoConfig(), DemoStore(now);
    SetupRuns(now);
    DemoNext(now, 0);
    DemoNext(now, 1);
    DemoNext(now, 2);
    DemoNext(now, 3);
    var w0, w1, w3 := DemoWorld(s, {}, now), DemoWorld(s, DemoMinted(now, 1), now), DemoWorld(s, DemoMinted(now, 3), now);
    w := DemoWorld(s, DemoMinted(now, 4), now);
    x := DemoHeld(now, 4);
    assert DemoMinted(now, 0) == {};
    ThreeSteps(cfg, w0, DemoStep(now, 0), w1, DemoStep(now, 1), DemoWorld(s, DemoMinted(now, 2), now), DemoStep(now, 2), w3);
    assert Run(cfg, w, []) == Some(w);
    RunsFirst(cfg, w3, DemoStep(now, 3), w, [], w);
    var three := [DemoStep(now, 0)] + ([DemoStep(now, 1)] + [DemoStep(now, 2)]);
    var last := [DemoStep(now, 3)] + [];
    RunsOn(cfg, w0, three, w3, last, w);
    RunsOn(cfg, Start(now), DemoSetup(now), w0, three + last, w);
    steps := DemoSetup(now) + (three + last);
  }

  lemma {:induction false} RunsOn(cfg: Config, w: World, a: seq<Step>, w1: World, b: seq<Step>, w': World)
    requires Run(cfg, w, a) == Some(w1) && Run(cfg, w1, b) == Some(w')
    ensures Run(cfg, w, a + b) == Some(w')
    decreases |a|
  {
    if a == [] {
      assert a + b == b;
    } else {
      assert (a + b)[1..] == a[1..] + b;
      RunsOn(cfg, Next(cfg, w, a[0]).value, a[1..], w1, b, w');
    }
  }
}
