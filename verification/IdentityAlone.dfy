/** A caller of IdentityRaces whom nobody interrupts does what the operation of
    IdentityOps does: the machine of store calls and the sequential operations
    describe one program. */
module IdentityAlone {
  import opened Common
  import opened Identity
  import opened IdentityOps
  import opened IdentityRaces
  import Tenant
  import Ops = IdentityOps

  /** These steps for as long as they can be taken; a refused call takes no more. */
  function Attempt(cfg: Config, w: World, steps: seq<Step>): World
    decreases |steps|
  {
    if steps == [] then w
    else
      match Next(cfg, w, steps[0])
      case None => w
      case Some(w') => Attempt(cfg, w', steps[1..])
  }

  lemma {:induction false} AttemptIsRun(cfg: Config, w: World, steps: seq<Step>) returns (n: nat)
    ensures n <= |steps| && Run(cfg, w, steps[..n]) == Some(Attempt(cfg, w, steps))
    decreases |steps|
  {
    n := 0;
    if steps != [] && Next(cfg, w, steps[0]).Some? {
      var m := AttemptIsRun(cfg, Next(cfg, w, steps[0]).value, steps[1..]);
      n := m + 1;
      assert steps[..n][1..] == steps[1..][..m];
    }
  }

  lemma RefusedStops(cfg: Config, w: World, q: nat, steps: seq<Step>)
    requires PhaseOf(w, q).Refused? && steps != []
    requires steps[0].Mark? || steps[0].ReadInvitation? || steps[0].Count? || steps[0].Create? || steps[0].ReadIdentity?
    requires steps[0].q == q
    ensures Attempt(cfg, w, steps) == w
  {
  }

  function AcceptSteps(q: nat, t: Tenant.ID, token: string, password: string, userID: string, hash: PasswordHash): seq<Step>
  {
    [BeginAccept(q, t, token, password)] + MarkSteps(q, userID, hash)
  }

  function MarkSteps(q: nat, userID: string, hash: PasswordHash): seq<Step>
  {
    [ReadInvitation(q), Mark(q)] + RegisterSteps(q, userID, hash)
  }

  function RegisterSteps(q: nat, userID: string, hash: PasswordHash): seq<Step>
  {
    [Count(q), Create(q, userID, hash)]
  }

  /** The machine leaves out the tokens issued at the end. */
  function LessTokens(s: Store, before: Store): Store
  {
    s.(sessions := before.sessions, hashes := before.hashes)
  }

  /** Caller q has come from w to what the operation leaves and answers. */
  predicate Agrees(w: World, q: nat, userID: string, outcome: (Store, Result<Registered, Error>), w': World)
  {
    && w'.store == LessTokens(outcome.0, w.store)
    && (PhaseOf(w', q).Accepted? || PhaseOf(w', q).Refused?)
    && (PhaseOf(w', q).Accepted? <==> userID in outcome.0.users)
    && (outcome.1.Ok? ==> PhaseOf(w', q).Accepted? && PhaseOf(w', q).userID == outcome.1.value.user.id)
  }

  lemma CreateAlone(cfg: Config, w: World, q: nat, p: Phase, hash: PasswordHash, userID: string)
    requires p.Creating? && PhaseOf(w, q) == p && userID != "" && userID !in w.store.users
    ensures var u := NewUser(Tenant.FromStored(p.inv.tenantID), p.email, userID, hash, w.now);
            Attempt(cfg, w, [Create(q, userID, hash)]) == AfterCreate(w, q, p.inv, u)
  {
    var u := NewUser(Tenant.FromStored(p.inv.tenantID), p.email, userID, hash, w.now);
    assert [Create(q, userID, hash)][1..] == [];
    assert Attempt(cfg, AfterCreate(w, q, p.inv, u), []) == AfterCreate(w, q, p.inv, u);
  }

  lemma TokensTouchSessions(cfg: Config, s: Store, userID: string, t: Tenant.ID, authTime: int, acr: string, amr: seq<string>, d: Draw, now: Time)
    ensures LessTokens(IssueTokens(cfg, s, userID, t, authTime, acr, amr, d, now).0, s) == s
  {
  }

  /** Register, less the tokens, with input that is not refused. */
  lemma RegisterStores(cfg: Config, s: Store, t: Tenant.ID, email: string, password: string, hash: PasswordHash, userID: string, d: Draw, now: Time)
    requires NormaliseEmail(email).Ok? && PasswordAllowed(password) && t.Valid()
    ensures var u := NewUser(t, NormaliseEmail(email).value, userID, hash, now);
            var (s', r) := Ops.Register(cfg, s, t, email, password, hash, userID, d, now);
            if CreateUser(s, u).Err? then s' == s && r.Err?
            else LessTokens(s', s) == CreateUser(s, u).value && s'.users == s.users[userID := u] && (r.Ok? ==> r.value.user == u)
  {
    var u := NewUser(t, NormaliseEmail(email).value, userID, hash, now);
    if CreateUser(s, u).Ok? {
      TokensTouchSessions(cfg, CreateUser(s, u).value, u.id, Tenant.FromStored(u.tenantID), Unix(now), cfg.defaultACR, [], d, now);
    }
  }

  lemma RegisterAlone(cfg: Config, w: World, q: nat, inv: Invitation, password: string, hash: PasswordHash, userID: string, d: Draw)
    requires PhaseOf(w, q) == Counting(inv) && PasswordAllowed(password) && userID != "" && userID !in w.store.users
    ensures Agrees(w, q, userID, Ops.Register(cfg, w.store, Tenant.FromStored(inv.tenantID), inv.email, password, hash, userID, d, w.now),
                   Attempt(cfg, w, RegisterSteps(q, userID, hash)))
  {
    assert RegisterSteps(q, userID, hash)[1..] == [Create(q, userID, hash)];
    var w1 := Next(cfg, w, Count(q)).value;
    assert Attempt(cfg, w, RegisterSteps(q, userID, hash)) == Attempt(cfg, w1, [Create(q, userID, hash)]);
    if NormaliseEmail(inv.email).Err? {
      RefusedStops(cfg, w1, q, [Create(q, userID, hash)]);
    } else {
      CreateAlone(cfg, w1, q, PhaseOf(w1, q), hash, userID);
      RegisterStores(cfg, w.store, Tenant.FromStored(inv.tenantID), inv.email, password, hash, userID, d, w.now);
    }
  }

  lemma MarkAlone(cfg: Config, w: World, q: nat, t: Tenant.ID, token: string, password: string, hash: PasswordHash, userID: string, d: Draw)
    requires t.Valid() && PasswordAllowed(password) && cfg.hashToken(token).Some? && userID != "" && userID !in w.store.users
    requires PhaseOf(w, q) == ReadingInvitation(t, cfg.hashToken(token).value)
    ensures Agrees(w, q, userID, Ops.AcceptInvitation(cfg, w.store, t, token, password, hash, userID, d, w.now),
                   Attempt(cfg, w, MarkSteps(q, userID, hash)))
  {
    var steps := MarkSteps(q, userID, hash);
    var w1 := Next(cfg, w, ReadInvitation(q)).value;
    var rest := [Mark(q)] + RegisterSteps(q, userID, hash);
    assert steps[1..] == rest && rest[1..] == RegisterSteps(q, userID, hash);
    assert Attempt(cfg, w, steps) == Attempt(cfg, w1, rest);
    if PhaseOf(w1, q).Refused? {
      RefusedStops(cfg, w1, q, rest);
    } else {
      var inv := PhaseOf(w1, q).inv;
      var w2 := Next(cfg, w1, Mark(q)).value;
      assert Attempt(cfg, w1, rest) == Attempt(cfg, w2, RegisterSteps(q, userID, hash));
      if PhaseOf(w2, q).Refused? {
        RefusedStops(cfg, w2, q, RegisterSteps(q, userID, hash));
      } else {
        RegisterAlone(cfg, w2, q, inv, password, hash, userID, d);
      }
    }
  }

  /** AcceptInvitation with no other step in between: the store it leaves, less the tokens,
      is the operation's, and an account comes of it exactly when the operation makes one. */
  lemma UninterruptedAccept(cfg: Config, w: World, q: nat, t: Tenant.ID, token: string, password: string, hash: PasswordHash, userID: string, d: Draw)
    requires PhaseOf(w, q).Idle? && userID != "" && userID !in w.store.users
    ensures Agrees(w, q, userID, Ops.AcceptInvitation(cfg, w.store, t, token, password, hash, userID, d, w.now),
                   Attempt(cfg, w, AcceptSteps(q, t, token, password, userID, hash)))
  {
    var steps := AcceptSteps(q, t, token, password, userID, hash);
    var w1 := Next(cfg, w, BeginAccept(q, t, token, password)).value;
    assert steps[1..] == MarkSteps(q, userID, hash);
    if PhaseOf(w1, q).Refused? {
      RefusedStops(cfg, w1, q, steps[1..]);
    } else {
      MarkAlone(cfg, w1, q, t, token, password, hash, userID, d);
    }
  }

  function LinkSteps(q: nat, t: Tenant.ID, userID: string, provider: string, subject: string, found: Option<string>, identityID: string): seq<Step>
  {
    [BeginLink(q, t, userID, provider, subject), ReadUser(q)] + [ReadIdentity(q, found), Insert(q, identityID)]
  }

  /** Link with no other step in between is the operation the class performs, whichever identity the lookup finds. */
  lemma UninterruptedLink(cfg: Config, w: World, q: nat, t: Tenant.ID, userID: string, provider: string, subject: string, found: Option<string>, identityID: string)
    requires PhaseOf(w, q).Idle? && identityID !in w.store.identities && Finds(w.store, t, provider, subject, found)
    ensures var w' := Attempt(cfg, w, LinkSteps(q, t, userID, provider, subject, found, identityID));
            && (PhaseOf(w', q).Linked? || PhaseOf(w', q).Refused?)
            && exists r :: Links(w.store, t, userID, provider, subject, identityID, w.now, w'.store, r)
                 && (if PhaseOf(w', q).Linked? then r == Ok(PhaseOf(w', q).x) else r.Err?)
  {
    var steps := LinkSteps(q, t, userID, provider, subject, found, identityID);
    var w1 := Next(cfg, w, BeginLink(q, t, userID, provider, subject)).value;
    var w2 := Next(cfg, w1, ReadUser(q)).value;
    var last := [ReadIdentity(q, found), Insert(q, identityID)];
    assert steps[1..][1..] == last && steps[1..][0] == ReadUser(q);
    assert Attempt(cfg, w, steps) == Attempt(cfg, w1, steps[1..]) == Attempt(cfg, w2, last);
    if PhaseOf(w2, q).Refused? {
      RefusedStops(cfg, w2, q, last);
      assert Links(w.store, t, userID, provider, subject, identityID, w.now, w2.store, Err(NotFound));
    } else {
      DecideAlone(cfg, w2, q, t, userID, provider, subject, found, identityID);
    }
  }

  lemma DecideAlone(cfg: Config, w: World, q: nat, t: Tenant.ID, userID: string, provider: string, subject: string, found: Option<string>, identityID: string)
    requires PhaseOf(w, q) == ReadingIdentity(t, userID, provider, subject) && UserInTenant(w.store, userID, t).Ok?
    requires identityID !in w.store.identities && Finds(w.store, t, provider, subject, found)
    ensures var w' := Attempt(cfg, w, [ReadIdentity(q, found), Insert(q, identityID)]);
            && (PhaseOf(w', q).Linked? || PhaseOf(w', q).Refused?)
            && exists r :: Links(w.store, t, userID, provider, subject, identityID, w.now, w'.store, r)
                 && (if PhaseOf(w', q).Linked? then r == Ok(PhaseOf(w', q).x) else r.Err?)
  {
    var last := [ReadIdentity(q, found), Insert(q, identityID)];
    var w1 := Next(cfg, w, ReadIdentity(q, found)).value;
    assert last[1..] == [Insert(q, identityID)] && [Insert(q, identityID)][1..] == [];
    assert Attempt(cfg, w, last) == Attempt(cfg, w1, [Insert(q, identityID)]);
    if found.Some? {
      assert Attempt(cfg, w1, [Insert(q, identityID)]) == w1;
      var r := if w.store.identities[found.value].userID == userID then Ok(w.store.identities[found.value]) else Err(LinkConflict);
      assert Links(w.store, t, userID, provider, subject, identityID, w.now, w1.store, r);
    } else {
      var x := NewIdentity(t, userID, provider, subject, identityID, w.now);
      var w2 := Next(cfg, w1, Insert(q, identityID)).value;
      assert Attempt(cfg, w2, []) == w2;
      assert Links(w.store, t, userID, provider, subject, identityID, w.now, w2.store, Ok(x));
    }
  }
}
