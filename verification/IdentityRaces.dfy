/** AcceptInvitation and Link by any number of callers at once, each taken one
    store call at a time, beside invites, registrations, federated sign-ups and
    unlinks. Provisioning is one store call; Unlink, which the source does not
    guard with a compare-and-set, is taken as one step. */
module IdentityRaces {
  import opened Common
  import opened Identity
  import opened IdentityOps
  import Tenant

  /** How far a caller has come, named by the store call it makes next. */
  datatype Phase =
    | Idle
    // AcceptInvitation
    | ReadingInvitation(t: Tenant.ID, hash: string)
    | Marking(inv: Invitation)
    | Counting(inv: Invitation)
    | Creating(inv: Invitation, email: string, first: bool)
    | Accepted(inv: Invitation, userID: string)
    // Link
    | ReadingUser(t: Tenant.ID, userID: string, provider: string, subject: string)
    | ReadingIdentity(t: Tenant.ID, userID: string, provider: string, subject: string)
    | Inserting(t: Tenant.ID, userID: string, provider: string, subject: string)
    | Refetching(t: Tenant.ID, userID: string, provider: string, subject: string)
    | Linked(t: Tenant.ID, userID: string, provider: string, subject: string, x: LinkedIdentity)
    // either
    | Refused

  datatype Account = Account(invitationID: string, userID: string)

  /** accounts lists every account made from an invitation, in order. */
  datatype World = World(store: Store, callers: map<nat, Phase>, accounts: seq<Account>, now: Time)

  datatype Step =
    | BeginAccept(q: nat, t: Tenant.ID, token: string, password: string)
    | ReadInvitation(q: nat)
    | Mark(q: nat)
    | Count(q: nat)
    | Create(q: nat, userID: string, passwordHash: PasswordHash)
    | BeginLink(q: nat, t: Tenant.ID, userID: string, provider: string, subject: string)
    | ReadUser(q: nat)
    | ReadIdentity(q: nat, found: Option<string>)
    | Insert(q: nat, identityID: string)
    | Refetch(q: nat, found: Option<string>)
    | Return(q: nat)
    | DoInvite(t: Tenant.ID, email: string, invitedBy: string, ttl: int, d: Draw)
    | DoCreateUser(t: Tenant.ID, email: string, userID: string, passwordHash: PasswordHash)
    | DoProvision(t: Tenant.ID, email: string, provider: string, subject: string, userID: string, identityID: string)
    | DoUnlink(t: Tenant.ID, userID: string, identityID: string)
    | Tick(later: Time)

  function PhaseOf(w: World, q: nat): Phase
  {
    if q in w.callers then w.callers[q] else Idle
  }

  function Move(w: World, q: nat, p: Phase): World
  {
    w.(callers := w.callers[q := p])
  }

  /** What a lookup by credential may answer. */
  predicate Finds(s: Store, t: Tenant.ID, provider: string, subject: string, found: Option<string>)
  {
    match found
    case None => !CredentialTaken(s, t.String(), provider, subject)
    case Some(id) => id in s.identities && SameCredential(s.identities[id], t.String(), provider, subject)
  }

  function NewUser(t: Tenant.ID, email: string, userID: string, passwordHash: string, now: Time): User
  {
    User(userID, t.String(), email, passwordHash, true, false, now)
  }

  function NewIdentity(t: Tenant.ID, userID: string, provider: string, subject: string, id: string, now: Time): LinkedIdentity
  {
    LinkedIdentity(id, userID, t.String(), provider, subject, now, None)
  }

  /** The caller's own, or somebody else's. */
  function Decided(p: Phase, x: LinkedIdentity): Phase
    requires p.ReadingIdentity? || p.Refetching?
  {
    if x.userID == p.userID then Linked(p.t, p.userID, p.provider, p.subject, x) else Refused
  }

  /** The account is made, or its address was taken. */
  function AfterCreate(w: World, q: nat, inv: Invitation, u: User): World
  {
    var r := CreateUser(w.store, u);
    if r.Err? then Move(w, q, Refused)
    else Move(w, q, Accepted(inv, u.id)).(store := r.value, accounts := w.accounts + [Account(inv.id, u.id)])
  }

  function Next(cfg: Config, w: World, s: Step): Option<World>
  {
    match s
    case BeginAccept(q, t, token, password) =>
      if !PhaseOf(w, q).Idle? then None
      else if !t.Valid() || !PasswordAllowed(password) || cfg.hashToken(token).None? then Some(Move(w, q, Refused))
      else Some(Move(w, q, ReadingInvitation(t, cfg.hashToken(token).value)))
    case ReadInvitation(q) =>
      if !PhaseOf(w, q).ReadingInvitation? then None
      else
        var r := InvitationByHash(w.store, PhaseOf(w, q).hash);
        if r.Err? || r.value.tenantID != PhaseOf(w, q).t.String() || !r.value.Usable(w.now)
        then Some(Move(w, q, Refused)) else Some(Move(w, q, Marking(r.value)))
    case Mark(q) =>
      if !PhaseOf(w, q).Marking? then None
      else
        var inv := PhaseOf(w, q).inv;
        var r := MarkAccepted(w.store, inv.id, w.now);
        if r.Err? then Some(Move(w, q, Refused)) else Some(Move(w, q, Counting(inv)).(store := r.value))
    case Count(q) =>
      if !PhaseOf(w, q).Counting? then None
      else
        var inv := PhaseOf(w, q).inv;
        if NormaliseEmail(inv.email).Err? then Some(Move(w, q, Refused))
        else Some(Move(w, q, Creating(inv, NormaliseEmail(inv.email).value, UsersOf(w.store, Tenant.FromStored(inv.tenantID)) == {})))
    case Create(q, userID, passwordHash) =>
      if !PhaseOf(w, q).Creating? || userID == "" || userID in w.store.users then None
      else
        var p := PhaseOf(w, q);
        Some(AfterCreate(w, q, p.inv, NewUser(Tenant.FromStored(p.inv.tenantID), p.email, userID, passwordHash, w.now)))
    case BeginLink(q, t, userID, provider, subject) =>
      if !PhaseOf(w, q).Idle? then None else Some(Move(w, q, ReadingUser(t, userID, provider, subject)))
    case ReadUser(q) =>
      if !PhaseOf(w, q).ReadingUser? then None
      else
        var p := PhaseOf(w, q);
        if UserInTenant(w.store, p.userID, p.t).Err? then Some(Move(w, q, Refused))
        else Some(Move(w, q, ReadingIdentity(p.t, p.userID, p.provider, p.subject)))
    case ReadIdentity(q, found) =>
      if !PhaseOf(w, q).ReadingIdentity? || !Finds(w.store, PhaseOf(w, q).t, PhaseOf(w, q).provider, PhaseOf(w, q).subject, found) then None
      else
        var p := PhaseOf(w, q);
        Some(Move(w, q, if found.Some? then Decided(p, w.store.identities[found.value]) else Inserting(p.t, p.userID, p.provider, p.subject)))
    case Insert(q, identityID) =>
      if !PhaseOf(w, q).Inserting? || identityID in w.store.identities then None
      else
        var p := PhaseOf(w, q);
        var x := NewIdentity(p.t, p.userID, p.provider, p.subject, identityID, w.now);
        var r := InsertIdentity(w.store, x);
        if r.Err? then Some(Move(w, q, Refetching(p.t, p.userID, p.provider, p.subject)))
        else Some(Move(w, q, Linked(p.t, p.userID, p.provider, p.subject, x)).(store := r.value))
    case Refetch(q, found) =>
      if !PhaseOf(w, q).Refetching? || !Finds(w.store, PhaseOf(w, q).t, PhaseOf(w, q).provider, PhaseOf(w, q).subject, found) then None
      else Some(Move(w, q, if found.Some? then Decided(PhaseOf(w, q), w.store.identities[found.value]) else Refused))
    case Return(q) =>
      if !PhaseOf(w, q).Accepted? && !PhaseOf(w, q).Linked? && !PhaseOf(w, q).Refused? then None else Some(Move(w, q, Idle))
    case DoInvite(t, email, invitedBy, ttl, d) =>
      if d.sessionID in w.store.invitations then None
      else Some(w.(store := Invite(cfg, w.store, t, email, invitedBy, ttl, d, w.now).0))
    case DoCreateUser(t, email, userID, passwordHash) =>
      if userID == "" || userID in w.store.users || !t.Valid() || NormaliseEmail(email).Err? then None
      else
        var r := CreateUser(w.store, NewUser(t, NormaliseEmail(email).value, userID, passwordHash, w.now));
        if r.Err? then None else Some(w.(store := r.value))
    case DoProvision(t, email, provider, subject, userID, identityID) =>
      if userID == "" || userID in w.store.users || identityID in w.store.identities then None
      else Some(w.(store := Provision(w.store, t, email, provider, subject, userID, identityID, w.now).0))
    case DoUnlink(t, userID, identityID) => Some(w.(store := Unlink(w.store, t, userID, identityID).0))
    case Tick(later) => if later < w.now then None else Some(w.(now := later))
  }

  function Run(cfg: Config, w: World, steps: seq<Step>): Option<World>
    decreases |steps|
  {
    if steps == [] then Some(w)
    else
      match Next(cfg, w, steps[0])
      case None => None
      case Some(w') => Run(cfg, w', steps[1..])
  }

  function Start(now: Time): World
  {
    World(EmptyStore(), map[], [], now)
  }

  // ----- the invariant -----

  /** Users under their own ids, found by their address, one to an address and tenant. */
  predicate UsersOk(s: Store)
  {
    && (forall id :: id in s.users ==> s.users[id].id == id && Found(s, s.users[id]))
    && (forall k :: k in s.emails ==> s.emails[k] in s.users && (s.users[s.emails[k]].tenantID, s.users[s.emails[k]].email) == k)
  }

  predicate Found(s: Store, u: User)
  {
    (u.tenantID, u.email) in s.emails && s.emails[(u.tenantID, u.email)] == u.id
  }

  /** Every identity is a stored user's, in that user's tenant; a credential is linked once. */
  predicate IdentitiesOk(s: Store)
  {
    && (forall id :: id in s.identities ==> s.identities[id].id == id && Stored(s, s.identities[id].userID, s.identities[id].tenantID))
    && (forall a, b :: a in s.identities && b in s.identities && SameKey(s.identities[a], s.identities[b]) ==> a == b)
  }

  predicate SameKey(x: LinkedIdentity, y: LinkedIdentity)
  {
    SameCredential(x, y.tenantID, y.provider, y.subject)
  }

  /** Every user can still sign in by some method. */
  predicate MethodsOk(s: Store)
  {
    forall id :: id in s.users ==> s.users[id].passwordHash != "" || HasIdentity(s, id)
  }

  predicate HasIdentity(s: Store, userID: string)
  {
    exists id :: id in s.identities && s.identities[id].userID == userID
  }

  /** Invited addresses are in normal form. */
  predicate EmailsOk(s: Store)
  {
    forall id :: id in s.invitations ==> Normal(s.invitations[id].email)
  }

  predicate Normal(email: string)
  {
    NormaliseEmail(email) == Ok(email)
  }

  /** The caller's copy of an invitation, which only its acceptance can make out of date. */
  predicate Known(s: Store, inv: Invitation)
  {
    inv.id in s.invitations && s.invitations[inv.id].email == inv.email && s.invitations[inv.id].tenantID == inv.tenantID
  }

  predicate Consumed(s: Store, id: string)
  {
    id in s.invitations && !s.invitations[id].Pending()
  }

  predicate Logged(accounts: seq<Account>, invitationID: string)
  {
    exists i :: 0 <= i < |accounts| && accounts[i].invitationID == invitationID
  }

  predicate PhaseOk(w: World, p: Phase)
  {
    match p
    case Marking(inv) => Known(w.store, inv)
    case Counting(inv) => Known(w.store, inv) && Consumed(w.store, inv.id) && !Logged(w.accounts, inv.id)
    case Creating(inv, email, _) => email == inv.email && Known(w.store, inv) && Consumed(w.store, inv.id) && !Logged(w.accounts, inv.id)
    case Accepted(inv, userID) => Account(inv.id, userID) in w.accounts
    case ReadingIdentity(t, userID, _, _) => Stored(w.store, userID, t.String())
    case Inserting(t, userID, _, _) => Stored(w.store, userID, t.String())
    case Refetching(t, userID, _, _) => Stored(w.store, userID, t.String())
    case Linked(t, userID, provider, subject, x) => x.userID == userID && SameCredential(x, t.String(), provider, subject)
    case _ => true
  }

  /** Between consuming an invitation and creating its account. */
  predicate Holding(p: Phase)
  {
    p.Counting? || p.Creating?
  }

  predicate CallersOk(w: World)
  {
    && (forall q :: q in w.callers ==> PhaseOk(w, w.callers[q]))
    && (forall q, r :: q in w.callers && r in w.callers && q != r && Holding(w.callers[q]) && Holding(w.callers[r]) ==>
          w.callers[q].inv.id != w.callers[r].inv.id)
  }

  /** The account has the invited address, in the inviting tenant. */
  predicate AccountOk(s: Store, a: Account)
  {
    && Consumed(s, a.invitationID) && a.userID in s.users
    && s.users[a.userID].email == s.invitations[a.invitationID].email
    && s.users[a.userID].tenantID == s.invitations[a.invitationID].tenantID
  }

  predicate AccountsOk(w: World)
  {
    && (forall i :: 0 <= i < |w.accounts| ==> AccountOk(w.store, w.accounts[i]))
    && (forall i, j :: 0 <= i < j < |w.accounts| ==> w.accounts[i].invitationID != w.accounts[j].invitationID)
  }

  predicate StoreOk(s: Store)
  {
    && UsersOk(s) && IdentitiesOk(s) && MethodsOk(s)
    && forall id :: id in s.invitations ==> s.invitations[id].id == id
  }

  predicate Invariant(w: World)
  {
    StoreOk(w.store) && EmailsOk(w.store) && CallersOk(w) && AccountsOk(w) && w.now > ZERO_TIME
  }

  // ----- what the steps keep -----

  lemma MoveKeepsCallers(w: World, q: nat, p: Phase)
    requires CallersOk(w) && PhaseOk(w, p)
    requires Holding(p) ==> Holding(PhaseOf(w, q)) && PhaseOf(w, q).inv.id == p.inv.id
    ensures CallersOk(Move(w, q, p))
  {
    var w' := Move(w, q, p);
    forall r | r in w'.callers ensures PhaseOk(w', w'.callers[r]) {
      if r != q { assert PhaseOk(w, w.callers[r]); }
    }
  }

  lemma MoveKeeps(w: World, q: nat, p: Phase)
    requires Invariant(w) && PhaseOk(w, p)
    requires Holding(p) ==> Holding(PhaseOf(w, q)) && PhaseOf(w, q).inv.id == p.inv.id
    ensures Invariant(Move(w, q, p))
  {
    MoveKeepsCallers(w, q, p);
  }

  /** Another store: invitations go on as they were or were consumed, users are only added. */
  predicate Extends(s: Store, s': Store)
  {
    && (forall id :: id in s.users ==> id in s'.users && s'.users[id] == s.users[id])
    && (forall id :: id in s.invitations ==> SameInvitation(s, s', id))
  }

  predicate SameInvitation(s: Store, s': Store, id: string)
    requires id in s.invitations
  {
    && id in s'.invitations
    && s'.invitations[id].email == s.invitations[id].email && s'.invitations[id].tenantID == s.invitations[id].tenantID
    && (!s.invitations[id].Pending() ==> !s'.invitations[id].Pending())
  }

  lemma PhaseExtends(w: World, s': Store, p: Phase)
    requires PhaseOk(w, p) && Extends(w.store, s')
    ensures PhaseOk(w.(store := s'), p)
  {
  }

  lemma EmailsKeep(s: Store, s': Store)
    requires EmailsOk(s) && Extends(s, s') && s'.invitations.Keys == s.invitations.Keys
    ensures EmailsOk(s')
  {
    forall id | id in s'.invitations ensures Normal(s'.invitations[id].email) {
      assert SameInvitation(s, s', id);
    }
  }

  /** The store changes, no new invitation among the changes. */
  lemma OldInvitationsKeep(w: World, s': Store)
    requires Invariant(w) && Extends(w.store, s') && StoreOk(s') && s'.invitations.Keys == w.store.invitations.Keys
    ensures Invariant(w.(store := s'))
  {
    EmailsKeep(w.store, s');
    StoreKeeps(w, s');
  }

  lemma StoreKeeps(w: World, s': Store)
    requires Invariant(w) && Extends(w.store, s') && StoreOk(s') && EmailsOk(s')
    ensures Invariant(w.(store := s'))
  {
    var w' := w.(store := s');
    forall q | q in w'.callers ensures PhaseOk(w', w'.callers[q]) {
      PhaseExtends(w, s', w.callers[q]);
    }
    forall i | 0 <= i < |w.accounts| ensures AccountOk(s', w.accounts[i]) {
      assert AccountOk(w.store, w.accounts[i]);
    }
  }

  lemma CreateUserKeeps(s: Store, u: User)
    requires StoreOk(s) && u.id !in s.users && u.passwordHash != "" && CreateUser(s, u).Ok?
    ensures StoreOk(CreateUser(s, u).value) && Extends(s, CreateUser(s, u).value)
  {
    CreateUserKeepsUsers(s, u);
    KeepsIdentities(s, CreateUser(s, u).value);
    var s1 := CreateUser(s, u).value;
    forall id | id in s1.users ensures s1.users[id].passwordHash != "" || HasIdentity(s1, id) {
      if id != u.id && HasIdentity(s, id) {
        var k :| k in s.identities && s.identities[k].userID == id;
        assert k in s1.identities;
      }
    }
  }

  lemma CreateUserKeepsUsers(s: Store, u: User)
    requires UsersOk(s) && u.id !in s.users && CreateUser(s, u).Ok?
    ensures var s1 := CreateUser(s, u).value; UsersOk(s1) && Extends(s, s1) && s1.users == s.users[u.id := u]
  {
    var s1 := CreateUser(s, u).value;
    forall id | id in s1.users ensures s1.users[id].id == id && Found(s1, s1.users[id]) {
      if id != u.id { assert Found(s, s.users[id]); }
    }
  }

  /** Identities are as good as before when the users they name are still there. */
  lemma KeepsIdentities(s: Store, s': Store)
    requires IdentitiesOk(s) && Extends(s, s') && s'.identities == s.identities
    ensures IdentitiesOk(s')
  {
  }

  lemma InsertedIsUnique(s: Store, x: LinkedIdentity)
    requires IdentitiesOk(s) && x.id !in s.identities && Stored(s, x.userID, x.tenantID) && !CredentialTaken(s, x.tenantID, x.provider, x.subject)
    ensures IdentitiesOk(s.(identities := s.identities[x.id := x]))
  {
    var s1 := s.(identities := s.identities[x.id := x]);
    assert forall id :: id in s.identities ==> !SameKey(s.identities[id], x);
    forall id | id in s1.identities ensures Stored(s1, s1.identities[id].userID, s1.identities[id].tenantID) {
      if id != x.id { assert Stored(s, s.identities[id].userID, s.identities[id].tenantID); }
    }
  }

  lemma InsertedHasIdentity(s: Store, x: LinkedIdentity)
    requires x.id !in s.identities
    ensures var s1 := s.(identities := s.identities[x.id := x]);
            HasIdentity(s1, x.userID) && forall id :: HasIdentity(s, id) ==> HasIdentity(s1, id)
  {
    var s1 := s.(identities := s.identities[x.id := x]);
    assert s1.identities[x.id] == x;
    forall id | HasIdentity(s, id) ensures HasIdentity(s1, id) {
      var k :| k in s.identities && s.identities[k].userID == id;
      assert s1.identities[k] == s.identities[k];
    }
  }

  lemma InsertIdentityKeeps(s: Store, x: LinkedIdentity)
    requires UsersOk(s) && IdentitiesOk(s) && Stored(s, x.userID, x.tenantID) && x.id !in s.identities && InsertIdentity(s, x).Ok?
    ensures var s1 := InsertIdentity(s, x).value;
            UsersOk(s1) && IdentitiesOk(s1) && Extends(s, s1) && HasIdentity(s1, x.userID)
            && forall id :: HasIdentity(s, id) ==> HasIdentity(s1, id)
  {
    var s1 := InsertIdentity(s, x).value;
    InsertedIsUnique(s, x);
    InsertedHasIdentity(s, x);
    SameUsers(s, s1);
  }

  lemma LinkInsertKeeps(s: Store, x: LinkedIdentity)
    requires StoreOk(s) && Stored(s, x.userID, x.tenantID) && x.id !in s.identities && InsertIdentity(s, x).Ok?
    ensures StoreOk(InsertIdentity(s, x).value) && Extends(s, InsertIdentity(s, x).value)
  {
    InsertIdentityKeeps(s, x);
  }

  /** A user without a password, but with the identity that comes along. */
  lemma CreateAndLinkKeeps(s: Store, u: User, x: LinkedIdentity)
    requires StoreOk(s) && u.id !in s.users && x.id !in s.identities && x.userID == u.id && x.tenantID == u.tenantID
    requires ProvisionUser(s, u, x).Ok?
    ensures StoreOk(ProvisionUser(s, u, x).value) && Extends(s, ProvisionUser(s, u, x).value)
  {
    var s1 := CreateUser(s, u).value;
    CreateUserKeepsUsers(s, u);
    KeepsIdentities(s, s1);
    InsertIdentityKeeps(s1, x);
    KeepsMethods(s, s1);
    var s2 := InsertIdentity(s1, x).value;
    assert s2.users == s1.users;
    forall id | id in s2.users ensures s2.users[id].passwordHash != "" || HasIdentity(s2, id) {
      if id != u.id {
        assert s1.users[id] == s.users[id];
      }
    }
  }

  /** With the identities unchanged, who had one has one. */
  lemma KeepsMethods(s: Store, s': Store)
    requires s'.identities == s.identities
    ensures forall id :: HasIdentity(s, id) ==> HasIdentity(s', id)
  {
  }

  lemma ProvisionKeeps(s: Store, t: Tenant.ID, email: string, provider: string, subject: string, userID: string, identityID: string, now: Time)
    requires StoreOk(s) && userID !in s.users && identityID !in s.identities
    ensures var s' := Provision(s, t, email, provider, subject, userID, identityID, now).0; StoreOk(s') && Extends(s, s')
  {
    if t.Valid() {
      var u := User(userID, t.String(), email, "", true, false, now);
      var x := LinkedIdentity(identityID, userID, u.tenantID, provider, subject, now, Some(now));
      if ProvisionUser(s, u, x).Ok? {
        CreateAndLinkKeeps(s, u, x);
      }
    }
  }

  /** The guard does its work: what is left of a user's methods is never nothing. */
  lemma DeleteKeepsMethods(s: Store, userID: string, identityID: string)
    requires MethodsOk(s) && identityID in s.identities && s.identities[identityID].userID == userID && userID in s.users
    requires s.users[userID].passwordHash != "" || |IdentitiesOf(s, userID)| > 1
    ensures MethodsOk(DeleteIdentity(s, identityID))
  {
    var s' := DeleteIdentity(s, identityID);
    forall id | id in s'.users ensures s'.users[id].passwordHash != "" || HasIdentity(s', id) {
      if s.users[id].passwordHash == "" {
        var k :| k in s.identities && s.identities[k].userID == id;
        if k == identityID {
          OtherMember(IdentitiesOf(s, userID), identityID);
          var other :| other in IdentitiesOf(s, userID) && other != identityID;
          assert other in s'.identities && s'.identities[other].userID == id;
        } else {
          assert k in s'.identities && s'.identities[k].userID == id;
        }
      }
    }
  }

  lemma SameUsers(s: Store, s': Store)
    requires UsersOk(s) && s'.users == s.users && s'.emails == s.emails
    ensures UsersOk(s')
  {
  }

  lemma UnlinkKeeps(s: Store, t: Tenant.ID, userID: string, identityID: string)
    requires StoreOk(s)
    ensures StoreOk(Unlink(s, t, userID, identityID).0) && Extends(s, Unlink(s, t, userID, identityID).0)
  {
    if Unlink(s, t, userID, identityID).1.Ok? {
      var s' := DeleteIdentity(s, identityID);
      SameUsers(s, s');
      DeleteKeepsMethods(s, userID, identityID);
      KeepsFewerIdentities(s, s', identityID);
    }
  }

  lemma KeepsFewerIdentities(s: Store, s': Store, identityID: string)
    requires IdentitiesOk(s) && s' == DeleteIdentity(s, identityID)
    ensures IdentitiesOk(s')
  {
  }

  lemma OtherMember(ids: set<string>, id: string)
    requires id in ids && |ids| > 1
    ensures exists k :: k in ids && k != id
  {
    assert ids == (ids - {id}) + {id} && |ids - {id}| == |ids| - 1;
    var k :| k in ids - {id};
  }

  /** Invite stores one invitation, under a normal address, or nothing. */
  lemma InviteStores(cfg: Config, s: Store, t: Tenant.ID, email: string, invitedBy: string, ttl: int, d: Draw, now: Time)
    ensures var (s', r) := Invite(cfg, s, t, email, invitedBy, ttl, d, now);
            if r.Ok? then r.value.id == d.sessionID && Normal(r.value.email) && CreateInvitation(s, r.value) == Ok(s') else s' == s
  {
    var (s', r) := Invite(cfg, s, t, email, invitedBy, ttl, d, now);
    if r.Ok? {
      assert NormaliseEmail(email) == Ok(r.value.email) && CreateInvitation(s, r.value) == Ok(s');
      NormaliseIsIdempotent(email);
    }
  }

  lemma InviteKeeps(cfg: Config, s: Store, t: Tenant.ID, email: string, invitedBy: string, ttl: int, d: Draw, now: Time)
    requires StoreOk(s) && EmailsOk(s) && d.sessionID !in s.invitations
    ensures var s' := Invite(cfg, s, t, email, invitedBy, ttl, d, now).0; StoreOk(s') && EmailsOk(s') && Extends(s, s')
  {
    InviteStores(cfg, s, t, email, invitedBy, ttl, d, now);
    var r := Invite(cfg, s, t, email, invitedBy, ttl, d, now).1;
    if r.Ok? {
      NewInvitationKeeps(s, r.value);
      NewEmailKeeps(s, r.value);
    }
  }

  lemma NewInvitationKeeps(s: Store, inv: Invitation)
    requires StoreOk(s) && inv.id !in s.invitations && CreateInvitation(s, inv).Ok?
    ensures StoreOk(CreateInvitation(s, inv).value) && Extends(s, CreateInvitation(s, inv).value)
  {
    SameUsersAndIdentities(s, CreateInvitation(s, inv).value);
  }

  lemma NewEmailKeeps(s: Store, inv: Invitation)
    requires EmailsOk(s) && Normal(inv.email) && CreateInvitation(s, inv).Ok?
    ensures EmailsOk(CreateInvitation(s, inv).value)
  {
  }

  lemma SameUsersAndIdentities(s: Store, s': Store)
    requires UsersOk(s) && IdentitiesOk(s) && MethodsOk(s)
    requires s' == s.(invitations := s'.invitations, invHashes := s'.invHashes)
    ensures UsersOk(s') && IdentitiesOk(s') && MethodsOk(s')
  {
  }

  /** A pending invitation is held by nobody, and no account came of it. */
  lemma PendingIsFree(w: World, id: string)
    requires Invariant(w) && id in w.store.invitations && w.store.invitations[id].Pending()
    ensures forall p :: p in w.callers && Holding(w.callers[p]) ==> w.callers[p].inv.id != id
    ensures !Logged(w.accounts, id)
  {
    forall p | p in w.callers && Holding(w.callers[p]) ensures w.callers[p].inv.id != id {
      assert PhaseOk(w, w.callers[p]);
    }
    forall i | 0 <= i < |w.accounts| ensures w.accounts[i].invitationID != id {
      assert AccountOk(w.store, w.accounts[i]);
    }
  }

  lemma MarkedKeeps(s: Store, id: string, at: Time)
    requires StoreOk(s) && MarkAccepted(s, id, at).Ok? && at > ZERO_TIME
    ensures var s' := MarkAccepted(s, id, at).value; StoreOk(s') && Extends(s, s') && Consumed(s', id)
  {
  }

  /** The compare-and-set admits one caller. */
  lemma MarkKeeps(cfg: Config, w: World, q: nat)
    requires Invariant(w) && Next(cfg, w, Mark(q)).Some?
    ensures Invariant(Next(cfg, w, Mark(q)).value)
  {
    var inv := PhaseOf(w, q).inv;
    var r := MarkAccepted(w.store, inv.id, w.now);
    if r.Err? {
      MoveKeeps(w, q, Refused);
    } else {
      PendingIsFree(w, inv.id);
      assert PhaseOk(w, PhaseOf(w, q));
      MarkedKeeps(w.store, inv.id, w.now);
      OldInvitationsKeep(w, r.value);
      StartHolding(w.(store := r.value), q, inv);
    }
  }

  lemma StartHolding(w: World, q: nat, inv: Invitation)
    requires Invariant(w) && PhaseOk(w, Counting(inv))
    requires forall p :: p in w.callers && Holding(w.callers[p]) ==> w.callers[p].inv.id != inv.id
    ensures Invariant(Move(w, q, Counting(inv)))
  {
    var w' := Move(w, q, Counting(inv));
    forall r | r in w'.callers ensures PhaseOk(w', w'.callers[r]) {
      if r != q { assert PhaseOk(w, w.callers[r]); }
    }
  }

  lemma AfterCreateKeeps(w: World, q: nat, inv: Invitation, u: User)
    requires Invariant(w) && PhaseOf(w, q).Creating? && PhaseOf(w, q).inv == inv && Known(w.store, inv) && Consumed(w.store, inv.id)
    requires u.id !in w.store.users && u.passwordHash != "" && u.email == inv.email && u.tenantID == inv.tenantID
    ensures Invariant(AfterCreate(w, q, inv, u))
  {
    if CreateUser(w.store, u).Err? {
      MoveKeeps(w, q, Refused);
    } else {
      AccountKeeps(w, q, inv, u);
    }
  }

  lemma CreateKeeps(cfg: Config, w: World, q: nat, userID: string, passwordHash: PasswordHash)
    requires Invariant(w) && Next(cfg, w, Create(q, userID, passwordHash)).Some?
    ensures Invariant(Next(cfg, w, Create(q, userID, passwordHash)).value)
  {
    var p := PhaseOf(w, q);
    assert PhaseOk(w, p);
    AfterCreateKeeps(w, q, p.inv, NewUser(Tenant.FromStored(p.inv.tenantID), p.email, userID, passwordHash, w.now));
  }

  lemma AccountKeeps(w: World, q: nat, inv: Invitation, u: User)
    requires Invariant(w) && PhaseOf(w, q).Creating? && PhaseOf(w, q).inv == inv && Known(w.store, inv) && Consumed(w.store, inv.id)
    requires u.id !in w.store.users && u.passwordHash != "" && u.email == inv.email && u.tenantID == inv.tenantID
    requires CreateUser(w.store, u).Ok?
    ensures Invariant(Move(w, q, Accepted(inv, u.id)).(store := CreateUser(w.store, u).value, accounts := w.accounts + [Account(inv.id, u.id)]))
  {
    var s1 := CreateUser(w.store, u).value;
    var w1 := w.(store := s1);
    CreateUserKeeps(w.store, u);
    OldInvitationsKeep(w, s1);
    assert s1.invitations == w.store.invitations && s1.users[u.id] == u;
    assert AccountOk(s1, Account(inv.id, u.id));
    LogKeeps(w1, q, inv, u.id);
    assert Move(w1, q, Accepted(inv, u.id)).(accounts := w1.accounts + [Account(inv.id, u.id)])
        == Move(w, q, Accepted(inv, u.id)).(store := s1, accounts := w.accounts + [Account(inv.id, u.id)]);
  }

  lemma AccountsGrow(w: World, a: Account)
    requires AccountsOk(w) && AccountOk(w.store, a) && !Logged(w.accounts, a.invitationID)
    ensures AccountsOk(w.(accounts := w.accounts + [a]))
  {
  }

  lemma LogKeeps(w: World, q: nat, inv: Invitation, userID: string)
    requires Invariant(w) && PhaseOf(w, q).Creating? && PhaseOf(w, q).inv == inv && AccountOk(w.store, Account(inv.id, userID))
    ensures Invariant(Move(w, q, Accepted(inv, userID)).(accounts := w.accounts + [Account(inv.id, userID)]))
  {
    var a := Account(inv.id, userID);
    assert PhaseOk(w, PhaseOf(w, q));
    AccountsGrow(w, a);
    LoggedCallers(w, q, inv, a);
  }

  lemma LoggedCallers(w: World, q: nat, inv: Invitation, a: Account)
    requires CallersOk(w) && PhaseOf(w, q).Creating? && PhaseOf(w, q).inv == inv && a.invitationID == inv.id
    ensures CallersOk(Move(w, q, Accepted(inv, a.userID)).(accounts := w.accounts + [a]))
  {
    var w' := Move(w, q, Accepted(inv, a.userID)).(accounts := w.accounts + [a]);
    assert a == w'.accounts[|w.accounts|];
    forall r | r in w'.callers ensures PhaseOk(w', w'.callers[r]) {
      if r != q { PhaseLogs(w, w.callers[r], a); }
    }
  }

  lemma PhaseLogs(w: World, p: Phase, a: Account)
    requires PhaseOk(w, p) && (Holding(p) ==> p.inv.id != a.invitationID)
    ensures PhaseOk(w.(accounts := w.accounts + [a]), p)
  {
  }

  lemma InsertKeeps(cfg: Config, w: World, q: nat, identityID: string)
    requires Invariant(w) && Next(cfg, w, Insert(q, identityID)).Some?
    ensures Invariant(Next(cfg, w, Insert(q, identityID)).value)
  {
    var p := PhaseOf(w, q);
    assert PhaseOk(w, p);
    var x := NewIdentity(p.t, p.userID, p.provider, p.subject, identityID, w.now);
    var r := InsertIdentity(w.store, x);
    if r.Err? {
      MoveKeeps(w, q, Refetching(p.t, p.userID, p.provider, p.subject));
    } else {
      LinkInsertKeeps(w.store, x);
      OldInvitationsKeep(w, r.value);
      MoveKeeps(w.(store := r.value), q, Linked(p.t, p.userID, p.provider, p.subject, x));
    }
  }

  lemma BeginKeeps(cfg: Config, w: World, s: Step)
    requires Invariant(w) && Next(cfg, w, s).Some? && (s.BeginAccept? || s.BeginLink? || s.Return?)
    ensures Invariant(Next(cfg, w, s).value)
  {
    MoveKeeps(w, s.q, PhaseOf(Next(cfg, w, s).value, s.q));
  }

  lemma ReadInvitationKeeps(cfg: Config, w: World, q: nat)
    requires Invariant(w) && Next(cfg, w, ReadInvitation(q)).Some?
    ensures Invariant(Next(cfg, w, ReadInvitation(q)).value)
  {
    MoveKeeps(w, q, PhaseOf(Next(cfg, w, ReadInvitation(q)).value, q));
  }

  lemma CountKeeps(cfg: Config, w: World, q: nat)
    requires Invariant(w) && Next(cfg, w, Count(q)).Some?
    ensures Invariant(Next(cfg, w, Count(q)).value)
  {
    assert PhaseOk(w, PhaseOf(w, q));
    var inv := PhaseOf(w, q).inv;
    assert Normal(inv.email) by { assert Normal(w.store.invitations[inv.id].email); }
    MoveKeeps(w, q, PhaseOf(Next(cfg, w, Count(q)).value, q));
  }

  lemma ReadUserKeeps(cfg: Config, w: World, q: nat)
    requires Invariant(w) && Next(cfg, w, ReadUser(q)).Some?
    ensures Invariant(Next(cfg, w, ReadUser(q)).value)
  {
    var p := PhaseOf(Next(cfg, w, ReadUser(q)).value, q);
    if p.ReadingIdentity? {
      assert w.store.users[p.userID].tenantID == p.t.String();
    }
    MoveKeeps(w, q, p);
  }

  lemma DecidedIsOk(w: World, p: Phase, x: LinkedIdentity)
    requires (p.ReadingIdentity? || p.Refetching?) && SameCredential(x, p.t.String(), p.provider, p.subject)
    ensures PhaseOk(w, Decided(p, x)) && !Holding(Decided(p, x))
  {
  }

  lemma ReadIdentityKeeps(cfg: Config, w: World, q: nat, found: Option<string>)
    requires Invariant(w) && Next(cfg, w, ReadIdentity(q, found)).Some?
    ensures Invariant(Next(cfg, w, ReadIdentity(q, found)).value)
  {
    var p := PhaseOf(w, q);
    assert PhaseOk(w, p);
    if found.Some? {
      DecidedIsOk(w, p, w.store.identities[found.value]);
      MoveKeeps(w, q, Decided(p, w.store.identities[found.value]));
    } else {
      MoveKeeps(w, q, Inserting(p.t, p.userID, p.provider, p.subject));
    }
  }

  lemma RefetchKeeps(cfg: Config, w: World, q: nat, found: Option<string>)
    requires Invariant(w) && Next(cfg, w, Refetch(q, found)).Some?
    ensures Invariant(Next(cfg, w, Refetch(q, found)).value)
  {
    if found.Some? {
      DecidedIsOk(w, PhaseOf(w, q), w.store.identities[found.value]);
      MoveKeeps(w, q, Decided(PhaseOf(w, q), w.store.identities[found.value]));
    } else {
      MoveKeeps(w, q, Refused);
    }
  }

  lemma InvitedKeeps(cfg: Config, w: World, t: Tenant.ID, email: string, invitedBy: string, ttl: int, d: Draw)
    requires Invariant(w) && d.sessionID !in w.store.invitations
    ensures Invariant(w.(store := Invite(cfg, w.store, t, email, invitedBy, ttl, d, w.now).0))
  {
    InviteKeeps(cfg, w.store, t, email, invitedBy, ttl, d, w.now);
    StoreKeeps(w, Invite(cfg, w.store, t, email, invitedBy, ttl, d, w.now).0);
  }

  lemma InviteStepKeeps(cfg: Config, w: World, s: Step)
    requires Invariant(w) && s.DoInvite? && Next(cfg, w, s).Some?
    ensures Invariant(Next(cfg, w, s).value)
  {
    InvitedKeeps(cfg, w, s.t, s.email, s.invitedBy, s.ttl, s.d);
  }

  lemma CreateUserStepKeeps(cfg: Config, w: World, s: Step)
    requires Invariant(w) && s.DoCreateUser? && Next(cfg, w, s).Some?
    ensures Invariant(Next(cfg, w, s).value)
  {
    var u := NewUser(s.t, NormaliseEmail(s.email).value, s.userID, s.passwordHash, w.now);
    CreateUserKeeps(w.store, u);
    OldInvitationsKeep(w, CreateUser(w.store, u).value);
  }

  lemma ProvisionLeavesInvitations(s: Store, t: Tenant.ID, email: string, provider: string, subject: string, userID: string, identityID: string, now: Time)
    ensures Provision(s, t, email, provider, subject, userID, identityID, now).0.invitations == s.invitations
  {
  }

  lemma ProvisionStepKeeps(cfg: Config, w: World, s: Step)
    requires Invariant(w) && s.DoProvision? && Next(cfg, w, s).Some?
    ensures Invariant(Next(cfg, w, s).value)
  {
    var s' := Provision(w.store, s.t, s.email, s.provider, s.subject, s.userID, s.identityID, w.now).0;
    assert Next(cfg, w, s) == Some(w.(store := s'));
    ProvisionKeeps(w.store, s.t, s.email, s.provider, s.subject, s.userID, s.identityID, w.now);
    ProvisionLeavesInvitations(w.store, s.t, s.email, s.provider, s.subject, s.userID, s.identityID, w.now);
    OldInvitationsKeep(w, s');
  }

  lemma UnlinkStepKeeps(cfg: Config, w: World, s: Step)
    requires Invariant(w) && s.DoUnlink? && Next(cfg, w, s).Some?
    ensures Invariant(Next(cfg, w, s).value)
  {
    UnlinkKeeps(w.store, s.t, s.userID, s.identityID);
    OldInvitationsKeep(w, Unlink(w.store, s.t, s.userID, s.identityID).0);
  }

  lemma StepKeeps(cfg: Config, w: World, s: Step)
    requires Invariant(w) && Next(cfg, w, s).Some?
    ensures Invariant(Next(cfg, w, s).value)
  {
    match s
    case Mark(q) => MarkKeeps(cfg, w, q);
    case Create(q, userID, passwordHash) => CreateKeeps(cfg, w, q, userID, passwordHash);
    case Insert(q, identityID) => InsertKeeps(cfg, w, q, identityID);
    case DoInvite(_, _, _, _, _) => InviteStepKeeps(cfg, w, s);
    case DoCreateUser(_, _, _, _) => CreateUserStepKeeps(cfg, w, s);
    case DoProvision(_, _, _, _, _, _) => ProvisionStepKeeps(cfg, w, s);
    case DoUnlink(_, _, _) => UnlinkStepKeeps(cfg, w, s);
    case Tick(later) => TickKeeps(w, later);
    case ReadInvitation(q) => ReadInvitationKeeps(cfg, w, q);
    case Count(q) => CountKeeps(cfg, w, q);
    case ReadUser(q) => ReadUserKeeps(cfg, w, q);
    case ReadIdentity(q, found) => ReadIdentityKeeps(cfg, w, q, found);
    case Refetch(q, found) => RefetchKeeps(cfg, w, q, found);
    case _ => BeginKeeps(cfg, w, s);
  }

  lemma TickKeeps(w: World, later: Time)
    requires Invariant(w) && w.now <= later
    ensures Invariant(w.(now := later))
  {
  }

  lemma {:induction false} RunKeeps(cfg: Config, w: World, steps: seq<Step>)
    requires Invariant(w) && Run(cfg, w, steps).Some?
    ensures Invariant(Run(cfg, w, steps).value)
    decreases |steps|
  {
    if steps != [] {
      StepKeeps(cfg, w, steps[0]);
      RunKeeps(cfg, Next(cfg, w, steps[0]).value, steps[1..]);
    }
  }

  // ----- what runs promise -----

  /** Whatever interleaves: an invitation comes to at most one account, and that
      account has exactly the invited address in the inviting tenant. */
  lemma OneAccountPerInvitation(cfg: Config, now: Time, steps: seq<Step>, w: World, i: nat, j: nat)
    requires now > ZERO_TIME && Run(cfg, Start(now), steps) == Some(w) && i < |w.accounts| && j < |w.accounts|
    ensures AccountOk(w.store, w.accounts[i])
    ensures w.accounts[i].invitationID == w.accounts[j].invitationID ==> i == j
  {
    RunKeeps(cfg, Start(now), steps);
  }

  /** Whatever interleaves: a credential of a tenant is linked at most once, to a
      user of that tenant, and every user keeps a password or an identity. */
  lemma OneUserPerCredential(cfg: Config, now: Time, steps: seq<Step>, w: World)
    requires now > ZERO_TIME && Run(cfg, Start(now), steps) == Some(w)
    ensures var s := w.store;
            && (forall a, b :: a in s.identities && b in s.identities && SameKey(s.identities[a], s.identities[b]) ==> a == b)
            && (forall id :: id in s.identities ==> Stored(s, s.identities[id].userID, s.identities[id].tenantID))
            && (forall id :: id in s.users ==> s.users[id].passwordHash != "" || HasIdentity(s, id))
  {
    RunKeeps(cfg, Start(now), steps);
  }

  /** No two users of a tenant share an address. */
  lemma OneUserPerAddress(cfg: Config, now: Time, steps: seq<Step>, w: World, a: string, b: string)
    requires now > ZERO_TIME && Run(cfg, Start(now), steps) == Some(w) && a in w.store.users && b in w.store.users
    requires w.store.users[a].tenantID == w.store.users[b].tenantID && w.store.users[a].email == w.store.users[b].email
    ensures a == b
  {
    RunKeeps(cfg, Start(now), steps);
    assert Found(w.store, w.store.users[a]) && Found(w.store, w.store.users[b]);
  }

  /** The phase of a caller changes only by its own steps. */
  lemma OthersStay(cfg: Config, w: World, s: Step, q: nat)
    requires Next(cfg, w, s).Some? && PhaseOf(Next(cfg, w, s).value, q).Linked? && !PhaseOf(w, q).Linked?
    ensures (s.ReadIdentity? || s.Refetch? || s.Insert?) && s.q == q
  {
  }

  /** The phase a link ends in, and the identity that is stored then. */
  predicate LinkedNow(w: World, w': World, q: nat)
  {
    var p := PhaseOf(w', q);
    && p.Linked? && p.x.id in w'.store.identities && w'.store.identities[p.x.id] == p.x
    && w'.store.users == w.store.users && Stored(w.store, p.userID, p.t.String())
  }

  lemma InsertLinks(cfg: Config, w: World, q: nat, identityID: string)
    requires Invariant(w) && Next(cfg, w, Insert(q, identityID)).Some? && PhaseOf(Next(cfg, w, Insert(q, identityID)).value, q).Linked?
    ensures LinkedNow(w, Next(cfg, w, Insert(q, identityID)).value, q)
  {
    assert PhaseOk(w, PhaseOf(w, q));
  }

  lemma LookupLinks(cfg: Config, w: World, s: Step)
    requires Invariant(w) && Next(cfg, w, s).Some? && (s.ReadIdentity? || s.Refetch?) && PhaseOf(Next(cfg, w, s).value, s.q).Linked?
    ensures LinkedNow(w, Next(cfg, w, s).value, s.q)
  {
    assert PhaseOk(w, PhaseOf(w, s.q));
  }

  /** A Link that succeeds names the caller's own user and the credential asked
      for, and at the moment it is decided that identity is in the store. */
  lemma LinkedIsOwn(cfg: Config, w: World, s: Step, q: nat)
    requires Invariant(w) && Next(cfg, w, s).Some?
    requires !PhaseOf(w, q).Linked? && PhaseOf(Next(cfg, w, s).value, q).Linked?
    ensures var p, after := PhaseOf(Next(cfg, w, s).value, q), Next(cfg, w, s).value.store;
            && p.x.userID == p.userID && SameCredential(p.x, p.t.String(), p.provider, p.subject)
            && p.x.id in after.identities && after.identities[p.x.id] == p.x && Stored(after, p.userID, p.t.String())
  {
    StepKeeps(cfg, w, s);
    OthersStay(cfg, w, s, q);
    if s.Insert? { InsertLinks(cfg, w, q, s.identityID); } else { LookupLinks(cfg, w, s); }
    assert PhaseOk(Next(cfg, w, s).value, PhaseOf(Next(cfg, w, s).value, q));
  }
}
