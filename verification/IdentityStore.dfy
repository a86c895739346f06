/** identity/memstore.go: the reference store, its maps and its indexes. */
module IdentityStore {
  import opened Common
  import opened Identity
  import Tenant

  class MemStore {
    var usersByID: map<string, User>
    var emailToID: map<(string, string), string>
    var sessions: map<string, Session>
    var hashToID: map<string, string>
    var identities: map<string, LinkedIdentity>
    var invitations: map<string, Invitation>
    var invHashToID: map<string, string>
    var memberships: map<string, set<Tenant.ID>>

    ghost function Value(): Store
      reads this
    {
      Store(usersByID, emailToID, sessions, hashToID, identities, invitations, invHashToID, memberships)
    }

    ghost predicate Valid()
      reads this
    {
      Indexed(Value())
    }

    constructor ()
      ensures Valid() && Value() == EmptyStore()
    {
      usersByID, emailToID := map[], map[];
      sessions, hashToID := map[], map[];
      identities, invitations, invHashToID, memberships := map[], map[], map[], map[];
    }

    // ----- users -----

    method CreateUser(id: string, tenantID: string, email: string, passwordHash: string, createdAt: Time) returns (r: Result<User, Error>)
      requires Valid()
      modifies this
      ensures Valid()
      ensures var u := User(id, tenantID, email, passwordHash, true, false, createdAt);
              match Identity.CreateUser(old(Value()), u)
              case Err(e) => r == Err(e) && Value() == old(Value())
              case Ok(s) => r == Ok(u) && Value() == s
    {
      if (tenantID, email) in emailToID {
        return Err(EmailTaken);
      }
      var u := User(id, tenantID, email, passwordHash, true, false, createdAt);
      usersByID := usersByID[id := u];
      emailToID := emailToID[(tenantID, email) := id];
      r := Ok(u);
    }

    method UserByID(id: string) returns (r: Result<User, Error>)
      ensures r == Identity.UserByID(Value(), id)
    {
      r := if id in usersByID then Ok(usersByID[id]) else Err(NotFound);
    }

    method UserByEmail(t: Tenant.ID, email: string) returns (r: Result<User, Error>)
      requires Valid()
      ensures r == Identity.UserByEmail(Value(), t, email)
    {
      var key := (t.String(), email);
      if key !in emailToID {
        return Err(NotFound);
      }
      r := Ok(usersByID[emailToID[key]]);
    }

    method CountUsers(t: Tenant.ID) returns (n: nat)
      ensures n == |UsersOf(Value(), t)|
    {
      n := 0;
      var left := usersByID.Keys;
      ghost var counted: set<string> := {};
      while left != {}
        invariant left <= usersByID.Keys && n == |counted|
        invariant forall id :: id in counted <==> id in UsersOf(Value(), t) && id !in left
        decreases |left|
      {
        var id :| id in left;
        left := left - {id};
        if usersByID[id].tenantID == t.String() {
          n := n + 1;
          counted := counted + {id};
        }
      }
      assert counted == UsersOf(Value(), t);
    }

    // ----- sessions -----

    method CreateRefreshSession(x: Session)
      requires Valid()
      modifies this
      ensures Valid() && Value() == CreateSession(old(Value()), x)
    {
      sessions := sessions[x.id := x];
      hashToID := hashToID[x.tokenHash := x.id];
    }

    method RefreshSessionByHash(hash: string) returns (r: Result<Session, Error>)
      requires Valid()
      ensures r == SessionByHash(Value(), hash)
    {
      if hash !in hashToID {
        return Err(NotFound);
      }
      r := Ok(sessions[hashToID[hash]]);
    }

    method RevokeRefreshSession(id: string, at: Time)
      requires Valid()
      modifies this
      ensures Valid() && Value() == RevokeSession(old(Value()), id, at)
    {
      if id !in sessions || sessions[id].Revoked() {
        assert id in sessions ==> sessions[id := sessions[id]] == sessions;
        return;
      }
      sessions := sessions[id := sessions[id].(revokedAt := at)];
    }

    method RevokeAllRefreshSessionsForUser(userID: string, at: Time)
      requires Valid()
      modifies this`sessions
      ensures Valid() && Value() == RevokeForUser(old(Value()), userID, at)
    {
      ghost var before := sessions;
      var left := sessions.Keys;
      while left != {}
        invariant left <= before.Keys == sessions.Keys
        invariant forall id :: id in before ==>
          sessions[id] == if id !in left && before[id].userID == userID then Ended(before[id], at) else before[id]
        decreases |left|
      {
        var id :| id in left;
        left := left - {id};
        if sessions[id].userID == userID && !sessions[id].Revoked() {
          sessions := sessions[id := sessions[id].(revokedAt := at)];
        }
      }
      assert sessions == RevokeForUser(old(Value()), userID, at).sessions;
    }

    method RevokeAllRefreshSessionsForTenant(t: Tenant.ID, at: Time)
      requires Valid()
      modifies this`sessions
      ensures Valid() && Value() == RevokeForTenant(old(Value()), t, at)
    {
      ghost var before := sessions;
      var left := sessions.Keys;
      while left != {}
        invariant left <= before.Keys == sessions.Keys
        invariant forall id :: id in before ==>
          sessions[id] == if id !in left && before[id].tenantID == t.String() then Ended(before[id], at) else before[id]
        decreases |left|
      {
        var id :| id in left;
        left := left - {id};
        if sessions[id].tenantID == t.String() && !sessions[id].Revoked() {
          sessions := sessions[id := sessions[id].(revokedAt := at)];
        }
      }
      assert sessions == RevokeForTenant(old(Value()), t, at).sessions;
    }

    // ----- identities -----

    /** The first match the map happens to give. */
    method IdentityByProviderSubject(t: Tenant.ID, provider: string, subject: string) returns (r: Result<LinkedIdentity, Error>)
      ensures r.Ok? <==> CredentialTaken(Value(), t.String(), provider, subject)
      ensures r.Ok? ==> SameCredential(r.value, t.String(), provider, subject) && r.value in identities.Values
      ensures r.Err? ==> r == Err(NotFound)
    {
      var left := identities.Keys;
      while left != {}
        invariant left <= identities.Keys
        invariant forall id :: id in identities && id !in left ==> !SameCredential(identities[id], t.String(), provider, subject)
        decreases |left|
      {
        var id :| id in left;
        left := left - {id};
        if SameCredential(identities[id], t.String(), provider, subject) {
          return Ok(identities[id]);
        }
      }
      r := Err(NotFound);
    }

    method InsertIdentity(x: LinkedIdentity) returns (r: Result<(), Error>)
      requires Valid()
      modifies this`identities
      ensures Valid()
      ensures match Identity.InsertIdentity(old(Value()), x)
              case Err(e) => r == Err(e) && Value() == old(Value())
              case Ok(s) => r == Ok(()) && Value() == s
    {
      var left := identities.Keys;
      while left != {}
        invariant left <= identities.Keys && Value() == old(Value())
        invariant forall id :: id in identities && id !in left ==> !SameCredential(identities[id], x.tenantID, x.provider, x.subject)
        decreases |left|
      {
        var id :| id in left;
        left := left - {id};
        if SameCredential(identities[id], x.tenantID, x.provider, x.subject) {
          return Err(IdentityTaken);
        }
      }
      identities := identities[x.id := x];
      r := Ok(());
    }

    method DeleteIdentity(id: string)
      requires Valid()
      modifies this`identities
      ensures Valid() && Value() == Identity.DeleteIdentity(old(Value()), id)
    {
      identities := identities - {id};
    }

    method CountIdentitiesByUserID(userID: string) returns (n: nat)
      ensures n == |IdentitiesOf(Value(), userID)|
    {
      n := 0;
      var left := identities.Keys;
      ghost var counted: set<string> := {};
      while left != {}
        invariant left <= identities.Keys && n == |counted|
        invariant forall id :: id in counted <==> id in IdentitiesOf(Value(), userID) && id !in left
        decreases |left|
      {
        var id :| id in left;
        left := left - {id};
        if identities[id].userID == userID {
          n := n + 1;
          counted := counted + {id};
        }
      }
      assert counted == IdentitiesOf(Value(), userID);
    }

    /** Both rows or neither, in one critical section. */
    method ProvisionUserWithIdentity(u: User, x: LinkedIdentity) returns (r: Result<(), Error>)
      requires Valid()
      modifies this
      ensures Valid()
      ensures match ProvisionUser(old(Value()), u, x)
              case Err(e) => r == Err(e) && Value() == old(Value())
              case Ok(s) => r == Ok(()) && Value() == s
    {
      if (u.tenantID, u.email) in emailToID {
        return Err(EmailTaken);
      }
      var left := identities.Keys;
      while left != {}
        invariant left <= identities.Keys && Value() == old(Value())
        invariant forall id :: id in identities && id !in left ==> !SameCredential(identities[id], x.tenantID, x.provider, x.subject)
        decreases |left|
      {
        var id :| id in left;
        left := left - {id};
        if SameCredential(identities[id], x.tenantID, x.provider, x.subject) {
          return Err(IdentityTaken);
        }
      }
      usersByID := usersByID[u.id := u];
      emailToID := emailToID[(u.tenantID, u.email) := u.id];
      identities := identities[x.id := x];
      r := Ok(());
    }

    // ----- invitations -----

    method CreateInvitation(inv: Invitation) returns (r: Result<(), Error>)
      requires Valid()
      modifies this
      ensures Valid()
      ensures match Identity.CreateInvitation(old(Value()), inv)
              case Err(e) => r == Err(e) && Value() == old(Value())
              case Ok(s) => r == Ok(()) && Value() == s
    {
      if inv.tokenHash in invHashToID {
        return Err(InvitationConsumed);
      }
      invitations := invitations[inv.id := inv];
      invHashToID := invHashToID[inv.tokenHash := inv.id];
      r := Ok(());
    }

    method InvitationByHash(hash: string) returns (r: Result<Invitation, Error>)
      ensures r == Identity.InvitationByHash(Value(), hash)
    {
      if hash !in invHashToID || invHashToID[hash] !in invitations {
        return Err(NotFound);
      }
      r := Ok(invitations[invHashToID[hash]]);
    }

    method MarkAccepted(id: string, at: Time) returns (r: Result<(), Error>)
      requires Valid()
      modifies this`invitations
      ensures Valid()
      ensures match Identity.MarkAccepted(old(Value()), id, at)
              case Err(e) => r == Err(e) && Value() == old(Value())
              case Ok(s) => r == Ok(()) && Value() == s
    {
      if id !in invitations {
        return Err(NotFound);
      }
      if !invitations[id].Pending() {
        return Err(InvitationConsumed);
      }
      invitations := invitations[id := invitations[id].(acceptedAt := at)];
      r := Ok(());
    }

    // ----- memberships -----

    method AddMembership(userID: string, t: Tenant.ID)
      requires Valid()
      modifies this`memberships
      ensures Valid() && Value() == AddMember(old(Value()), userID, t)
    {
      var mine: set<Tenant.ID> := if userID in memberships then memberships[userID] else {};
      memberships := memberships[userID := mine + {t}];
    }

    method RemoveMembership(userID: string, t: Tenant.ID)
      requires Valid()
      modifies this`memberships
      ensures Valid() && Value() == RemoveMember(old(Value()), userID, t)
    {
      if userID in memberships {
        memberships := memberships[userID := memberships[userID] - {t}];
      }
    }

    /** The tenants in whatever order the map gives them. */
    method MembershipsFor(userID: string) returns (out: seq<Tenant.ID>)
      ensures forall t :: t in out <==> t in MembershipsOf(Value(), userID)
    {
      var left := if userID in memberships then memberships[userID] else {};
      out := [];
      while left != {}
        invariant left <= MembershipsOf(Value(), userID)
        invariant forall t :: t in out <==> t in MembershipsOf(Value(), userID) && t !in left
        decreases |left|
      {
        var t :| t in left;
        left := left - {t};
        out := out + [t];
      }
    }

    method IsMember(userID: string, t: Tenant.ID) returns (r: bool)
      ensures r == Identity.IsMember(Value(), userID, t)
    {
      r := userID in memberships && t in memberships[userID];
    }
  }
}
