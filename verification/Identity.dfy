/** The records and the store of identity/, as values: what each store call
    answers and leaves behind. IdentityStore holds the maps themselves. */
module Identity {
  import opened Common
  import Tenant

  const MIN_PASSWORD_LEN := 8
  const MAX_PASSWORD_LEN := 72

  /** tenantID is the stored form of the tenant, here and in every other record. */
  datatype User = User(
    id: string,
    tenantID: string,
    email: string,
    passwordHash: string,
    active: bool,
    totpEnrolled: bool,
    createdAt: Time)

  /** authTime is in whole seconds, as stored and as claimed. */
  datatype Session = Session(
    id: string,
    userID: string,
    tenantID: string,
    tokenHash: string,
    issuedAt: Time,
    expiresAt: Time,
    authTime: int,
    acr: string,
    revokedAt: Time)
  {
    predicate Revoked()
    {
      revokedAt != ZERO_TIME
    }
  }

  datatype LinkedIdentity = LinkedIdentity(
    id: string,
    userID: string,
    tenantID: string,
    provider: string,
    subject: string,
    linkedAt: Time,
    lastLoginAt: Option<Time>)

  datatype Invitation = Invitation(
    id: string,
    tenantID: string,
    email: string,
    tokenHash: string,
    expiresAt: Time,
    acceptedAt: Time,
    invitedBy: string,
    createdAt: Time)
  {
    predicate Pending()
    {
      acceptedAt == ZERO_TIME
    }

    predicate Usable(now: Time)
    {
      Pending() && expiresAt > now
    }
  }

  datatype Error =
    | NotFound | EmailTaken | IdentityTaken | InvitationConsumed
    | InvalidEmail | PasswordPolicy | InvalidCredentials | Throttled | TOTPRequired
    | TenantRequired | NoTokenService | AuthContextRequired | SigningFailed | RandomFailed
    | InvalidSession | UserInactive | InvitationInvalid | LinkConflict | LastAuthMethod
    | NoMembershipStore | NoImpersonationPolicy | UserIDRequired

  /** All the maps of the store. The email index is keyed by tenant and address,
      which the source joins with a NUL byte that neither may contain. */
  datatype Store = Store(
    users: map<string, User>,
    emails: map<(string, string), string>,
    sessions: map<string, Session>,
    hashes: map<string, string>,
    identities: map<string, LinkedIdentity>,
    invitations: map<string, Invitation>,
    invHashes: map<string, string>,
    memberships: map<string, set<Tenant.ID>>)

  function EmptyStore(): Store
  {
    Store(map[], map[], map[], map[], map[], map[], map[], map[])
  }

  /** Every index entry leads somewhere. */
  predicate Indexed(s: Store)
  {
    && (forall k :: k in s.emails ==> s.emails[k] in s.users)
    && (forall k :: k in s.hashes ==> s.hashes[k] in s.sessions)
    && (forall k :: k in s.invHashes ==> s.invHashes[k] in s.invitations)
  }

  // ----- users -----

  function CreateUser(s: Store, u: User): Result<Store, Error>
  {
    if (u.tenantID, u.email) in s.emails then Err(EmailTaken)
    else Ok(s.(users := s.users[u.id := u], emails := s.emails[(u.tenantID, u.email) := u.id]))
  }

  function UserByID(s: Store, id: string): Result<User, Error>
  {
    if id in s.users then Ok(s.users[id]) else Err(NotFound)
  }

  function UserByEmail(s: Store, t: Tenant.ID, email: string): Result<User, Error>
    requires Indexed(s)
  {
    if (t.String(), email) in s.emails then Ok(s.users[s.emails[(t.String(), email)]]) else Err(NotFound)
  }

  /** The user exists, in this tenant. */
  predicate Stored(s: Store, userID: string, tenantID: string)
  {
    userID in s.users && s.users[userID].tenantID == tenantID
  }

  function UsersOf(s: Store, t: Tenant.ID): set<string>
  {
    set id | id in s.users && s.users[id].tenantID == t.String()
  }

  /** userInTenant: a user of another tenant is as absent as one that does not exist. */
  function UserInTenant(s: Store, userID: string, t: Tenant.ID): Result<User, Error>
  {
    if userID in s.users && Tenant.FromStored(s.users[userID].tenantID) == t then Ok(s.users[userID]) else Err(NotFound)
  }

  // ----- sessions -----

  function CreateSession(s: Store, x: Session): Store
  {
    s.(sessions := s.sessions[x.id := x], hashes := s.hashes[x.tokenHash := x.id])
  }

  function SessionByHash(s: Store, hash: string): Result<Session, Error>
    requires Indexed(s)
  {
    if hash in s.hashes then Ok(s.sessions[s.hashes[hash]]) else Err(NotFound)
  }

  function Ended(x: Session, at: Time): Session
  {
    if x.Revoked() then x else x.(revokedAt := at)
  }

  function RevokeSession(s: Store, id: string, at: Time): Store
  {
    if id in s.sessions then s.(sessions := s.sessions[id := Ended(s.sessions[id], at)]) else s
  }

  function RevokeForUser(s: Store, userID: string, at: Time): Store
  {
    s.(sessions := map id | id in s.sessions ::
         if s.sessions[id].userID == userID then Ended(s.sessions[id], at) else s.sessions[id])
  }

  function RevokeForTenant(s: Store, t: Tenant.ID, at: Time): Store
  {
    s.(sessions := map id | id in s.sessions ::
         if s.sessions[id].tenantID == t.String() then Ended(s.sessions[id], at) else s.sessions[id])
  }

  /** sessionInTenant */
  function SessionInTenant(s: Store, hash: string, t: Tenant.ID): Result<Session, Error>
    requires Indexed(s)
  {
    match SessionByHash(s, hash)
    case Err(_) => Err(NotFound)
    case Ok(x) => if Tenant.FromStored(x.tenantID) != t then Err(InvalidSession) else Ok(x)
  }

  // ----- identities -----

  predicate SameCredential(x: LinkedIdentity, tenantID: string, provider: string, subject: string)
  {
    x.tenantID == tenantID && x.provider == provider && x.subject == subject
  }

  predicate CredentialTaken(s: Store, tenantID: string, provider: string, subject: string)
  {
    exists id :: id in s.identities && SameCredential(s.identities[id], tenantID, provider, subject)
  }

  function InsertIdentity(s: Store, x: LinkedIdentity): Result<Store, Error>
  {
    if CredentialTaken(s, x.tenantID, x.provider, x.subject) then Err(IdentityTaken)
    else Ok(s.(identities := s.identities[x.id := x]))
  }

  /** Both rows or neither. */
  function ProvisionUser(s: Store, u: User, x: LinkedIdentity): Result<Store, Error>
  {
    match CreateUser(s, u)
    case Err(e) => Err(e)
    case Ok(s') => InsertIdentity(s', x)
  }

  function DeleteIdentity(s: Store, id: string): Store
  {
    s.(identities := s.identities - {id})
  }

  function IdentitiesOf(s: Store, userID: string): set<string>
  {
    set id | id in s.identities && s.identities[id].userID == userID
  }

  // ----- invitations -----

  function CreateInvitation(s: Store, inv: Invitation): Result<Store, Error>
  {
    if inv.tokenHash in s.invHashes then Err(InvitationConsumed)
    else Ok(s.(invitations := s.invitations[inv.id := inv], invHashes := s.invHashes[inv.tokenHash := inv.id]))
  }

  function InvitationByHash(s: Store, hash: string): Result<Invitation, Error>
  {
    if hash in s.invHashes && s.invHashes[hash] in s.invitations then Ok(s.invitations[s.invHashes[hash]]) else Err(NotFound)
  }

  /** Compare and set, in one critical section. */
  function MarkAccepted(s: Store, id: string, at: Time): Result<Store, Error>
  {
    if id !in s.invitations then Err(NotFound)
    else if !s.invitations[id].Pending() then Err(InvitationConsumed)
    else Ok(s.(invitations := s.invitations[id := s.invitations[id].(acceptedAt := at)]))
  }

  // ----- memberships -----

  predicate IsMember(s: Store, userID: string, t: Tenant.ID)
  {
    userID in s.memberships && t in s.memberships[userID]
  }

  function MembershipsOf(s: Store, userID: string): set<Tenant.ID>
  {
    if userID in s.memberships then s.memberships[userID] else {}
  }

  function AddMember(s: Store, userID: string, t: Tenant.ID): Store
  {
    s.(memberships := s.memberships[userID := MembershipsOf(s, userID) + {t}])
  }

  function RemoveMember(s: Store, userID: string, t: Tenant.ID): Store
  {
    if userID in s.memberships then s.(memberships := s.memberships[userID := s.memberships[userID] - {t}]) else s
  }

  // ----- input rules -----

  function LowerChar(c: char): char
  {
    if 'A' <= c <= 'Z' then (c as int + 32) as char else c
  }

  function Lower(s: string): string
  {
    seq(|s|, i requires 0 <= i < |s| => LowerChar(s[i]))
  }

  predicate Space(c: char)
  {
    c == ' ' || '\t' <= c <= '\r'
  }

  function TrimLeft(s: string): string
  {
    if s != [] && Space(s[0]) then TrimLeft(s[1..]) else s
  }

  function TrimRight(s: string): string
  {
    if s != [] && Space(s[|s| - 1]) then TrimRight(s[..|s| - 1]) else s
  }

  function Trim(s: string): string
  {
    TrimRight(TrimLeft(s))
  }

  /** One @ with something before it and a dot somewhere after it. */
  predicate EmailShape(e: string)
  {
    exists at :: 0 < at < |e| - 1 && e[at] == '@' && '@' !in e[..at] && '@' !in e[at + 1..] && '.' in e[at + 1..]
  }

  /** NormaliseEmail, on ASCII text. */
  function NormaliseEmail(raw: string): Result<string, Error>
  {
    var e := Lower(Trim(raw));
    if EmailShape(e) then Ok(e) else Err(InvalidEmail)
  }

  predicate PasswordAllowed(p: string)
  {
    MIN_PASSWORD_LEN <= |p| <= MAX_PASSWORD_LEN
  }

  lemma {:induction false} TrimLeftEnds(s: string)
    ensures TrimLeft(s) == [] || !Space(TrimLeft(s)[0])
  {
    if s != [] && Space(s[0]) { TrimLeftEnds(s[1..]); }
  }

  lemma {:induction false} TrimRightEnds(s: string)
    ensures TrimRight(s) <= s
    ensures TrimRight(s) == [] || !Space(TrimRight(s)[|TrimRight(s)| - 1])
  {
    if s != [] && Space(s[|s| - 1]) { TrimRightEnds(s[..|s| - 1]); }
  }

  predicate Blank(s: string)
  {
    forall i :: 0 <= i < |s| ==> s[i] == ' ' || '\t' <= s[i] <= '\r'
  }

  lemma {:induction false} TrimLeftIs(s: string, i: nat)
    requires i <= |s| && Blank(s[..i]) && (i < |s| ==> !Blank([s[i]]))
    ensures TrimLeft(s) == s[i..]
  {
    if i > 0 {
      assert s[0] == s[..i][0];
      assert s[1..][..i - 1] == s[..i][1..];
      TrimLeftIs(s[1..], i - 1);
    } else if s != [] {
      assert [s[0]][0] == s[0];
    }
  }

  lemma {:induction false} TrimRightIs(s: string, j: nat)
    requires j <= |s| && Blank(s[j..]) && (j > 0 ==> !Blank([s[j - 1]]))
    ensures TrimRight(s) == s[..j]
  {
    if j < |s| {
      var n := |s| - 1;
      assert s[n] == s[j..][n - j];
      assert s[..n][j..] == s[j..][..n - j];
      TrimRightIs(s[..n], j);
      assert s[..n][..j] == s[..j];
    } else if j > 0 {
      assert [s[j - 1]][0] == s[j - 1];
    }
  }

  /** e is the text between the blanks around it, in lower case. */
  predicate LowerBetween(raw: string, i: nat, j: nat, e: string)
  {
    && i < j <= |raw| && Blank(raw[..i]) && Blank(raw[j..]) && !Blank([raw[i]]) && !Blank([raw[j - 1]])
    && |e| == j - i
    && forall k :: 0 <= k < |e| ==> e[k] == if 'A' <= raw[i + k] <= 'Z' then (raw[i + k] as int + 32) as char else raw[i + k]
  }

  /** One @, not first, with a dot somewhere behind it and not last. */
  predicate LooksLikeAddress(e: string)
  {
    exists at, dot :: 0 < at < dot < |e| && e[at] == '@' && e[dot] == '.' && forall k :: 0 <= k < |e| && k != at ==> e[k] != '@'
  }

  lemma ShapeIff(e: string)
    ensures EmailShape(e) <==> LooksLikeAddress(e)
  {
    if EmailShape(e) {
      var at :| 0 < at < |e| - 1 && e[at] == '@' && '@' !in e[..at] && '@' !in e[at + 1..] && '.' in e[at + 1..];
      var d :| 0 <= d < |e[at + 1..]| && e[at + 1..][d] == '.';
      forall k | 0 <= k < |e| && k != at ensures e[k] != '@' {
        assert if k < at then e[k] == e[..at][k] else e[k] == e[at + 1..][k - at - 1];
      }
      assert e[at + 1 + d] == '.';
    }
    if LooksLikeAddress(e) {
      var at, dot :| 0 < at < dot < |e| && e[at] == '@' && e[dot] == '.' && forall k :: 0 <= k < |e| && k != at ==> e[k] != '@';
      assert e[at + 1..][dot - at - 1] == '.';
    }
  }

  lemma NormalisedIsBetween(raw: string, e: string)
    requires NormaliseEmail(raw) == Ok(e)
    ensures LooksLikeAddress(e) && exists i: nat, j: nat :: LowerBetween(raw, i, j, e)
  {
    ShapeIff(e);
    var i, j := BetweenBlanks(raw);
    assert LowerBetween(raw, i, j, e);
  }

  lemma BetweenIsNormalised(raw: string, i: nat, j: nat, e: string)
    requires LowerBetween(raw, i, j, e) && LooksLikeAddress(e)
    ensures NormaliseEmail(raw) == Ok(e)
  {
    ShapeIff(e);
    TrimLeftIs(raw, i);
    assert raw[i..][j - i..] == raw[j..];
    TrimRightIs(raw[i..], j - i);
    assert Trim(raw) == raw[i..][..j - i] == raw[i..j];
    assert Lower(raw[i..j]) == e;
  }

  /** Which text is an address, and which one: the spelling matters neither in case nor in the blanks around it. */
  lemma NormaliseIff(raw: string, e: string)
    ensures NormaliseEmail(raw) == Ok(e) <==> LooksLikeAddress(e) && exists i: nat, j: nat :: LowerBetween(raw, i, j, e)
  {
    if NormaliseEmail(raw) == Ok(e) { NormalisedIsBetween(raw, e); }
    forall i: nat, j: nat | LowerBetween(raw, i, j, e) && LooksLikeAddress(e) ensures NormaliseEmail(raw) == Ok(e) {
      BetweenIsNormalised(raw, i, j, e);
    }
  }

  lemma BetweenBlanks(raw: string) returns (i: nat, j: nat)
    ensures i <= j <= |raw| && Blank(raw[..i]) && Blank(raw[j..]) && Trim(raw) == raw[i..j]
    ensures i < j ==> !Blank([raw[i]]) && !Blank([raw[j - 1]])
  {
    i := LeftBlanks(raw);
    TrimLeftIs(raw, i);
    var n := RightBlanks(raw[i..]);
    TrimRightIs(raw[i..], n);
    j := i + n;
    assert raw[i..][..n] == raw[i..j] && raw[i..][n..] == raw[j..];
    if n > 0 {
      assert raw[i..][n - 1] == raw[j - 1];
      if i < |raw| { assert raw[i] == raw[i..][0]; }
    }
  }

  lemma {:induction false} LeftBlanks(s: string) returns (i: nat)
    ensures i <= |s| && Blank(s[..i]) && (i < |s| ==> !Blank([s[i]]))
  {
    i := 0;
    while i < |s| && Space(s[i])
      invariant i <= |s| && Blank(s[..i])
    {
      i := i + 1;
    }
    if i < |s| { assert [s[i]][0] == s[i]; }
  }

  lemma {:induction false} RightBlanks(s: string) returns (j: nat)
    ensures j <= |s| && Blank(s[j..]) && (j > 0 ==> !Blank([s[j - 1]]))
  {
    j := |s|;
    while j > 0 && Space(s[j - 1])
      invariant j <= |s| && Blank(s[j..])
    {
      j := j - 1;
    }
    if j > 0 { assert [s[j - 1]][0] == s[j - 1]; }
  }

  /** A normal form: an address that went through once comes through unchanged,
      so looking up and storing cannot disagree about it. */
  lemma NormaliseIsIdempotent(raw: string)
    requires NormaliseEmail(raw).Ok?
    ensures NormaliseEmail(NormaliseEmail(raw).value) == NormaliseEmail(raw)
  {
    TrimLeftEnds(raw);
    TrimRightEnds(TrimLeft(raw));
    var t := Trim(raw);
    var e := Lower(t);
    assert t != [];
    assert t[0] == TrimLeft(raw)[0];
    assert !Space(e[0]) && !Space(e[|e| - 1]);
    assert TrimLeft(e) == e && TrimRight(e) == e;
    assert Lower(e) == e;
  }
}
