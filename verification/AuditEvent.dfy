/** Audit events: the canonical payload that is hashed (audit/canonical_v4.go),
    the hash recipe (audit/audit.go) and the salted commitments that make a row
    redactable (audit/redaction.go). */
module AuditEvent {
  import opened Common
  import opened Bytes

  const HASH_SIZE := 32
  const CANONICAL_VERSION_4 := 4

  /** A SHA-256 result. */
  type Digest = d: bytes | |d| == 32 witness seq(32, i => 0)

  /** SHA-256 itself is a parameter of everything below: any function to 32
      bytes. No injectivity is assumed of it, because none could hold. */
  type Hasher = bytes -> Digest

  /** Two distinct inputs with one hash. */
  predicate Collides(h: Hasher, x: bytes, y: bytes)
  {
    x != y && h(x) == h(y)
  }

  datatype Commitments = Commitments(email: bytes, name: bytes, ip: bytes, before: bytes, after: bytes)

  datatype Actor = Actor(typ: bytes, userID: bytes, email: bytes, name: bytes, ip: bytes, tenantID: bytes)

  /** One event, which is also one row of the events table. Go strings are byte strings. */
  datatype Event = Event(
    id: bytes,
    at: Time,
    actor: Actor,
    action: bytes,
    resourceType: bytes,
    resourceID: bytes,
    requestID: bytes,
    clusterID: bytes,
    before: bytes,
    after: bytes,
    prevHash: bytes,
    hash: bytes,
    version: int,
    tenantID: bytes,
    rowSalt: bytes,
    commitments: Commitments)

  function ActorTypeUser(): bytes { Ascii("user") }

  function DefaultedType(t: bytes): bytes
  {
    if t == [] then ActorTypeUser() else t
  }

  /** fromRow: an empty actor type reads as "user"; everything else is as stored. */
  function FromRow(r: Event): Event
  {
    r.(actor := r.actor.(typ := DefaultedType(r.actor.typ)))
  }

  /** Every column of the row is in the event, under its own name; an actor type left empty reads as "user". */
  predicate ReadsAs(row: Event, e: Event)
  {
    && e.id == row.id && e.at == row.at
    && e.actor.userID == row.actor.userID && e.actor.email == row.actor.email && e.actor.name == row.actor.name
    && e.actor.ip == row.actor.ip && e.actor.tenantID == row.actor.tenantID
    && e.actor.typ == (if row.actor.typ == [] then Ascii("user") else row.actor.typ)
    && e.action == row.action && e.resourceType == row.resourceType && e.resourceID == row.resourceID
    && e.requestID == row.requestID && e.clusterID == row.clusterID && e.tenantID == row.tenantID
    && e.before == row.before && e.after == row.after
    && e.prevHash == row.prevHash && e.hash == row.hash && e.version == row.version
    && e.rowSalt == row.rowSalt && e.commitments == row.commitments
  }

  // ----- what a row commits to -----

  /** The facts the payload is meant to pin down. */
  datatype Hashed = Hashed(
    id: bytes,
    at: Time,
    userID: bytes,
    actorType: bytes,
    action: bytes,
    resourceType: bytes,
    resourceID: bytes,
    requestID: bytes,
    tenantID: bytes,
    actorTenantID: bytes,
    commitments: Commitments,
    prevHash: bytes)

  function HashedFields(e: Event, prev: bytes): Hashed
  {
    Hashed(e.id, e.at, e.actor.userID, DefaultedType(e.actor.typ), e.action, e.resourceType, e.resourceID,
           e.requestID, e.tenantID, e.actor.tenantID, e.commitments, prev)
  }

  /** The bounds appendLP and UnixNano rely on: values under 4 GiB, times in the int64 range. */
  predicate Encodable(e: Event)
  {
    && IsInt64(e.at)
    && Fits(e.id) && Fits(e.actor.userID) && Fits(e.actor.typ) && Fits(e.action)
    && Fits(e.resourceType) && Fits(e.resourceID) && Fits(e.requestID)
    && Fits(e.tenantID) && Fits(e.actor.tenantID)
    && Fits(e.commitments.email) && Fits(e.commitments.name) && Fits(e.commitments.ip)
    && Fits(e.commitments.before) && Fits(e.commitments.after)
  }

  // ----- the canonical payload -----

  function Named(name: string, value: bytes): Field
  {
    Field(Ascii(name), value)
  }

  /** The fields in the fixed order. */
  function PayloadFields(e: Event, prev: bytes): (r: seq<Field>)
    ensures |r| == 16
  {
    [ Named("id", e.id),
      Named("at", BigEndian(8, e.at)),
      Named("actor.user_id", e.actor.userID),
      Named("actor.email", e.commitments.email),
      Named("actor.name", e.commitments.name),
      Named("actor.ip", e.commitments.ip),
      Named("actor.type", DefaultedType(e.actor.typ)),
      Named("action", e.action),
      Named("resource_type", e.resourceType),
      Named("resource_id", e.resourceID),
      Named("request_id", e.requestID),
      Named("tenant_id", e.tenantID),
      Named("actor.tenant_id", e.actor.tenantID),
      Named("before", e.commitments.before),
      Named("after", e.commitments.after),
      Named("prev_hash", prev) ]
  }

  function Payload(e: Event, prev: bytes): bytes
  {
    Encode(PayloadFields(e, prev))
  }

  /** Appends the k-th of the fields to the encoding of those before it. */
  method AppendField(buf: bytes, ghost fields: seq<Field>, ghost k: nat, name: string, value: bytes)
    returns (r: bytes)
    requires k < |fields| && fields[k] == Named(name, value)
    requires buf == Encode(fields[..k])
    ensures r == Encode(fields[..k + 1])
  {
    r := buf + LengthPrefixed(Ascii(name)) + LengthPrefixed(value);
    EncodeAppend(fields[..k], fields[k]);
    assert fields[..k + 1] == fields[..k] + [fields[k]];
  }

  /** canonicalPayloadV4: grows one buffer, field by field. */
  method CanonicalPayloadV4(e: Event, prev: bytes) returns (buf: bytes)
    ensures buf == Payload(e, prev)
  {
    buf := AppendAll(PayloadFields(e, prev), e, prev);
  }

  ghost predicate ActorPart(fields: seq<Field>, e: Event)
  {
    && |fields| == 16
    && fields[0] == Named("id", e.id) && fields[1] == Named("at", BigEndian(8, e.at))
    && fields[2] == Named("actor.user_id", e.actor.userID) && fields[3] == Named("actor.email", e.commitments.email)
    && fields[4] == Named("actor.name", e.commitments.name) && fields[5] == Named("actor.ip", e.commitments.ip)
    && fields[6] == Named("actor.type", DefaultedType(e.actor.typ))
  }

  ghost predicate SubjectPart(fields: seq<Field>, e: Event)
  {
    && |fields| == 16
    && fields[7] == Named("action", e.action)
    && fields[8] == Named("resource_type", e.resourceType) && fields[9] == Named("resource_id", e.resourceID)
    && fields[10] == Named("request_id", e.requestID)
    && fields[11] == Named("tenant_id", e.tenantID) && fields[12] == Named("actor.tenant_id", e.actor.tenantID)
  }

  ghost predicate ChangePart(fields: seq<Field>, e: Event, prev: bytes)
  {
    && |fields| == 16
    && fields[13] == Named("before", e.commitments.before) && fields[14] == Named("after", e.commitments.after)
    && fields[15] == Named("prev_hash", prev)
  }

  method AppendAll(ghost fields: seq<Field>, e: Event, prev: bytes) returns (buf: bytes)
    requires ActorPart(fields, e) && SubjectPart(fields, e) && ChangePart(fields, e, prev)
    ensures buf == Encode(fields)
  {
    assert fields[..0] == [] && fields[..16] == fields;
    buf := [];
    buf := AppendActorFields(buf, fields, e);
    buf := AppendSubjectFields(buf, fields, e);
    buf := AppendChangeFields(buf, fields, e, prev);
  }

  /** Who and when. */
  method AppendActorFields(buf: bytes, ghost fields: seq<Field>, e: Event) returns (r: bytes)
    requires ActorPart(fields, e) && buf == Encode(fields[..0])
    ensures r == Encode(fields[..7])
  {
    r := buf;
    r := AppendField(r, fields, 0, "id", e.id);
    r := AppendField(r, fields, 1, "at", BigEndian(8, e.at));
    r := AppendField(r, fields, 2, "actor.user_id", e.actor.userID);
    r := AppendField(r, fields, 3, "actor.email", e.commitments.email);
    r := AppendField(r, fields, 4, "actor.name", e.commitments.name);
    r := AppendField(r, fields, 5, "actor.ip", e.commitments.ip);
    var t := e.actor.typ;
    if t == [] {
      t := ActorTypeUser();
    }
    r := AppendField(r, fields, 6, "actor.type", t);
  }

  /** What was acted on, and for which tenant. */
  method AppendSubjectFields(buf: bytes, ghost fields: seq<Field>, e: Event) returns (r: bytes)
    requires SubjectPart(fields, e) && buf == Encode(fields[..7])
    ensures r == Encode(fields[..13])
  {
    r := buf;
    r := AppendField(r, fields, 7, "action", e.action);
    r := AppendField(r, fields, 8, "resource_type", e.resourceType);
    r := AppendField(r, fields, 9, "resource_id", e.resourceID);
    r := AppendField(r, fields, 10, "request_id", e.requestID);
    r := AppendField(r, fields, 11, "tenant_id", e.tenantID);
    r := AppendField(r, fields, 12, "actor.tenant_id", e.actor.tenantID);
  }

  /** What changed, and the link. */
  method AppendChangeFields(buf: bytes, ghost fields: seq<Field>, e: Event, prev: bytes) returns (r: bytes)
    requires ChangePart(fields, e, prev) && buf == Encode(fields[..13])
    ensures r == Encode(fields[..16])
  {
    r := buf;
    r := AppendField(r, fields, 13, "before", e.commitments.before);
    r := AppendField(r, fields, 14, "after", e.commitments.after);
    r := AppendField(r, fields, 15, "prev_hash", prev);
  }

  /** The names of the fields, in the order a reader expects them. */
  const PAYLOAD_NAMES: seq<string> :=
    [ "id", "at", "actor.user_id", "actor.email", "actor.name", "actor.ip", "actor.type", "action", "resource_type",
      "resource_id", "request_id", "tenant_id", "actor.tenant_id", "before", "after", "prev_hash" ]

  predicate WellNamed(f: seq<Field>)
  {
    |f| == |PAYLOAD_NAMES| && forall i :: 0 <= i < |f| ==> f[i].name == Ascii(PAYLOAD_NAMES[i])
  }

  function FieldsRead(f: seq<Field>): Hashed
    requires |f| == 16
  {
    var c := Commitments(f[3].value, f[4].value, f[5].value, f[13].value, f[14].value);
    Hashed(f[0].value, Int64FromBytes(f[1].value), f[2].value, f[6].value, f[7].value, f[8].value,
           f[9].value, f[10].value, f[11].value, f[12].value, c, f[15].value)
  }

  /** Reads a payload back. */
  function DecodePayload(s: bytes): Option<Hashed>
  {
    match Decode(s)
    case None => None
    case Some(f) => if !WellNamed(f) then None else Some(FieldsRead(f))
  }

  lemma NamesAreRight(e: Event, prev: bytes)
    ensures WellNamed(PayloadFields(e, prev))
  {
    var f := PayloadFields(e, prev);
    forall i | 0 <= i < |f| ensures f[i].name == Ascii(PAYLOAD_NAMES[i]) {
      assert i == 0 || i == 1 || i == 2 || i == 3 || i == 4 || i == 5 || i == 6 || i == 7
          || i == 8 || i == 9 || i == 10 || i == 11 || i == 12 || i == 13 || i == 14 || i == 15;
    }
  }

  lemma FieldsFit(e: Event, prev: bytes)
    requires Encodable(e) && Fits(prev)
    ensures AllFit(PayloadFields(e, prev))
  {
  }

  /** No value can be mistaken for a field boundary: every hashed field comes back. */
  lemma PayloadRoundTrip(e: Event, prev: bytes)
    requires Encodable(e) && Fits(prev)
    ensures DecodePayload(Payload(e, prev)) == Some(HashedFields(e, prev))
  {
    FieldsFit(e, prev);
    EncodeRoundTrip(PayloadFields(e, prev));
    NamesAreRight(e, prev);
    Int64RoundTrip(e.at);
    assert FieldsRead(PayloadFields(e, prev)) == HashedFields(e, prev);
  }

  // ----- the hash of a row -----

  /** What hashChainLink feeds to SHA-256. */
  function LinkInput(e: Event, prev: bytes): bytes
  {
    prev + Payload(e, prev)
  }

  function Link(h: Hasher, e: Event, prev: bytes): Digest
  {
    h(LinkInput(e, prev))
  }

  /** For 32-byte predecessors the hash input determines the predecessor and every hashed field. */
  lemma LinkInputInjective(e: Event, prev: bytes, e': Event, prev': bytes)
    requires Encodable(e) && Encodable(e') && |prev| == |prev'| == HASH_SIZE
    requires LinkInput(e, prev) == LinkInput(e', prev')
    ensures HashedFields(e, prev) == HashedFields(e', prev')
  {
    assert LinkInput(e, prev)[..HASH_SIZE] == prev && LinkInput(e', prev')[..HASH_SIZE] == prev';
    assert LinkInput(e, prev)[HASH_SIZE..] == Payload(e, prev);
    assert LinkInput(e', prev')[HASH_SIZE..] == Payload(e', prev');
    PayloadRoundTrip(e, prev);
    PayloadRoundTrip(e', prev');
  }
}
