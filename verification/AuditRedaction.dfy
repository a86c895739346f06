/** Salted commitments to the PII of a row, their check, and erasure in place
    (audit/redaction.go). */
module AuditRedaction {
  import opened Common
  import opened Bytes
  import opened AuditEvent

  datatype PiiField = ActorEmail | ActorName | ActorIP | Before | After

  /** The name mixed into a commitment. */
  function FieldName(f: PiiField): string
  {
    match f
    case ActorEmail => "actor.email"
    case ActorName => "actor.name"
    case ActorIP => "actor.ip"
    case Before => "before"
    case After => "after"
  }

  function ValueOf(e: Event, f: PiiField): bytes
  {
    match f
    case ActorEmail => e.actor.email
    case ActorName => e.actor.name
    case ActorIP => e.actor.ip
    case Before => e.before
    case After => e.after
  }

  function WithValue(e: Event, f: PiiField, v: bytes): Event
  {
    match f
    case ActorEmail => e.(actor := e.actor.(email := v))
    case ActorName => e.(actor := e.actor.(name := v))
    case ActorIP => e.(actor := e.actor.(ip := v))
    case Before => e.(before := v)
    case After => e.(after := v)
  }

  function CommitmentOf(c: Commitments, f: PiiField): bytes
  {
    match f
    case ActorEmail => c.email
    case ActorName => c.name
    case ActorIP => c.ip
    case Before => c.before
    case After => c.after
  }

  /** What commit hashes: salt, length-prefixed name, length-prefixed value. */
  function CommitInput(salt: bytes, f: PiiField, v: bytes): bytes
  {
    salt + (LengthPrefixed(Ascii(FieldName(f))) + LengthPrefixed(v))
  }

  function Commit(h: Hasher, salt: bytes, f: PiiField, v: bytes): Digest
  {
    h(CommitInput(salt, f, v))
  }

  function ComputeCommitments(h: Hasher, salt: bytes, e: Event): Commitments
  {
    Commitments(Commit(h, salt, ActorEmail, e.actor.email), Commit(h, salt, ActorName, e.actor.name),
                Commit(h, salt, ActorIP, e.actor.ip), Commit(h, salt, Before, e.before), Commit(h, salt, After, e.after))
  }

  predicate IsRedacted(salt: bytes)
  {
    forall i :: 0 <= i < |salt| ==> salt[i] == 0
  }

  datatype Check = NotCheckable | Matches | Mismatch(field: PiiField)

  /** VerifyCommitments: the first field, in the fixed order, whose stored commitment is not the recomputed one. */
  function VerifyCommitments(h: Hasher, e: Event): Check
  {
    if e.version != CANONICAL_VERSION_4 || IsRedacted(e.rowSalt) then NotCheckable
    else
      var want := ComputeCommitments(h, e.rowSalt, e);
      if e.commitments.email != want.email then Mismatch(ActorEmail)
      else if e.commitments.name != want.name then Mismatch(ActorName)
      else if e.commitments.ip != want.ip then Mismatch(ActorIP)
      else if e.commitments.before != want.before then Mismatch(Before)
      else if e.commitments.after != want.after then Mismatch(After)
      else Matches
  }

  /** The check passes exactly when every stored commitment is the commitment to the stored value. */
  lemma MatchesIff(h: Hasher, e: Event)
    requires e.version == CANONICAL_VERSION_4 && !IsRedacted(e.rowSalt)
    ensures VerifyCommitments(h, e) == Matches
      <==> forall f :: CommitmentOf(e.commitments, f) == Commit(h, e.rowSalt, f, ValueOf(e, f))
  {
    var c := e.commitments;
    if forall f :: CommitmentOf(c, f) == Commit(h, e.rowSalt, f, ValueOf(e, f)) {
      assert CommitmentOf(c, ActorEmail) == c.email && CommitmentOf(c, ActorName) == c.name;
      assert CommitmentOf(c, ActorIP) == c.ip && CommitmentOf(c, Before) == c.before && CommitmentOf(c, After) == c.after;
    }
  }

  // ----- what a commitment pins down -----

  /** For salts of one length the hash input determines salt, field and value. */
  lemma CommitInputInjective(salt: bytes, f: PiiField, v: bytes, salt': bytes, f': PiiField, v': bytes)
    requires |salt| == |salt'| && Fits(v) && Fits(v')
    requires CommitInput(salt, f, v) == CommitInput(salt', f', v')
    ensures salt == salt' && f == f' && v == v'
  {
    var n, n' := Ascii(FieldName(f)), Ascii(FieldName(f'));
    var x, x' := CommitInput(salt, f, v), CommitInput(salt', f', v');
    assert x[..|salt|] == salt && x'[..|salt|] == salt';
    assert x[|salt|..] == LengthPrefixed(n) + LengthPrefixed(v);
    assert x'[|salt|..] == LengthPrefixed(n') + LengthPrefixed(v');
    TakePrefixedRoundTrip(n, LengthPrefixed(v));
    TakePrefixedRoundTrip(n', LengthPrefixed(v'));
    assert LengthPrefixed(v) == LengthPrefixed(v) + [] && LengthPrefixed(v') == LengthPrefixed(v') + [];
    TakePrefixedRoundTrip(v, []);
    TakePrefixedRoundTrip(v', []);
    FieldNamesDiffer(f, f');
  }

  lemma FieldNamesDiffer(f: PiiField, f': PiiField)
    requires Ascii(FieldName(f)) == Ascii(FieldName(f'))
    ensures f == f'
  {
  }

  /** Two rows that both check and carry one set of commitments hold the same
      PII under the same salt, or two of their commitment inputs collide. */
  lemma CommitmentsBindPii(h: Hasher, e: Event, e': Event)
    requires VerifyCommitments(h, e) == Matches && VerifyCommitments(h, e') == Matches
    requires e.commitments == e'.commitments && |e.rowSalt| == |e'.rowSalt|
    requires forall f :: Fits(ValueOf(e, f)) && Fits(ValueOf(e', f))
    ensures || (e.rowSalt == e'.rowSalt && forall f :: ValueOf(e, f) == ValueOf(e', f))
            || exists f :: Collides(h, CommitInput(e.rowSalt, f, ValueOf(e, f)), CommitInput(e'.rowSalt, f, ValueOf(e', f)))
  {
    MatchesIff(h, e);
    MatchesIff(h, e');
    if !exists f :: Collides(h, CommitInput(e.rowSalt, f, ValueOf(e, f)), CommitInput(e'.rowSalt, f, ValueOf(e', f))) {
      forall f ensures e.rowSalt == e'.rowSalt && ValueOf(e, f) == ValueOf(e', f) {
        assert CommitmentOf(e.commitments, f) == Commit(h, e.rowSalt, f, ValueOf(e, f));
        assert CommitmentOf(e'.commitments, f) == Commit(h, e'.rowSalt, f, ValueOf(e', f));
        CommitInputInjective(e.rowSalt, f, ValueOf(e, f), e'.rowSalt, f, ValueOf(e', f));
      }
      assert ValueOf(e, ActorEmail) == ValueOf(e', ActorEmail);
    }
  }

  /** Editing one PII value of a row that checked is reported, at that field, or yields a collision. */
  lemma EditedPiiIsReported(h: Hasher, e: Event, f: PiiField, v: bytes)
    requires VerifyCommitments(h, e) == Matches && v != ValueOf(e, f)
    requires Fits(v) && Fits(ValueOf(e, f))
    ensures || VerifyCommitments(h, WithValue(e, f, v)) == Mismatch(f)
            || Collides(h, CommitInput(e.rowSalt, f, ValueOf(e, f)), CommitInput(e.rowSalt, f, v))
  {
    if CommitInput(e.rowSalt, f, ValueOf(e, f)) == CommitInput(e.rowSalt, f, v) {
      CommitInputInjective(e.rowSalt, f, ValueOf(e, f), e.rowSalt, f, v);
    }
  }

  /** So is any edit, however many values it changes or swaps between fields:
      with salt and commitments left alone, a row that checked still checks only
      if every value is the one it had. */
  lemma AnyPiiEditIsReported(h: Hasher, e: Event, e': Event, f: PiiField)
    requires VerifyCommitments(h, e) == Matches && ValueOf(e', f) != ValueOf(e, f)
    requires e'.version == e.version && e'.rowSalt == e.rowSalt && e'.commitments == e.commitments
    requires Fits(ValueOf(e, f)) && Fits(ValueOf(e', f))
    ensures || VerifyCommitments(h, e').Mismatch?
            || Collides(h, CommitInput(e.rowSalt, f, ValueOf(e, f)), CommitInput(e.rowSalt, f, ValueOf(e', f)))
  {
    MatchesIff(h, e);
    if VerifyCommitments(h, e') == Matches {
      MatchesIff(h, e');
      assert CommitmentOf(e'.commitments, f) == Commit(h, e.rowSalt, f, ValueOf(e', f));
      assert CommitmentOf(e.commitments, f) == Commit(h, e.rowSalt, f, ValueOf(e, f));
      if CommitInput(e.rowSalt, f, ValueOf(e, f)) == CommitInput(e.rowSalt, f, ValueOf(e', f)) {
        CommitInputInjective(e.rowSalt, f, ValueOf(e, f), e.rowSalt, f, ValueOf(e', f));
      }
    }
  }

  /** Domain separation: a row whose field f checks with the commitment taken
      over from a different field g of another row under the same salt is a collision. */
  lemma MovedCommitmentIsReported(h: Hasher, e: Event, g: PiiField, e': Event, f: PiiField)
    requires VerifyCommitments(h, e) == Matches && f != g
    requires e'.rowSalt == e.rowSalt && CommitmentOf(e'.commitments, f) == CommitmentOf(e.commitments, g)
    requires Fits(ValueOf(e, g)) && Fits(ValueOf(e', f))
    ensures || VerifyCommitments(h, e') != Matches
            || Collides(h, CommitInput(e.rowSalt, g, ValueOf(e, g)), CommitInput(e.rowSalt, f, ValueOf(e', f)))
  {
    MatchesIff(h, e);
    if VerifyCommitments(h, e') == Matches {
      MatchesIff(h, e');
      assert CommitmentOf(e'.commitments, f) == Commit(h, e.rowSalt, f, ValueOf(e', f));
      assert CommitmentOf(e.commitments, g) == Commit(h, e.rowSalt, g, ValueOf(e, g));
      if CommitInput(e.rowSalt, g, ValueOf(e, g)) == CommitInput(e.rowSalt, f, ValueOf(e', f)) {
        CommitInputInjective(e.rowSalt, g, ValueOf(e, g), e.rowSalt, f, ValueOf(e', f));
      }
    }
  }

  /** A row committed to under a fresh salt checks, unless the random salt came out all zero. */
  lemma FreshRowChecks(h: Hasher, e: Event)
    requires e.version == CANONICAL_VERSION_4 && e.commitments == ComputeCommitments(h, e.rowSalt, e)
    ensures VerifyCommitments(h, e) == if IsRedacted(e.rowSalt) then NotCheckable else Matches
  {
  }

  /** The payload carries every commitment under the name it was computed with. */
  lemma CommitmentsAreNamed(e: Event, prev: bytes, f: PiiField)
    ensures Named(FieldName(f), CommitmentOf(e.commitments, f)) in PayloadFields(e, prev)
  {
    var k := match f case ActorEmail => 3 case ActorName => 4 case ActorIP => 5 case Before => 13 case After => 14;
    assert PayloadFields(e, prev)[k] == Named(FieldName(f), CommitmentOf(e.commitments, f));
  }

  // ----- erasure -----

  /** What Redact leaves: no PII, an all-zero salt, the commitments as they were. */
  function Redacted(e: Event): Event
  {
    e.(actor := e.actor.(email := [], name := [], ip := []), before := [], after := [],
       rowSalt := seq(|e.rowSalt|, i => 0))
  }

  /** What the RedactEventPII statement leaves in the row: the same, but with
      an empty salt; a row of another version is not touched. */
  function RedactedRow(e: Event): Event
  {
    if e.version != CANONICAL_VERSION_4 then e
    else e.(actor := e.actor.(email := [], name := [], ip := []), before := [], after := [], rowSalt := [])
  }

  /** No personal data is left, and everything but that and the salt is as it was. */
  predicate Erased(before: Event, after: Event)
  {
    && after.actor.email == [] && after.actor.name == [] && after.actor.ip == [] && after.before == [] && after.after == []
    && after.id == before.id && after.at == before.at && after.actor.typ == before.actor.typ
    && after.actor.userID == before.actor.userID && after.actor.tenantID == before.actor.tenantID
    && after.action == before.action && after.resourceType == before.resourceType && after.resourceID == before.resourceID
    && after.requestID == before.requestID && after.clusterID == before.clusterID && after.tenantID == before.tenantID
    && after.prevHash == before.prevHash && after.hash == before.hash && after.version == before.version
    && after.commitments == before.commitments
  }

  /** Erased reads exactly what has no salt byte left: none at all, as the table has it, or zeroes, as memory has it. */
  lemma ErasedSalt(salt: bytes)
    ensures IsRedacted(salt) <==> salt == seq(|salt|, i => 0)
  {
  }

  /** Both forms of erasure, and that the statement leaves rows of other versions alone. */
  lemma ErasureIsExact(e: Event)
    ensures Erased(e, Redacted(e)) && Redacted(e).rowSalt == seq(|e.rowSalt|, i => 0)
    ensures e.version == 4 ==> Erased(e, RedactedRow(e)) && RedactedRow(e).rowSalt == []
    ensures e.version != 4 ==> RedactedRow(e) == e
  {
  }

  /** Erasure changes no hashed field, reads as not checkable, and repeating it changes nothing. */
  lemma RedactionIsInvisibleToTheChain(h: Hasher, e: Event, prev: bytes)
    ensures Payload(Redacted(e), prev) == Payload(e, prev) == Payload(RedactedRow(e), prev)
    ensures VerifyCommitments(h, Redacted(e)) == VerifyCommitments(h, RedactedRow(e)) == NotCheckable
    ensures Redacted(Redacted(e)) == Redacted(e) && RedactedRow(RedactedRow(e)) == RedactedRow(e)
    ensures RedactedRow(e).prevHash == e.prevHash && RedactedRow(e).hash == e.hash && RedactedRow(e).version == e.version
  {
  }

  /** An event handed around by pointer; its salt is a slice, so it lives in an array. */
  class MutableEvent {
    var fields: Event
    const salt: array<byte>

    constructor (e: Event)
      ensures Value() == e && fresh(salt)
    {
      fields := e;
      salt := new byte[|e.rowSalt|](i requires 0 <= i < |e.rowSalt| => e.rowSalt[i]);
      new;
      assert salt[..] == e.rowSalt;
    }

    function Value(): Event
      reads this, salt
    {
      fields.(rowSalt := salt[..])
    }

    /** Redact: clears the fields and zeroes the salt in place. */
    method Redact()
      modifies this, salt
      ensures Value() == Redacted(old(Value()))
      ensures Erased(old(Value()), Value()) && Value().rowSalt == seq(|old(Value()).rowSalt|, i => 0)
    {
      var a := fields.actor;
      fields := fields.(actor := a.(email := [], name := [], ip := []), before := [], after := []);
      for i := 0 to salt.Length
        invariant fields == old(fields.(actor := fields.actor.(email := [], name := [], ip := []), before := [], after := []))
        invariant forall k :: 0 <= k < i ==> salt[k] == 0
      {
        salt[i] := 0;
      }
      assert salt[..] == Redacted(old(Value())).rowSalt;
    }
  }
}
