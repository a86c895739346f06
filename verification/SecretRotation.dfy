/** oidc/manager.go:436-473: moving every sealed client secret to the current
    write key, one record at a time, with no transaction around the whole. */
module SecretRotation {
  import opened Common
  import opened Bytes
  import opened KeySet

  datatype ProviderRecord = ProviderRecord(id: string, sealedClientSecret: bytes, updatedAt: Time)

  /** Where a run is stopped while working on a record: at the nonce, at the
      write, or by the process dying on either side of it. */
  datatype Fault = NoFault | NonceFault | WriteFault | DiesBefore | DiesAfter

  datatype RotateResult = RotateResult(scanned: nat, rotated: nat)

  /** Non-empty and not under the write key yet. */
  predicate Stale(s: KeySet, rec: ProviderRecord)
  {
    rec.sealedClientSecret != [] && rec.sealedClientSecret[0] != s.writeKeyID
  }

  function Sealeds(recs: map<string, ProviderRecord>): set<string>
  {
    set id | id in recs && recs[id].sealedClientSecret != []
  }

  function Stales(s: KeySet, recs: map<string, ProviderRecord>): set<string>
  {
    set id | id in recs && Stale(s, recs[id])
  }

  /** The record reads as before: untouched, or moved to the write key with its plaintext intact. */
  predicate SameSecret(c: Cipher, s: KeySet, before: ProviderRecord, after: ProviderRecord)
  {
    || after == before
    || (&& Stale(s, before) && !Stale(s, after)
        && after.id == before.id && after.sealedClientSecret != []
        && Open(c, s, before.sealedClientSecret).Ok?
        && Open(c, s, after.sealedClientSecret) == Open(c, s, before.sealedClientSecret))
  }

  predicate AllSame(c: Cipher, s: KeySet, before: map<string, ProviderRecord>, after: map<string, ProviderRecord>)
  {
    before.Keys == after.Keys && forall id :: id in before ==> SameSecret(c, s, before[id], after[id])
  }

  class ProviderStore {
    var recs: map<string, ProviderRecord>

    ghost predicate Valid()
      reads this
    {
      forall id :: id in recs ==> recs[id].id == id
    }

    method UpdateProviderSealedSecret(id: string, sealed: bytes, now: Time) returns (found: bool)
      modifies this
      ensures found == (id in old(recs))
      ensures recs == if found then old(recs)[id := old(recs)[id].(sealedClientSecret := sealed, updatedAt := now)] else old(recs)
    {
      if id !in recs {
        return false;
      }
      recs := recs[id := recs[id].(sealedClientSecret := sealed, updatedAt := now)];
      found := true;
    }
  }

  class Manager {
    const cipher: Cipher
    const keys: KeySet
    const store: ProviderStore

    constructor (cipher: Cipher, keys: KeySet, store: ProviderStore)
      ensures this.cipher == cipher && this.keys == keys && this.store == store
    {
      this.cipher := cipher;
      this.keys := keys;
      this.store := store;
    }

    /** Open and re-seal one record as it was listed, whatever the store holds by now. */
    method RotateOne(rec: ProviderRecord, nonce: bytes, fault: Fault, now: Time) returns (ok: bool)
      requires keys.Valid() && Stale(keys, rec)
      modifies store
      ensures store.recs == Rewritten(old(store.recs), rec.id, Resealed(cipher, keys, rec, nonce, fault), now)
      ensures ok <==> Rotatable(cipher, keys, rec, fault) && rec.id in old(store.recs)
    {
      var plaintext := Open(cipher, keys, rec.sealedClientSecret);
      if plaintext.Err? {
        return false;
      }
      var sealed := Seal(cipher, keys, if fault == NonceFault then None else Some(nonce), plaintext.value);
      if sealed.Err? || fault == WriteFault || fault == DiesBefore {
        return false;
      }
      var found := store.UpdateProviderSealedSecret(rec.id, sealed.value, now);
      ok := found && fault != DiesAfter;
    }

    /** RotateSealedSecrets: records are visited in whatever order the store lists
        them, and the run may stop at any of them. Wherever it stops, every secret
        still opens to what it opened to before; if it gets to the end, nothing is
        left under an older key. */
    method RotateSealedSecrets(nonces: string -> bytes, faults: string -> Fault, now: Time) returns (ok: bool, result: RotateResult)
      requires Correct(cipher) && keys.Valid() && store.Valid()
      requires forall id :: |nonces(id)| == NONCE_SIZE
      modifies store
      ensures store.Valid() && AllSame(cipher, keys, old(store.recs), store.recs)
      ensures ok <==> AllRotatable(cipher, keys, old(store.recs), faults)
      ensures ok ==> Stales(keys, store.recs) == {}
      ensures ok ==> result == RotateResult(|Sealeds(old(store.recs))|, |Stales(keys, old(store.recs))|)
    {
      ghost var before := store.recs;
      var recs := store.recs;
      var left := recs.Keys;
      result := RotateResult(0, 0);
      ProgressAtStart(cipher, keys, before, faults);
      while left != {}
        invariant left <= recs.Keys && store.recs.Keys == recs.Keys
        invariant Progress(cipher, keys, before, store.recs, left, faults)
        invariant result == Progressed(keys, before, left)
        decreases |left|
      {
        var id :| id in left;
        ghost var during := store.recs;
        var outcome := Visit(recs[id], nonces(id), faults(id), now);
        VisitStep(cipher, keys, before, during, left, faults, id, nonces(id), now);
        if outcome.Stopped? {
          return false, result;
        }
        left := left - {id};
        if !outcome.Empty? {
          result := result.(scanned := result.scanned + 1);
        }
        if outcome.Rotated? {
          result := result.(rotated := result.rotated + 1);
        }
      }
      NothingLeft(cipher, keys, before, store.recs, faults);
      ok := true;
    }

    /** The body of the loop, for one record as listed. */
    method Visit(rec: ProviderRecord, nonce: bytes, fault: Fault, now: Time) returns (outcome: Outcome)
      requires keys.Valid()
      modifies store
      ensures store.recs == Rewritten(old(store.recs), rec.id, Resealed(cipher, keys, rec, nonce, fault), now)
      ensures outcome.Empty? <==> rec.sealedClientSecret == []
      ensures outcome.Stopped? <==> Stale(keys, rec) && !(Rotatable(cipher, keys, rec, fault) && rec.id in old(store.recs))
      ensures outcome.Rotated? <==> Stale(keys, rec) && Rotatable(cipher, keys, rec, fault) && rec.id in old(store.recs)
    {
      if |rec.sealedClientSecret| == 0 {
        return Empty;
      }
      if rec.sealedClientSecret[0] == keys.writeKeyID {
        return Skipped;
      }
      var moved := RotateOne(rec, nonce, fault, now);
      outcome := if moved then Rotated else Stopped;
    }
  }

  /** What a visit of this record, as listed, writes back, if it comes to that. */
  function Resealed(c: Cipher, s: KeySet, listed: ProviderRecord, nonce: bytes, fault: Fault): Option<bytes>
    requires s.Valid()
  {
    if !Stale(s, listed) || Open(c, s, listed.sealedClientSecret).Err? || (fault != NoFault && fault != DiesAfter) then None
    else Some(Sealed(c, s, Some(nonce), Open(c, s, listed.sealedClientSecret).value).value)
  }

  function Rewritten(recs: map<string, ProviderRecord>, id: string, sealed: Option<bytes>, now: Time): map<string, ProviderRecord>
  {
    if sealed.None? || id !in recs then recs else recs[id := recs[id].(sealedClientSecret := sealed.value, updatedAt := now)]
  }

  /** With the record still as it was listed, its secret stays and, unless the visit stops, it is stale no more. */
  lemma ResealedIsSame(c: Cipher, s: KeySet, recs: map<string, ProviderRecord>, rec: ProviderRecord, nonce: bytes, fault: Fault, now: Time)
    requires Correct(c) && s.Valid() && |nonce| == NONCE_SIZE && rec.id in recs && recs[rec.id] == rec
    ensures var after := Rewritten(recs, rec.id, Resealed(c, s, rec, nonce, fault), now)[rec.id];
            SameSecret(c, s, rec, after) && (!Stale(s, rec) || Rotatable(c, s, rec, fault) ==> Settled(c, s, rec, after))
  {
    var plaintext := Open(c, s, rec.sealedClientSecret);
    if plaintext.Ok? { SealedOpens(c, s, s, nonce, plaintext.value); }
  }

  /** A secret set after the run listed the record and before the run comes to it stays exactly when
      the run writes nothing back or the secret is the one that was listed. A run that gets that far
      writes back exactly the records that were listed under an older key. */
  lemma EditDuringRotation(c: Cipher, s: KeySet, listed: ProviderRecord, secret: bytes, sealedAs: bytes, recs: map<string, ProviderRecord>,
                           nonce: bytes, fault: Fault, now: Time)
    requires Correct(c) && s.Valid() && |nonce| == NONCE_SIZE && |sealedAs| == NONCE_SIZE && listed.id in recs
    requires recs[listed.id].sealedClientSecret == Sealed(c, s, Some(sealedAs), secret).value
    ensures var sealed := Resealed(c, s, listed, nonce, fault);
            && (sealed.Some? <==> Stale(s, listed) && Open(c, s, listed.sealedClientSecret).Ok? && (fault == NoFault || fault == DiesAfter))
            && (Open(c, s, Rewritten(recs, listed.id, sealed, now)[listed.id].sealedClientSecret) == Ok(secret)
                <==> sealed.None? || Open(c, s, listed.sealedClientSecret) == Ok(secret))
  {
    SealedOpens(c, s, s, sealedAs, secret);
    var plaintext := Open(c, s, listed.sealedClientSecret);
    if plaintext.Ok? { SealedOpens(c, s, s, nonce, plaintext.value); }
  }

  datatype Outcome = Empty | Skipped | Rotated | Stopped

  predicate Settled(c: Cipher, s: KeySet, before: ProviderRecord, after: ProviderRecord)
  {
    SameSecret(c, s, before, after) && !Stale(s, after)
  }

  predicate Rotatable(c: Cipher, s: KeySet, rec: ProviderRecord, fault: Fault)
  {
    fault == NoFault && Open(c, s, rec.sealedClientSecret).Ok?
  }

  /** Records still to be visited are untouched, the others settled. */
  ghost predicate Progress(c: Cipher, s: KeySet, before: map<string, ProviderRecord>, during: map<string, ProviderRecord>,
                           left: set<string>, faults: string -> Fault)
  {
    && before.Keys == during.Keys
    && (forall id :: id in before ==> before[id].id == id)
    && (forall id :: id in before && id in left ==> during[id] == before[id])
    && (forall id :: id in before && id !in left ==> Settled(c, s, before[id], during[id]))
    && (forall id :: id in Stales(s, before) && id !in left ==> Rotatable(c, s, before[id], faults(id)))
  }

  ghost function Progressed(s: KeySet, before: map<string, ProviderRecord>, left: set<string>): RotateResult
  {
    RotateResult(|Sealeds(before) - left|, |Stales(s, before) - left|)
  }

  lemma ProgressAtStart(c: Cipher, s: KeySet, recs: map<string, ProviderRecord>, faults: string -> Fault)
    requires forall id :: id in recs ==> recs[id].id == id
    ensures Progress(c, s, recs, recs, recs.Keys, faults) && Progressed(s, recs, recs.Keys) == RotateResult(0, 0)
  {
    assert Sealeds(recs) - recs.Keys == {} && Stales(s, recs) - recs.Keys == {};
  }

  lemma VisitedOne(c: Cipher, s: KeySet, before: map<string, ProviderRecord>, during: map<string, ProviderRecord>,
                   after: map<string, ProviderRecord>, left: set<string>, faults: string -> Fault, id: string)
    requires Progress(c, s, before, during, left, faults) && id in left && id in before
    requires after.Keys == before.Keys && forall k :: k in before && k != id ==> after[k] == during[k]
    requires Settled(c, s, before[id], after[id]) && (Stale(s, before[id]) ==> Rotatable(c, s, before[id], faults(id)))
    ensures Progress(c, s, before, after, left - {id}, faults)
  {
    forall k | k in before && k !in left - {id} ensures Settled(c, s, before[k], after[k]) {
      if k != id { assert after[k] == during[k]; }
    }
  }

  lemma CountedOne(s: KeySet, before: map<string, ProviderRecord>, left: set<string>, id: string)
    requires id in left && id in before
    ensures Progressed(s, before, left - {id})
         == RotateResult(Progressed(s, before, left).scanned + (if before[id].sealedClientSecret != [] then 1 else 0),
                         Progressed(s, before, left).rotated + (if Stale(s, before[id]) then 1 else 0))
  {
    OneLess(Sealeds(before), left, id);
    OneLess(Stales(s, before), left, id);
  }

  lemma OneLess(all: set<string>, left: set<string>, id: string)
    requires id in left
    ensures |all - (left - {id})| == |all - left| + (if id in all then 1 else 0)
  {
    assert all - (left - {id}) == if id in all then (all - left) + {id} else all - left;
  }

  lemma StoppedHere(c: Cipher, s: KeySet, before: map<string, ProviderRecord>, during: map<string, ProviderRecord>,
                    after: map<string, ProviderRecord>, left: set<string>, faults: string -> Fault, id: string)
    requires Progress(c, s, before, during, left, faults) && id in left && id in before
    requires after.Keys == before.Keys && forall k :: k in before && k != id ==> after[k] == during[k]
    requires SameSecret(c, s, before[id], after[id]) && Stale(s, before[id]) && !Rotatable(c, s, before[id], faults(id))
    ensures AllSame(c, s, before, after) && (forall k :: k in after ==> after[k].id == k)
    ensures !AllRotatable(c, s, before, faults)
  {
  }

  /** One turn of the loop: it stops there, with every secret as it was, or is one record further. */
  lemma VisitStep(c: Cipher, s: KeySet, before: map<string, ProviderRecord>, during: map<string, ProviderRecord>,
                  left: set<string>, faults: string -> Fault, id: string, nonce: bytes, now: Time)
    requires Correct(c) && s.Valid() && |nonce| == NONCE_SIZE && Progress(c, s, before, during, left, faults) && id in left && id in before
    ensures var after := Rewritten(during, id, Resealed(c, s, before[id], nonce, faults(id)), now);
            if Stale(s, before[id]) && !Rotatable(c, s, before[id], faults(id))
            then AllSame(c, s, before, after) && (forall k :: k in after ==> after[k].id == k) && !AllRotatable(c, s, before, faults)
            else
              && Progress(c, s, before, after, left - {id}, faults)
              && Progressed(s, before, left - {id})
                 == RotateResult(Progressed(s, before, left).scanned + (if before[id].sealedClientSecret != [] then 1 else 0),
                                 Progressed(s, before, left).rotated + (if Stale(s, before[id]) then 1 else 0))
  {
    var after := Rewritten(during, id, Resealed(c, s, before[id], nonce, faults(id)), now);
    ResealedIsSame(c, s, during, before[id], nonce, faults(id), now);
    if Stale(s, before[id]) && !Rotatable(c, s, before[id], faults(id)) {
      StoppedHere(c, s, before, during, after, left, faults, id);
    } else {
      VisitedOne(c, s, before, during, after, left, faults, id);
      CountedOne(s, before, left, id);
    }
  }

  ghost predicate AllRotatable(c: Cipher, s: KeySet, recs: map<string, ProviderRecord>, faults: string -> Fault)
  {
    forall id :: id in Stales(s, recs) ==> Rotatable(c, s, recs[id], faults(id))
  }

  lemma NothingLeft(c: Cipher, s: KeySet, before: map<string, ProviderRecord>, after: map<string, ProviderRecord>, faults: string -> Fault)
    requires Progress(c, s, before, after, {}, faults)
    ensures AllSame(c, s, before, after) && (forall k :: k in after ==> after[k].id == k)
    ensures Stales(s, after) == {} && AllRotatable(c, s, before, faults)
    ensures Progressed(s, before, {}) == RotateResult(|Sealeds(before)|, |Stales(s, before)|)
  {
  }

  /** Nothing is stale after a run that got to the end: a second run finds no
      record to rotate and changes none. */
  lemma SecondRunIsIdle(c: Cipher, s: KeySet, recs: map<string, ProviderRecord>, again: map<string, ProviderRecord>)
    requires Stales(s, recs) == {} && AllSame(c, s, recs, again)
    ensures again == recs && |Stales(s, recs)| == 0
  {
    forall id | id in recs ensures again[id] == recs[id] {
      assert id !in Stales(s, recs);
    }
  }

  /** Then the older keys can be dropped: with only the write key left, every
      secret opens to exactly what it opened to before the rotation. */
  lemma OlderKeysCanGo(c: Cipher, s: KeySet, before: map<string, ProviderRecord>, after: map<string, ProviderRecord>, id: string)
    requires s.Valid() && AllSame(c, s, before, after) && Stales(s, after) == {} && id in before
    ensures Open(c, OnlyWriteKey(s), after[id].sealedClientSecret) == Open(c, s, before[id].sealedClientSecret)
  {
    assert id !in Stales(s, after);
    assert SameSecret(c, s, before[id], after[id]);
  }

  function OnlyWriteKey(s: KeySet): KeySet
    requires s.Valid()
  {
    KeySet(map[s.writeKeyID := s.keys[s.writeKeyID]], s.writeKeyID)
  }
}
