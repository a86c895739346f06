/** The two chain verifiers (walkChain in audit/audit_sqlite.go and the boot
    walk in audit/verify_boot.go) and what a passing chain proves. */
module AuditChain {
  import opened Common
  import opened Bytes
  import opened AuditEvent
  import opened AuditRedaction

  // ----- what it means for a row to be good -----

  /** The predecessor hash row i must chain onto; row 0 supplies its own baseline. */
  function Predecessor(rows: seq<Event>, i: nat): bytes
    requires i < |rows|
  {
    if i == 0 then rows[0].prevHash else rows[i - 1].hash
  }

  predicate RowOk(h: Hasher, rows: seq<Event>, i: nat)
    requires i < |rows|
  {
    && rows[i].prevHash == Predecessor(rows, i)
    && rows[i].version == CANONICAL_VERSION_4
    && rows[i].hash == Link(h, rows[i], rows[i].prevHash)
  }

  ghost predicate Verified(h: Hasher, rows: seq<Event>)
  {
    forall i :: 0 <= i < |rows| ==> RowOk(h, rows, i)
  }

  /** i is the first row a verifier has to complain about. */
  ghost predicate FirstBad(h: Hasher, rows: seq<Event>, i: int)
  {
    0 <= i < |rows| && !RowOk(h, rows, i) && forall j :: 0 <= j < i ==> RowOk(h, rows, j)
  }

  // ----- the verifiers -----

  datatype VerifyResult = VerifyResult(total: nat, tamper: bool, firstBadIndex: nat)

  lemma FromRowPayload(e: Event, prev: bytes)
    ensures Payload(FromRow(e), prev) == Payload(e, prev)
  {
  }

  method WalkChain(h: Hasher, rows: seq<Event>) returns (r: VerifyResult)
    ensures r.total == |rows|
    ensures r.tamper <==> !Verified(h, rows)
    ensures r.tamper ==> FirstBad(h, rows, r.firstBadIndex)
  {
    if |rows| == 0 {
      return VerifyResult(0, false, 0);
    }
    var prev: bytes := [];
    for i := 0 to |rows|
      invariant forall j :: 0 <= j < i ==> RowOk(h, rows, j)
      invariant i > 0 ==> prev == rows[i - 1].hash
    {
      var e := FromRow(rows[i]);
      if i == 0 {
        prev := e.prevHash;
      } else if e.prevHash != prev {
        assert !RowOk(h, rows, i);
        return VerifyResult(|rows|, true, i);
      }
      if e.version != CANONICAL_VERSION_4 {
        assert !RowOk(h, rows, i);
        return VerifyResult(|rows|, true, i);
      }
      var payload := CanonicalPayloadV4(e, prev);
      FromRowPayload(rows[i], prev);
      if e.hash != h(prev + payload) {
        assert !RowOk(h, rows, i);
        return VerifyResult(|rows|, true, i);
      }
      prev := e.hash;
    }
    r := VerifyResult(|rows|, false, 0);
  }

  datatype Mismatch = PrevHashMismatch | UnknownVersion | HashMismatch

  datatype BootResult = Clean(count: nat) | ChainMismatch(index: nat, reason: Mismatch) | Cancelled

  /** Why row i is bad, in the order the walk looks. */
  function ReasonAt(h: Hasher, rows: seq<Event>, i: nat): Mismatch
    requires i < |rows| && !RowOk(h, rows, i)
  {
    if rows[i].prevHash != Predecessor(rows, i) then PrevHashMismatch
    else if rows[i].version != CANONICAL_VERSION_4 then UnknownVersion
    else HashMismatch
  }

  /** verifyChainPostMigrationStore. cancelled(0) is ctx.Err() before the rows
      are listed, cancelled(i + 1) the poll at row i. */
  method VerifyChainPostMigration(h: Hasher, rows: seq<Event>, cancelled: nat -> bool) returns (r: BootResult)
    ensures r.Clean? ==> Verified(h, rows) && r.count == |rows|
    ensures r.ChainMismatch? ==> FirstBad(h, rows, r.index) && r.reason == ReasonAt(h, rows, r.index)
    ensures r.Cancelled? <==> exists k: nat :: k <= |rows| && cancelled(k) && forall j :: 0 <= j < k - 1 ==> RowOk(h, rows, j)
  {
    if cancelled(0) {
      return Cancelled;
    }
    var prev: bytes := [];
    for i := 0 to |rows|
      invariant forall j :: 0 <= j < i ==> RowOk(h, rows, j)
      invariant forall k: nat :: k <= i ==> !cancelled(k)
      invariant i > 0 ==> prev == rows[i - 1].hash
    {
      if cancelled(i + 1) {
        return Cancelled;
      }
      var e := FromRow(rows[i]);
      if i == 0 {
        prev := e.prevHash;
      } else if e.prevHash != prev {
        return ChainMismatch(i, PrevHashMismatch);
      }
      if e.version != CANONICAL_VERSION_4 {
        return ChainMismatch(i, UnknownVersion);
      }
      var payload := CanonicalPayloadV4(e, prev);
      FromRowPayload(rows[i], prev);
      var recomputed := h(prev + payload);
      if recomputed != e.hash {
        return ChainMismatch(i, HashMismatch);
      }
      prev := recomputed;
    }
    r := Clean(|rows|);
  }

  /** Both verifiers, on any rows: same verdict, same index, whenever the boot
      walk is not cancelled. */
  method BothVerifiers(h: Hasher, rows: seq<Event>, cancelled: nat -> bool) returns (w: VerifyResult, b: BootResult)
    ensures b.Clean? ==> !w.tamper && b.count == w.total
    ensures b.ChainMismatch? ==> w.tamper && b.index == w.firstBadIndex
    ensures (forall k :: !cancelled(k)) ==> (b.Clean? <==> !w.tamper) && (b.ChainMismatch? <==> w.tamper)
  {
    w := WalkChain(h, rows);
    b := VerifyChainPostMigration(h, rows, cancelled);
  }

  // ----- tamper evidence -----

  ghost predicate AllEncodable(rows: seq<Event>)
  {
    forall i :: 0 <= i < |rows| ==> Encodable(rows[i])
  }

  function HashInput(e: Event): bytes
  {
    LinkInput(e, e.prevHash)
  }

  function Fields(e: Event): Hashed
  {
    HashedFields(e, e.prevHash)
  }

  /** Some row of a and some row of b have different hash inputs and one hash. */
  ghost predicate RowsCollide(h: Hasher, a: seq<Event>, b: seq<Event>)
  {
    exists i, j :: 0 <= i < |a| && 0 <= j < |b| && Collides(h, HashInput(a[i]), HashInput(b[j]))
  }

  /** A log as the verifiers see it, with the 32-byte baseline every log starts from. */
  ghost predicate Log(h: Hasher, rows: seq<Event>)
  {
    Verified(h, rows) && AllEncodable(rows) && (rows != [] ==> |rows[0].prevHash| == HASH_SIZE)
  }

  lemma PrevHashSize(h: Hasher, rows: seq<Event>, i: nat)
    requires Log(h, rows) && i < |rows|
    ensures |rows[i].prevHash| == HASH_SIZE
  {
    assert RowOk(h, rows, i);
    if i > 0 { assert RowOk(h, rows, i - 1); }
  }

  /** Row for row from the end, the two logs agree on every hashed field for as long as a lasts. */
  ghost predicate AgreeFromTheEnd(a: seq<Event>, b: seq<Event>)
    requires |a| <= |b|
  {
    forall i :: 0 <= i < |a| ==> Fields(a[i]) == Fields(b[|b| - |a| + i])
  }

  /** Two rows of logs with one hash have the same hashed fields, or collide. */
  lemma SameHashSameFields(h: Hasher, a: seq<Event>, i: nat, b: seq<Event>, j: nat)
    requires Log(h, a) && Log(h, b) && i < |a| && j < |b| && a[i].hash == b[j].hash
    ensures Fields(a[i]) == Fields(b[j]) || RowsCollide(h, a, b)
  {
    assert RowOk(h, a, i) && RowOk(h, b, j);
    PrevHashSize(h, a, i);
    PrevHashSize(h, b, j);
    if HashInput(a[i]) == HashInput(b[j]) {
      LinkInputInjective(a[i], a[i].prevHash, b[j], b[j].prevHash);
    } else {
      assert Collides(h, HashInput(a[i]), HashInput(b[j]));
    }
  }

  /** Rows that agree were chained onto the same hash. */
  lemma SamePredecessorHash(h: Hasher, a: seq<Event>, i: nat, b: seq<Event>, j: nat)
    requires Log(h, a) && Log(h, b) && i + 1 < |a| && j + 1 < |b| && Fields(a[i + 1]) == Fields(b[j + 1])
    ensures a[i].hash == b[j].hash
  {
    assert RowOk(h, a, i + 1) && RowOk(h, b, j + 1);
    assert a[i].hash == Fields(a[i + 1]).prevHash == Fields(b[j + 1]).prevHash == b[j].hash;
  }

  predicate RowsAgree(a: Event, b: Event)
  {
    a.hash == b.hash && Fields(a) == Fields(b)
  }

  ghost predicate Agreed(h: Hasher, a: seq<Event>, i: nat, b: seq<Event>, j: nat)
    requires i < |a| && j < |b|
  {
    RowsAgree(a[i], b[j]) || RowsCollide(h, a, b)
  }

  /** From one pair of rows to the pair before it. */
  lemma AgreeBefore(h: Hasher, a: seq<Event>, i: nat, b: seq<Event>, j: nat)
    requires Log(h, a) && Log(h, b) && i + 1 < |a| && j + 1 < |b| && Agreed(h, a, i + 1, b, j + 1)
    ensures Agreed(h, a, i, b, j)
  {
    if !RowsCollide(h, a, b) {
      SamePredecessorHash(h, a, i, b, j);
      SameHashSameFields(h, a, i, b, j);
    }
  }

  /** Rows at the same distance from the end. */
  lemma {:induction false} AgreeAt(h: Hasher, a: seq<Event>, i: nat, b: seq<Event>, j: nat)
    requires Log(h, a) && Log(h, b) && i < |a| && j < |b| && |a| - i == |b| - j
    requires a[|a| - 1].hash == b[|b| - 1].hash
    ensures Agreed(h, a, i, b, j)
    decreases |a| - i
  {
    if i == |a| - 1 {
      SameHashSameFields(h, a, i, b, j);
    } else {
      AgreeAt(h, a, i + 1, b, j + 1);
      AgreeBefore(h, a, i, b, j);
    }
  }

  /** The end of a log pins down the whole log: two verified logs with one last
      hash agree all the way back, or rows of the two collide. */
  lemma TamperEvidence(h: Hasher, a: seq<Event>, b: seq<Event>)
    requires Log(h, a) && Log(h, b) && 0 < |a| <= |b|
    requires a[|a| - 1].hash == b[|b| - 1].hash
    ensures AgreeFromTheEnd(a, b) || RowsCollide(h, a, b)
  {
    if !RowsCollide(h, a, b) {
      forall i | 0 <= i < |a| ensures Fields(a[i]) == Fields(b[|b| - |a| + i]) {
        AgreeAt(h, a, i, b, |b| - |a| + i);
      }
    }
  }

  // ----- where a fault is reported -----

  /** Replacing one row of a verified log, hash column untouched, by one that
      differs in a hashed field or in its version is reported at that very row,
      or the two rows collide. */
  lemma EditIsReportedInPlace(h: Hasher, rows: seq<Event>, i: nat, r: Event)
    requires Log(h, rows) && i < |rows|
    requires r.hash == rows[i].hash && Encodable(r) && |r.prevHash| == HASH_SIZE
    requires Fields(r) != Fields(rows[i]) || r.version != rows[i].version
    ensures FirstBad(h, rows[i := r], i) || Collides(h, HashInput(r), HashInput(rows[i]))
  {
    PrevHashSize(h, rows, i);
    assert RowOk(h, rows, i);
    PrefixUntouched(h, rows, rows[i := r], i, r);
    if HashInput(r) == HashInput(rows[i]) {
      LinkInputInjective(r, r.prevHash, rows[i], rows[i].prevHash);
    }
  }

  lemma PrefixUntouched(h: Hasher, rows: seq<Event>, rows': seq<Event>, i: nat, r: Event)
    requires Verified(h, rows) && i < |rows| && rows' == rows[i := r]
    ensures forall j :: 0 <= j < i ==> RowOk(h, rows', j)
  {
    forall j | 0 <= j < i ensures RowOk(h, rows', j) {
      assert RowOk(h, rows, j);
    }
  }

  /** With the hash column rewritten too, the fault moves at most one row: a
      properly re-hashed row is reported at its successor, and goes unnoticed
      exactly when it is the last row. */
  lemma RehashedEditIsReportedNext(h: Hasher, rows: seq<Event>, i: nat, r: Event)
    requires Verified(h, rows) && i < |rows| && r.hash != rows[i].hash
    ensures if !RowOk(h, rows[i := r], i) then FirstBad(h, rows[i := r], i)
            else if i + 1 < |rows| then FirstBad(h, rows[i := r], i + 1)
            else Verified(h, rows[i := r])
  {
    PrefixUntouched(h, rows, rows[i := r], i, r);
    if RowOk(h, rows[i := r], i) && i + 1 < |rows| {
      assert RowOk(h, rows, i + 1);
      assert !RowOk(h, rows[i := r], i + 1);
    }
  }

  /** Ids are the primary key of the table. */
  ghost predicate UniqueIds(rows: seq<Event>)
  {
    forall i, j :: 0 <= i < j < |rows| ==> rows[i].id != rows[j].id
  }

  function Without(rows: seq<Event>, i: nat): seq<Event>
    requires i < |rows|
  {
    rows[..i] + rows[i + 1..]
  }

  /** Deleting a row of a verified log: an interior row is reported at its own
      index or yields a collision with its predecessor; the first and the last
      row can go unnoticed. */
  lemma DeletionIsReported(h: Hasher, rows: seq<Event>, i: nat)
    requires Log(h, rows) && UniqueIds(rows) && i < |rows|
    ensures 0 < i < |rows| - 1 ==>
      FirstBad(h, Without(rows, i), i) || Collides(h, HashInput(rows[i - 1]), HashInput(rows[i]))
    ensures i == 0 || i == |rows| - 1 ==> Verified(h, Without(rows, i))
  {
    var rows' := Without(rows, i);
    forall j | 0 <= j < i ensures RowOk(h, rows', j) {
      assert RowOk(h, rows, j);
    }
    if 0 < i < |rows| - 1 {
      assert RowOk(h, rows, i - 1) && RowOk(h, rows, i) && RowOk(h, rows, i + 1);
      assert rows'[i] == rows[i + 1] && rows'[i - 1] == rows[i - 1];
      if RowOk(h, rows', i) {
        assert rows[i].hash == rows[i - 1].hash;
        if HashInput(rows[i - 1]) == HashInput(rows[i]) {
          PrevHashSize(h, rows, i - 1);
          PrevHashSize(h, rows, i);
          LinkInputInjective(rows[i - 1], rows[i - 1].prevHash, rows[i], rows[i].prevHash);
        }
      }
    } else if i == 0 {
      SuffixVerified(h, rows, 1);
      assert rows' == rows[1..];
    }
  }

  /** Dropping rows from the front, as a retention prune does, keeps a log verified. */
  lemma SuffixVerified(h: Hasher, rows: seq<Event>, n: nat)
    requires Verified(h, rows) && n <= |rows|
    ensures Verified(h, rows[n..])
  {
    forall i | 0 <= i < |rows| - n ensures RowOk(h, rows[n..], i) {
      assert RowOk(h, rows, n + i);
    }
  }

  /** No two rows of a verified log chain onto one predecessor: that would be a fork. */
  lemma NoFork(h: Hasher, rows: seq<Event>, i: nat, j: nat)
    requires Log(h, rows) && UniqueIds(rows) && 0 < i < j < |rows|
    ensures rows[i].prevHash != rows[j].prevHash || RowsCollide(h, rows, rows)
  {
    assert RowOk(h, rows, i) && RowOk(h, rows, j) && RowOk(h, rows, i - 1) && RowOk(h, rows, j - 1);
    var x, y := rows[i - 1], rows[j - 1];
    if rows[i].prevHash == rows[j].prevHash {
      if HashInput(x) == HashInput(y) {
        PrevHashSize(h, rows, i - 1);
        PrevHashSize(h, rows, j - 1);
        LinkInputInjective(x, x.prevHash, y, y.prevHash);
      }
      assert Collides(h, HashInput(x), HashInput(y));
    }
  }

  /** Redacting any row of any log, sound or broken, changes no verifier's answer at any index. */
  lemma RedactionKeepsTheVerdict(h: Hasher, rows: seq<Event>, i: nat, k: nat)
    requires i < |rows| && k < |rows|
    ensures RowOk(h, rows[i := RedactedRow(rows[i])], k) == RowOk(h, rows, k)
  {
  }
}
