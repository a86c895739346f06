/** The append protocol of audit/audit_sqlite.go: the events table, the stages
    of Log, and the logger class. AuditReplicas interleaves the stages. */
module AuditLog {
  import opened Common
  import opened Bytes
  import opened AuditEvent
  import opened AuditRedaction
  import opened AuditChain

  // ----- the events table -----

  predicate ByteLess(a: byte, b: byte)
  {
    a < b
  }

  /** ORDER BY at, canonical_version, id. */
  predicate RowLess(a: Event, b: Event)
  {
    || a.at < b.at
    || (a.at == b.at && a.version < b.version)
    || (a.at == b.at && a.version == b.version && Lex(a.id, b.id, ByteLess))
  }

  /** INSERT, seen through ORDER BY: the row goes where its key puts it. */
  function InsertRow(table: seq<Event>, e: Event): seq<Event>
  {
    Insert(table, e, RowLess)
  }

  /** DELETE FROM events WHERE at < cutoff. */
  function PrunedTable(table: seq<Event>, cutoff: Time): seq<Event>
  {
    if table == [] then []
    else (if table[0].at < cutoff then [] else [table[0]]) + PrunedTable(table[1..], cutoff)
  }

  /** RedactEventPII: UPDATE events ... WHERE id = ? */
  function RedactedTable(table: seq<Event>, id: bytes): seq<Event>
  {
    seq(|table|, i requires 0 <= i < |table| => if table[i].id == id then RedactedRow(table[i]) else table[i])
  }

  predicate HasID(table: seq<Event>, id: bytes)
  {
    exists i :: 0 <= i < |table| && table[i].id == id
  }

  function ZeroHash(): Digest
  {
    seq(32, i => 0)
  }

  /** latestHashFrom: the genesis value on an empty table or an empty blob. */
  function LatestHash(table: seq<Event>): bytes
  {
    if table == [] || table[|table| - 1].hash == [] then ZeroHash() else table[|table| - 1].hash
  }

  /** The later of the in-process watermark and the table's. */
  function Watermark(lastAt: Time, table: seq<Event>): Time
  {
    if table != [] && table[|table| - 1].at > lastAt then table[|table| - 1].at else lastAt
  }

  // ----- the stages of Log -----

  datatype LogError = MissingField | VersionRefused | BeginFailed | StoreFailed

  /** Everything Log does before it takes the lock: required fields, defaults, email enrichment. */
  function Prepare(e: Event, lookup: bytes -> Option<bytes>): Result<Event, LogError>
  {
    if e.id == [] || e.at == ZERO_TIME || e.action == [] then Err(MissingField)
    else if e.version != 0 && e.version != CANONICAL_VERSION_4 then Err(VersionRefused)
    else
      var a := e.actor.(typ := DefaultedType(e.actor.typ));
      var email :=
        if a.typ == ActorTypeUser() && a.email == [] && a.userID != [] && lookup(a.userID).Some?
        then lookup(a.userID).value else a.email;
      Ok(e.(actor := a.(email := email), version := CANONICAL_VERSION_4))
  }

  function Bumped(e: Event, watermark: Time): Event
  {
    if watermark != ZERO_TIME && e.at <= watermark then e.(at := watermark + 1) else e
  }

  function Salted(h: Hasher, e: Event, salt: bytes): Event
  {
    e.(rowSalt := salt, commitments := ComputeCommitments(h, salt, e))
  }

  function Chained(h: Hasher, e: Event, prev: bytes): Event
  {
    e.(prevHash := prev, hash := Link(h, e, prev))
  }

  /** The row Log writes for a prepared event, given what the locked transaction reads. */
  function LogRow(h: Hasher, e: Event, salt: bytes, lastAt: Time, table: seq<Event>): Event
  {
    Chained(h, Salted(h, Bumped(e, Watermark(lastAt, table)), salt), LatestHash(table))
  }

  // ----- what is kept -----

  predicate IncreasingAt(table: seq<Event>)
  {
    forall i, j :: 0 <= i < j < |table| ==> table[i].at < table[j].at
  }

  /** The table passes both verifiers, in strictly increasing time, each id once. */
  ghost predicate GoodTable(h: Hasher, table: seq<Event>)
  {
    && Verified(h, table)
    && IncreasingAt(table)
    && UniqueIds(table)
    && (table != [] ==> |table[0].prevHash| == HASH_SIZE)
    && forall i :: 0 <= i < |table| ==> table[i].at > ZERO_TIME
  }

  /** A row that may be appended to the table as it stands. */
  ghost predicate Appendable(h: Hasher, table: seq<Event>, e: Event)
  {
    && e.version == CANONICAL_VERSION_4
    && e.at > ZERO_TIME
    && (table != [] ==> table[|table| - 1].at < e.at)
    && e.prevHash == LatestHash(table)
    && e.hash == Link(h, e, e.prevHash)
  }

  /** A row later than every other goes to the end, so the order rows are walked
      in is the order they were chained in. */
  lemma {:induction false} InsertIsAppend(table: seq<Event>, e: Event)
    requires forall i :: 0 <= i < |table| ==> table[i].at < e.at
    ensures InsertRow(table, e) == table + [e]
  {
    if table == [] {
      assert table + [e] == [e];
    } else {
      InsertIsAppend(table[1..], e);
      assert table == [table[0]] + table[1..];
    }
  }

  lemma RowLessIsPartial()
    ensures StrictPartialOrder(RowLess)
    ensures forall a: Event, b: Event :: (a.at, a.version, a.id) != (b.at, b.version, b.id) ==> RowLess(a, b) || RowLess(b, a)
  {
    assert StrictOrder(ByteLess);
    LexIsStrict(ByteLess);
  }

  /** Rows that come out of order are walked by time, then by version, then by id. */
  lemma InsertSorts(table: seq<Event>, e: Event)
    requires Increasing(table, RowLess)
    requires forall i :: 0 <= i < |table| ==> (table[i].at, table[i].version, table[i].id) != (e.at, e.version, e.id)
    ensures var t := InsertRow(table, e);
            && (forall r :: r in t <==> r == e || r in table)
            && Increasing(t, RowLess)
            && forall i, j :: 0 <= i < j < |t| ==>
                 t[i].at < t[j].at || (t[i].at == t[j].at && (t[i].version < t[j].version || (t[i].version == t[j].version && Lex(t[i].id, t[j].id, ByteLess))))
  {
    RowLessIsPartial();
    InsertElements(table, e, RowLess);
    InsertKeepsIncreasing(table, e, RowLess);
  }

  lemma LastIsLatest(h: Hasher, table: seq<Event>, e: Event)
    requires GoodTable(h, table) && (table != [] ==> table[|table| - 1].at < e.at)
    ensures forall i :: 0 <= i < |table| ==> table[i].at < e.at
  {
  }

  lemma AppendKeepsGood(h: Hasher, table: seq<Event>, e: Event)
    requires GoodTable(h, table) && Appendable(h, table, e) && !HasID(table, e.id)
    ensures InsertRow(table, e) == table + [e] && GoodTable(h, table + [e])
  {
    LastIsLatest(h, table, e);
    InsertIsAppend(table, e);
    var t := table + [e];
    forall i | 0 <= i < |t| ensures RowOk(h, t, i) {
      if i < |table| {
        assert RowOk(h, table, i);
      } else if i > 0 {
        assert RowOk(h, table, i - 1);
      }
    }
  }

  lemma {:induction false} NothingToPrune(table: seq<Event>, cutoff: Time)
    requires forall i :: 0 <= i < |table| ==> cutoff <= table[i].at
    ensures PrunedTable(table, cutoff) == table
  {
    if table != [] {
      NothingToPrune(table[1..], cutoff);
      assert table == [table[0]] + table[1..];
    }
  }

  /** On a table in time order, pruning drops rows from the front and nothing else. */
  lemma {:induction false} PruneIsSuffix(table: seq<Event>, cutoff: Time) returns (n: nat)
    requires IncreasingAt(table)
    ensures n <= |table| && PrunedTable(table, cutoff) == table[n..]
    ensures forall i :: 0 <= i < |table| ==> (table[i].at < cutoff <==> i < n)
  {
    if table == [] || cutoff <= table[0].at {
      NothingToPrune(table, cutoff);
      n := 0;
    } else {
      var rest := table[1..];
      var m := PruneIsSuffix(rest, cutoff);
      n := m + 1;
      forall i | 0 <= i < |table| ensures table[i].at < cutoff <==> i < n {
        if i > 0 { assert table[i] == rest[i - 1]; }
      }
      assert rest[m..] == table[n..];
    }
  }

  lemma PruneKeepsGood(h: Hasher, table: seq<Event>, cutoff: Time)
    requires GoodTable(h, table)
    ensures GoodTable(h, PrunedTable(table, cutoff))
  {
    var n := PruneIsSuffix(table, cutoff);
    SuffixVerified(h, table, n);
    if n < |table| {
      assert RowOk(h, table, n);
      if n > 0 { assert RowOk(h, table, n - 1); }
    }
  }

  lemma RedactedRowOk(h: Hasher, table: seq<Event>, id: bytes, i: nat)
    requires i < |table| && RowOk(h, table, i)
    ensures RowOk(h, RedactedTable(table, id), i)
  {
    RedactionIsInvisibleToTheChain(h, table[i], table[i].prevHash);
    assert i > 0 ==> RedactedTable(table, id)[i - 1].hash == table[i - 1].hash;
  }

  lemma RedactedRowsErased(h: Hasher, table: seq<Event>, id: bytes)
    requires Verified(h, table)
    ensures var t := RedactedTable(table, id);
            |t| == |table| && forall i :: 0 <= i < |t| ==>
              if table[i].id == id then Erased(table[i], t[i]) && t[i].rowSalt == [] else t[i] == table[i]
  {
    forall i | 0 <= i < |table| ensures table[i].version == CANONICAL_VERSION_4 {
      assert RowOk(h, table, i);
    }
  }

  lemma RedactKeepsGood(h: Hasher, table: seq<Event>, id: bytes)
    requires GoodTable(h, table)
    ensures GoodTable(h, RedactedTable(table, id))
    ensures LatestHash(RedactedTable(table, id)) == LatestHash(table)
    ensures forall lastAt :: Watermark(lastAt, RedactedTable(table, id)) == Watermark(lastAt, table)
  {
    var t := RedactedTable(table, id);
    forall i | 0 <= i < |t| ensures RowOk(h, t, i) {
      assert RowOk(h, table, i);
      RedactedRowOk(h, table, id, i);
    }
  }

  /** The watermark does its work: a bumped row is later than every row in the
      table and than everything this process wrote before. */
  lemma BumpedIsLater(e: Event, lastAt: Time, table: seq<Event>)
    requires lastAt >= ZERO_TIME && e.at > ZERO_TIME
    ensures Bumped(e, Watermark(lastAt, table)).at > ZERO_TIME
    ensures table != [] ==> Bumped(e, Watermark(lastAt, table)).at > table[|table| - 1].at
    ensures Bumped(e, Watermark(lastAt, table)).at > lastAt
    ensures Bumped(e, Watermark(lastAt, table)).at >= e.at
  {
  }

  /** Whatever the dates, events before Go's zero time included: a row comes to stand behind the
      latest one exactly when it is later already or some watermark is known, and the zero time
      counts as none. */
  lemma BumpedIsLaterIff(e: Event, lastAt: Time, table: seq<Event>)
    requires table != []
    ensures Bumped(e, Watermark(lastAt, table)).at > table[|table| - 1].at
       <==> e.at > table[|table| - 1].at || Watermark(lastAt, table) != ZERO_TIME
  {
  }

  /** Whatever event Log accepts, the commitment check has nothing to say against the row it
      writes, unless the random salt came out all zero, which reads as erased. */
  lemma LoggedRowChecks(h: Hasher, event: Event, lookup: bytes -> Option<bytes>, salt: bytes, lastAt: Time, table: seq<Event>)
    requires Prepare(event, lookup).Ok?
    ensures VerifyCommitments(h, LogRow(h, Prepare(event, lookup).value, salt, lastAt, table))
         == if IsRedacted(salt) then NotCheckable else Matches
  {
    FreshRowChecks(h, Salted(h, Bumped(Prepare(event, lookup).value, Watermark(lastAt, table)), salt));
  }

  lemma LogRowAppendable(h: Hasher, e: Event, salt: bytes, lastAt: Time, table: seq<Event>)
    requires e.version == CANONICAL_VERSION_4 && lastAt >= ZERO_TIME && e.at > ZERO_TIME
    ensures Appendable(h, table, LogRow(h, e, salt, lastAt, table))
  {
  }

  /** Everything Log relies on about the row it is about to insert. */
  lemma LoggedRow(h: Hasher, event: Event, lookup: bytes -> Option<bytes>, salt: bytes, lastAt: Time, table: seq<Event>, e: Event)
    requires GoodTable(h, table) && lastAt >= ZERO_TIME && event.at >= ZERO_TIME && Prepare(event, lookup).Ok?
    requires e == LogRow(h, Prepare(event, lookup).value, salt, lastAt, table)
    ensures e.id == event.id && e.at > lastAt
    ensures !HasID(table, event.id) ==> InsertRow(table, e) == table + [e] && GoodTable(h, table + [e])
  {
    var prepared := Prepare(event, lookup).value;
    LogRowAppendable(h, prepared, salt, lastAt, table);
    BumpedIsLater(prepared, lastAt, table);
    if !HasID(table, event.id) {
      AppendKeepsGood(h, table, e);
    }
  }

  // ----- what a logged row says -----

  /** The facts of the event are the row's, each in its own column. */
  predicate SameFacts(event: Event, row: Event)
  {
    && row.id == event.id && row.action == event.action
    && row.resourceType == event.resourceType && row.resourceID == event.resourceID
    && row.requestID == event.requestID && row.clusterID == event.clusterID && row.tenantID == event.tenantID
    && row.before == event.before && row.after == event.after
    && row.actor.userID == event.actor.userID && row.actor.name == event.actor.name
    && row.actor.ip == event.actor.ip && row.actor.tenantID == event.actor.tenantID
  }

  /** An actor without a type is a user; the address of a user who came without one is looked up. */
  predicate ActorFilledIn(event: Event, lookup: bytes -> Option<bytes>, row: Event)
  {
    var user := Ascii("user");
    && row.actor.typ == (if event.actor.typ == [] then user else event.actor.typ)
    && row.actor.email ==
         if (event.actor.typ == [] || event.actor.typ == user) && event.actor.userID != [] && event.actor.email == []
            && lookup(event.actor.userID).Some?
         then lookup(event.actor.userID).value else event.actor.email
  }

  /** The event's own time where it is later than everything before; otherwise one nanosecond after the latest of that. */
  predicate TimeSettled(at: Time, lastAt: Time, table: seq<Event>, rowAt: Time)
  {
    if at > lastAt && forall i :: 0 <= i < |table| ==> table[i].at < at then rowAt == at
    else
      && rowAt > lastAt && (forall i :: 0 <= i < |table| ==> table[i].at < rowAt)
      && (rowAt == lastAt + 1 || exists i :: 0 <= i < |table| && rowAt == table[i].at + 1)
  }

  /** The row is of version 4, salted afresh and chained onto the last hash, or onto 32 zero bytes. */
  ghost predicate Sealed(h: Hasher, salt: bytes, table: seq<Event>, row: Event)
  {
    && row.version == 4 && row.rowSalt == salt
    && row.prevHash == (if table == [] then seq(32, i => 0) else table[|table| - 1].hash)
    && row.hash == h(row.prevHash + Payload(row, row.prevHash))
    && VerifyCommitments(h, row) == if salt == seq(|salt|, i => 0) then NotCheckable else Matches
  }

  lemma RowKeepsFacts(h: Hasher, event: Event, lookup: bytes -> Option<bytes>, salt: bytes, lastAt: Time, table: seq<Event>)
    requires Prepare(event, lookup).Ok?
    ensures var row := LogRow(h, Prepare(event, lookup).value, salt, lastAt, table);
            SameFacts(event, row) && ActorFilledIn(event, lookup, row)
  {
  }

  lemma BumpSettlesTime(e: Event, lastAt: Time, table: seq<Event>)
    requires IncreasingAt(table) && lastAt >= ZERO_TIME && e.at > ZERO_TIME
    ensures TimeSettled(e.at, lastAt, table, Bumped(e, Watermark(lastAt, table)).at)
  {
    if table != [] {
      assert forall i :: 0 <= i < |table| - 1 ==> table[i].at < table[|table| - 1].at;
    }
  }

  lemma LastHash(h: Hasher, table: seq<Event>)
    requires Verified(h, table)
    ensures LatestHash(table) == if table == [] then seq(32, i => 0) else table[|table| - 1].hash
  {
    if table != [] { assert RowOk(h, table, |table| - 1); }
  }

  lemma LoggedFacts(h: Hasher, event: Event, lookup: bytes -> Option<bytes>, salt: bytes, lastAt: Time, table: seq<Event>)
    requires GoodTable(h, table) && lastAt >= ZERO_TIME && event.at >= ZERO_TIME && Prepare(event, lookup).Ok?
    ensures var row := LogRow(h, Prepare(event, lookup).value, salt, lastAt, table);
            SameFacts(event, row) && ActorFilledIn(event, lookup, row) && TimeSettled(event.at, lastAt, table, row.at)
            && Sealed(h, salt, table, row)
  {
    RowKeepsFacts(h, event, lookup, salt, lastAt, table);
    BumpSettlesTime(Prepare(event, lookup).value, lastAt, table);
    LastHash(h, table);
    ErasedSalt(salt);
    LoggedRowChecks(h, event, lookup, salt, lastAt, table);
  }

  /** Which events Log takes, and what it says of the others. */
  lemma PrepareAccepts(event: Event, lookup: bytes -> Option<bytes>)
    ensures Prepare(event, lookup) == Err(MissingField) <==> event.id == [] || event.at == ZERO_TIME || event.action == []
    ensures Prepare(event, lookup) == Err(VersionRefused)
       <==> event.id != [] && event.at != ZERO_TIME && event.action != [] && event.version != 0 && event.version != 4
    ensures Prepare(event, lookup).Ok?
       <==> event.id != [] && event.at != ZERO_TIME && event.action != [] && (event.version == 0 || event.version == 4)
  {
  }

  // ----- the logger -----

  /** The audit database file, shared by every process that opened it. */
  class Database {
    var events: seq<Event>
  }

  /** Where the environment makes an append fail, if anywhere. */
  datatype Fault = NoFault | AtBegin | AtWatermark | AtSalt | AtLatestHash | AtInsert | AtCommit

  class SQLiteLogger {
    const h: Hasher
    const db: Database
    var lastAt: Time

    ghost predicate Valid()
      reads this, db
    {
      lastAt >= ZERO_TIME && GoodTable(h, db.events)
    }

    /** NewSQLiteLogger on a table it does not refuse: the watermark picks up where the table ends. */
    constructor (h: Hasher, db: Database)
      requires GoodTable(h, db.events)
      ensures Valid() && this.h == h && this.db == db
      ensures lastAt == Watermark(ZERO_TIME, db.events)
    {
      this.h := h;
      this.db := db;
      this.lastAt := if db.events == [] then ZERO_TIME else db.events[|db.events| - 1].at;
    }

    /** Hashes the event onto its predecessor. */
    method ChainOnto(e: Event, prev: bytes) returns (r: Event)
      ensures r == Chained(h, e, prev)
    {
      var payload := CanonicalPayloadV4(e, prev);
      r := e.(prevHash := prev, hash := h(prev + payload));
    }

    /** The part of the transaction that reads and hashes: watermark, salt and
        commitments, latest hash. Nothing is written yet. */
    method BuildRow(prepared: Event, salt: bytes, fault: Fault) returns (r: Option<Event>)
      ensures r.None? <==> fault.AtWatermark? || fault.AtSalt? || fault.AtLatestHash?
      ensures r.Some? ==> r.value == LogRow(h, prepared, salt, lastAt, db.events)
    {
      var watermark := lastAt;
      if fault == AtWatermark {
        return None;
      }
      if db.events != [] && db.events[|db.events| - 1].at > watermark {
        watermark := db.events[|db.events| - 1].at;
      }
      assert watermark == Watermark(lastAt, db.events);
      var timed := Bumped(prepared, watermark);
      if fault == AtSalt {
        return None;
      }
      var sealed := Salted(h, timed, salt);
      if fault == AtLatestHash {
        return None;
      }
      var row := ChainOnto(sealed, LatestHash(db.events));
      r := Some(row);
    }

    /** Log: one serialised transaction. A refused or failed append leaves the
        table as it was; a successful one puts exactly one row behind all others. */
    method Log(event: Event, lookup: bytes -> Option<bytes>, salt: bytes, fault: Fault)
      returns (r: Result<Event, LogError>)
      requires Valid() && event.at >= ZERO_TIME
      modifies this, db
      ensures Valid() && lastAt >= old(lastAt)
      ensures r.Ok? <==>
        && event.id != [] && event.at != ZERO_TIME && event.action != [] && (event.version == 0 || event.version == 4)
        && fault == NoFault && forall i :: 0 <= i < |old(db.events)| ==> old(db.events)[i].id != event.id
      ensures r == Err(MissingField) <==> event.id == [] || event.at == ZERO_TIME || event.action == []
      ensures r == Err(VersionRefused) <==>
        event.id != [] && event.at != ZERO_TIME && event.action != [] && event.version != 0 && event.version != 4
      ensures r.Ok? ==>
        && SameFacts(event, r.value) && ActorFilledIn(event, lookup, r.value)
        && TimeSettled(event.at, old(lastAt), old(db.events), r.value.at) && Sealed(h, salt, old(db.events), r.value)
      ensures r.Ok? ==> r.value == LogRow(h, Prepare(event, lookup).value, salt, old(lastAt), old(db.events))
      ensures r.Ok? ==> db.events == old(db.events) + [r.value] && lastAt == r.value.at
      ensures r.Err? ==> db.events == old(db.events)
    {
      var prepared := Prepare(event, lookup);
      PrepareAccepts(event, lookup);
      if prepared.Err? {
        return Err(prepared.error);
      }
      if fault == AtBegin {
        return Err(BeginFailed);
      }
      var built := BuildRow(prepared.value, salt, fault);
      if built.None? {
        return Err(StoreFailed);
      }
      var e := built.value;
      LoggedRow(h, event, lookup, salt, lastAt, db.events, e);
      LoggedFacts(h, event, lookup, salt, lastAt, db.events);
      lastAt := e.at;
      if fault == AtInsert || HasID(db.events, e.id) {
        return Err(StoreFailed);
      }
      if fault == AtCommit {
        return Err(StoreFailed);
      }
      db.events := InsertRow(db.events, e);
      r := Ok(e);
    }

    /** Verify on this database. */
    method Verify() returns (r: VerifyResult)
      ensures Verified(h, db.events) <==> !r.tamper
      ensures r.tamper ==> FirstBad(h, db.events, r.firstBadIndex)
    {
      r := WalkChain(h, db.events);
    }

    method PruneOlderThan(cutoff: Time) returns (n: nat)
      requires Valid()
      modifies db
      ensures Valid() && n <= |old(db.events)| && db.events == old(db.events)[n..]
      ensures forall i :: 0 <= i < |old(db.events)| ==> (old(db.events)[i].at < cutoff <==> i < n)
    {
      ghost var before := db.events;
      ghost var k := PruneIsSuffix(before, cutoff);
      PruneKeepsGood(h, before, cutoff);
      var kept := PrunedTable(db.events, cutoff);
      n := |db.events| - |kept|;
      assert |kept| == |before| - k && n == k;
      assert GoodTable(h, kept);
      db.events := kept;
      assert db.events == before[n..];
    }

    method RedactEvent(id: bytes) returns (found: bool)
      requires Valid()
      modifies db
      ensures Valid() && found == HasID(old(db.events), id)
      ensures db.events == RedactedTable(old(db.events), id)
      ensures forall i :: 0 <= i < |db.events| ==>
        if old(db.events)[i].id == id then Erased(old(db.events)[i], db.events[i]) && db.events[i].rowSalt == []
        else db.events[i] == old(db.events)[i]
    {
      RedactedRowsErased(h, db.events, id);
      RedactKeepsGood(h, db.events, id);
      found := HasID(db.events, id);
      if found {
        db.events := RedactedTable(db.events, id);
      } else {
        assert db.events == RedactedTable(db.events, id);
      }
    }
  }
}
