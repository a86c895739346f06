/** Reading the audit log page by page: filters, cursors and the guarantee that
    following NextCursor to the end loses and repeats nothing while other
    replicas keep logging (audit/audit_sqlite.go:361-435, 596-616, 696-761). */
module AuditPages {
  import opened Common
  import opened Bytes
  import opened AuditEvent
  import opened AuditLog

  // ----- filters -----

  /** A tenant.ID used as a filter: unset means no filter, tenant.Single is Scope([]). */
  datatype TenantFilter = AnyTenant | Scope(id: bytes)

  datatype Filter = Filter(
    since: Time,
    until: Time,
    actorUserID: bytes,
    actorEmail: bytes,
    action: bytes,
    resourceType: bytes,
    resourceID: bytes,
    requestID: bytes,
    tenantID: TenantFilter,
    actorTenantID: TenantFilter,
    limit: int,
    cursor: bytes)

  datatype Column = ActorUserID | ActorEmail | Action | ResourceType | ResourceID | RequestID | TenantID | ActorTenantID

  function Get(r: Event, c: Column): bytes
  {
    match c
    case ActorUserID => r.actor.userID
    case ActorEmail => r.actor.email
    case Action => r.action
    case ResourceType => r.resourceType
    case ResourceID => r.resourceID
    case RequestID => r.requestID
    case TenantID => r.tenantID
    case ActorTenantID => r.actor.tenantID
  }

  datatype Key = Key(at: Time, id: bytes)

  function KeyOf(r: Event): Key
  {
    Key(r.at, r.id)
  }

  predicate KeyLess(a: Key, b: Key)
  {
    a.at < b.at || (a.at == b.at && Lex(a.id, b.id, ByteLess))
  }

  lemma KeyLessIsStrict()
    ensures StrictOrder(KeyLess)
  {
    assert StrictOrder(ByteLess);
    LexIsStrict(ByteLess);
  }

  /** One fragment of the WHERE clause. */
  datatype Condition =
    | AtOrAfter(t: Time)
    | EarlierThan(t: Time)
    | Equals(c: Column, v: bytes)
    | NotEmpty(c: Column)
    | InClusters(ids: seq<bytes>)
    | Below(key: Key)

  predicate Holds(c: Condition, r: Event)
  {
    match c
    case AtOrAfter(t) => r.at >= t
    case EarlierThan(t) => r.at < t
    case Equals(col, v) => Get(r, col) == v
    case NotEmpty(col) => Get(r, col) != []
    case InClusters(ids) => r.clusterID == [] || r.clusterID in ids
    case Below(key) => KeyLess(KeyOf(r), key)
  }

  predicate AllHold(cs: seq<Condition>, r: Event)
  {
    forall i :: 0 <= i < |cs| ==> Holds(cs[i], r)
  }

  predicate TenantMatches(f: TenantFilter, id: bytes)
  {
    f.AnyTenant? || f.id == id
  }

  /** What the documentation of Filter promises: every field that is set applies, and they are ANDed. */
  predicate Matches(f: Filter, r: Event)
  {
    && (f.since != ZERO_TIME ==> r.at >= f.since)
    && (f.until != ZERO_TIME ==> r.at < f.until)
    && (f.actorUserID != [] ==> r.actor.userID == f.actorUserID)
    && (f.actorEmail != [] ==> r.actor.email == f.actorEmail)
    && (f.action != [] ==> r.action == f.action)
    && (f.resourceType != [] ==> r.resourceType == f.resourceType)
    && (f.resourceID != [] ==> r.resourceID == f.resourceID)
    && (f.requestID != [] ==> r.requestID == f.requestID)
    && TenantMatches(f.tenantID, r.tenantID)
    && TenantMatches(f.actorTenantID, r.actor.tenantID)
  }

  // ----- cursors -----

  const BAR: byte := 124

  /** RFC3339Nano, as far as cursors rely on it. */
  datatype TimeCodec = TimeCodec(format: Time -> bytes, parse: bytes -> Option<Time>)

  /** A time of 64 bits, which is all an event hashes, comes back from its text; and
      no text with a bar in it is a time. */
  ghost predicate Faithful(c: TimeCodec)
  {
    && (forall t :: IsInt64(t) ==> c.parse(c.format(t)) == Some(t))
    && (forall s :: BAR in s ==> c.parse(s).None?)
  }

  datatype CursorError = BadTimestamp | NoSeparator

  function FormatCursor(c: TimeCodec, k: Key): bytes
  {
    c.format(k.at) + [BAR] + k.id
  }

  /** Splits at the last bar, if there is one. */
  function CursorKey(c: TimeCodec, s: bytes): Result<Key, CursorError>
  {
    if s == [] then Err(NoSeparator)
    else KeyAt(c, s, |s| - 1)
  }

  function KeyAt(c: TimeCodec, s: bytes, i: nat): Result<Key, CursorError>
    requires i < |s|
  {
    if s[i] == BAR then
      match c.parse(s[..i])
      case None => Err(BadTimestamp)
      case Some(t) => Ok(Key(t, s[i + 1..]))
    else if i == 0 then Err(NoSeparator)
    else KeyAt(c, s, i - 1)
  }

  /** parseCursor */
  method ParseCursor(c: TimeCodec, s: bytes) returns (r: Result<Key, CursorError>)
    ensures r == CursorKey(c, s)
  {
    var i := |s| - 1;
    while i >= 0
      invariant -1 <= i < |s|
      invariant i >= 0 ==> CursorKey(c, s) == KeyAt(c, s, i)
      invariant i < 0 ==> CursorKey(c, s) == Err(NoSeparator)
    {
      if s[i] == BAR {
        match c.parse(s[..i]) {
          case None => return Err(BadTimestamp);
          case Some(t) => return Ok(Key(t, s[i + 1..]));
        }
      }
      i := i - 1;
    }
    r := Err(NoSeparator);
  }

  lemma {:induction false} KeyAtBar(c: TimeCodec, s: bytes, n: nat, i: nat)
    requires n <= i < |s| && s[n] == BAR
    ensures BAR !in s[n + 1..i + 1] ==> KeyAt(c, s, i) == KeyAt(c, s, n)
    ensures BAR in s[n + 1..i + 1] ==> exists k :: n < k <= i && s[k] == BAR && KeyAt(c, s, i) == KeyAt(c, s, k)
    decreases i - n
  {
    if i > n {
      assert s[n + 1..i + 1] == s[n + 1..i] + [s[i]];
      if s[i] != BAR {
        KeyAtBar(c, s, n, i - 1);
      }
    }
  }

  lemma CursorParts(c: TimeCodec, k: Key)
    ensures var s, n := FormatCursor(c, k), |c.format(k.at)|;
            n < |s| && s[n] == BAR && s[..n] == c.format(k.at) && s[n + 1..] == k.id && s[n + 1..|s|] == k.id
  {
  }

  /** A cursor means the key it was made from exactly when the id has no bar in it. */
  lemma CursorRoundTrip(c: TimeCodec, k: Key)
    requires Faithful(c) && IsInt64(k.at)
    ensures CursorKey(c, FormatCursor(c, k)) == Ok(k) <==> BAR !in k.id
  {
    var s := FormatCursor(c, k);
    var n := |c.format(k.at)|;
    CursorParts(c, k);
    if BAR in k.id {
      LaterBar(c, s, n);
    } else {
      OnlyBar(c, s, n);
    }
  }

  lemma OnlyBar(c: TimeCodec, s: bytes, n: nat)
    requires n < |s| && s[n] == BAR && BAR !in s[n + 1..|s|]
    ensures CursorKey(c, s) == match c.parse(s[..n]) case None => Err(BadTimestamp) case Some(t) => Ok(Key(t, s[n + 1..]))
  {
    KeyAtBar(c, s, n, |s| - 1);
  }

  lemma LaterBar(c: TimeCodec, s: bytes, n: nat)
    requires Faithful(c) && n < |s| && s[n] == BAR && BAR in s[n + 1..|s|]
    ensures KeyAt(c, s, |s| - 1) == Err(BadTimestamp)
  {
    KeyAtBar(c, s, n, |s| - 1);
    var i :| n < i <= |s| - 1 && s[i] == BAR && KeyAt(c, s, |s| - 1) == KeyAt(c, s, i);
    BarInTime(c, s, n, i);
  }

  /** Cut at a later bar, the time part has a bar in it and does not parse. */
  lemma BarInTime(c: TimeCodec, s: bytes, n: nat, i: nat)
    requires Faithful(c) && n < i < |s| && s[n] == BAR && s[i] == BAR
    ensures KeyAt(c, s, i) == Err(BadTimestamp)
  {
  }

  method AddEquals(w: seq<Condition>, col: Column, v: bytes) returns (r: seq<Condition>)
    ensures forall e :: AllHold(r, e) <==> AllHold(w, e) && (v != [] ==> Get(e, col) == v)
  {
    r := w;
    if v != [] {
      AllHoldAppend(w, Equals(col, v));
      r := w + [Equals(col, v)];
    }
  }

  /** A tenant term also carries the index predicate "<> ''", which must not change what matches. */
  method AddTenant(w: seq<Condition>, col: Column, f: TenantFilter) returns (r: seq<Condition>)
    ensures forall e :: AllHold(r, e) <==> AllHold(w, e) && TenantMatches(f, Get(e, col))
  {
    r := w;
    if f.Scope? {
      AllHoldAppend(w, Equals(col, f.id));
      r := w + [Equals(col, f.id)];
      if f.id != [] {
        AllHoldAppend(r, NotEmpty(col));
        r := r + [NotEmpty(col)];
      }
    }
  }

  lemma AllHoldAppend(w: seq<Condition>, c: Condition)
    ensures forall e :: AllHold(w + [c], e) <==> AllHold(w, e) && Holds(c, e)
  {
    forall e ensures AllHold(w + [c], e) <==> AllHold(w, e) && Holds(c, e) {
      if AllHold(w + [c], e) {
        forall i | 0 <= i < |w| ensures Holds(w[i], e) {
          assert (w + [c])[i] == w[i];
        }
        assert (w + [c])[|w|] == c;
      }
    }
  }

  /** Where the next page starts: below this key, or anywhere on the first page. */
  predicate BelowCursor(start: Option<Key>, k: Key)
  {
    start.Some? ==> KeyLess(k, start.value)
  }

  method AddTimes(f: Filter) returns (w: seq<Condition>)
    ensures forall e :: AllHold(w, e) <==> (f.since != ZERO_TIME ==> e.at >= f.since) && (f.until != ZERO_TIME ==> e.at < f.until)
  {
    w := [];
    if f.since != ZERO_TIME {
      AllHoldAppend(w, AtOrAfter(f.since));
      w := w + [AtOrAfter(f.since)];
    }
    if f.until != ZERO_TIME {
      AllHoldAppend(w, EarlierThan(f.until));
      w := w + [EarlierThan(f.until)];
    }
  }

  /** filterWhere: the fragments together say what Filter promises, no more and no less. */
  method FilterWhere(f: Filter, c: TimeCodec) returns (r: Result<seq<Condition>, CursorError>)
    ensures f.cursor == [] ==> r.Ok? && forall e :: AllHold(r.value, e) <==> Matches(f, e)
    ensures f.cursor != [] ==>
      match CursorKey(c, f.cursor)
      case Err(x) => r == Err(x)
      case Ok(k) => r.Ok? && forall e :: AllHold(r.value, e) <==> Matches(f, e) && KeyLess(KeyOf(e), k)
  {
    var w := AddTimes(f);
    w := AddEquals(w, ActorUserID, f.actorUserID);
    w := AddEquals(w, ActorEmail, f.actorEmail);
    w := AddEquals(w, Action, f.action);
    w := AddEquals(w, ResourceType, f.resourceType);
    w := AddEquals(w, ResourceID, f.resourceID);
    w := AddEquals(w, RequestID, f.requestID);
    w := AddTenant(w, TenantID, f.tenantID);
    w := AddTenant(w, ActorTenantID, f.actorTenantID);
    if f.cursor != [] {
      var k := ParseCursor(c, f.cursor);
      if k.Err? {
        return Err(k.error);
      }
      AllHoldAppend(w, Below(k.value));
      w := w + [Below(k.value)];
    }
    r := Ok(w);
  }

  // ----- one page -----

  /** Newest first, no key twice. */
  ghost predicate Descending(rows: seq<Event>)
  {
    forall i, j :: 0 <= i < j < |rows| ==> KeyLess(KeyOf(rows[j]), KeyOf(rows[i]))
  }

  /** rows are the first `limit` rows of the table that p accepts, newest first. */
  ghost predicate Selects(table: seq<Event>, p: Event -> bool, limit: nat, rows: seq<Event>)
  {
    && Descending(rows)
    && |rows| <= limit
    && (forall i :: 0 <= i < |rows| ==> rows[i] in table && p(rows[i]))
    && (forall r :: r in table && p(r) && r !in rows ==>
          |rows| == limit && forall i :: 0 <= i < |rows| ==> KeyLess(KeyOf(r), KeyOf(rows[i])))
  }

  /** SELECT ... WHERE ... ORDER BY at DESC, id DESC LIMIT ?, on a table in the
      time order every logger keeps (AuditReplicas.EveryRunVerifies). */
  method RunQuery(table: seq<Event>, where: seq<Condition>, limit: nat) returns (rows: seq<Event>)
    requires IncreasingAt(table)
    ensures Selects(table, e => AllHold(where, e), limit, rows)
  {
    rows := [];
    var i := |table|;
    while i > 0 && |rows| < limit
      invariant 0 <= i <= |table| && |rows| <= limit
      invariant Descending(rows)
      invariant forall j :: 0 <= j < |rows| ==> rows[j] in table[i..] && AllHold(where, rows[j])
      invariant forall r :: r in table[i..] && AllHold(where, r) ==> r in rows
    {
      i := i - 1;
      assert table[i..] == [table[i]] + table[i + 1..];
      if AllHold(where, table[i]) {
        rows := rows + [table[i]];
      }
    }
    forall r | r in table && AllHold(where, r) && r !in rows
      ensures |rows| == limit && forall j :: 0 <= j < |rows| ==> KeyLess(KeyOf(r), KeyOf(rows[j]))
    {
      assert table == table[..i] + table[i..];
      assert r in table[..i];
    }
  }

  datatype Page = Page(events: seq<Event>, nextCursor: bytes)

  function PageLimit(f: Filter): nat
  {
    if f.limit <= 0 then 50 else f.limit
  }

  /** One event for each row, column by column what is stored. */
  predicate ReadsBack(rows: seq<Event>, events: seq<Event>)
  {
    |events| == |rows| && forall i :: 0 <= i < |rows| ==> ReadsAs(rows[i], events[i])
  }

  /** pageFromRows: a cursor exactly on a full page. */
  method PageFromRows(c: TimeCodec, rows: seq<Event>, limit: nat) returns (page: Page)
    requires limit > 0
    ensures ReadsBack(rows, page.events)
    ensures page.nextCursor == if |rows| == limit then FormatCursor(c, KeyOf(rows[|rows| - 1])) else []
  {
    var out: seq<Event> := [];
    for i := 0 to |rows|
      invariant |out| == i && forall j :: 0 <= j < i ==> ReadsAs(rows[j], out[j])
    {
      out := out + [FromRow(rows[i])];
    }
    page := Page(out, []);
    if |rows| == limit && |rows| > 0 {
      page := page.(nextCursor := FormatCursor(c, KeyOf(rows[|rows| - 1])));
    }
  }

  /** The whole WHERE clause: the filter's conditions and, where clusters are given, their scope. */
  method ListWhere(c: TimeCodec, f: Filter, clusters: Option<seq<bytes>>) returns (r: Result<seq<Condition>, CursorError>)
    ensures f.cursor != [] && CursorKey(c, f.cursor).Err? ==> r == Err(CursorKey(c, f.cursor).error)
    ensures f.cursor == [] || CursorKey(c, f.cursor).Ok? ==>
      var start := if f.cursor == [] then None else Some(CursorKey(c, f.cursor).value);
      r.Ok? && forall e :: AllHold(r.value, e) <==> Visible(f, clusters, e) && BelowCursor(start, KeyOf(e))
  {
    r := FilterWhere(f, c);
    if r.Ok? && clusters.Some? {
      AllHoldAppend(r.value, InClusters(clusters.value));
      r := Ok(r.value + [InClusters(clusters.value)]);
    }
  }

  lemma SelectsAlike(table: seq<Event>, p: Event -> bool, q: Event -> bool, limit: nat, rows: seq<Event>)
    requires Selects(table, p, limit, rows) && forall e :: p(e) <==> q(e)
    ensures Selects(table, q, limit, rows)
  {
  }

  /** list, behind List (no clusters given) and ListScoped. */
  method List(table: seq<Event>, c: TimeCodec, f: Filter, clusters: Option<seq<bytes>>)
    returns (r: Result<Page, CursorError>, ghost rows: seq<Event>)
    requires IncreasingAt(table)
    ensures f.cursor != [] && CursorKey(c, f.cursor).Err? ==> r == Err(CursorKey(c, f.cursor).error)
    ensures f.cursor == [] || CursorKey(c, f.cursor).Ok? ==>
      var start := if f.cursor == [] then None else Some(CursorKey(c, f.cursor).value);
      var limit := if f.limit <= 0 then 50 else f.limit;
      && r.Ok? && ReadsBack(rows, r.value.events)
      && Selects(table, e => Visible(f, clusters, e) && BelowCursor(start, KeyOf(e)), limit, rows)
      && r.value.nextCursor == if |rows| == limit then FormatCursor(c, KeyOf(rows[|rows| - 1])) else []
  {
    rows := [];
    var limit := PageLimit(f);
    var where := ListWhere(c, f, clusters);
    if where.Err? {
      return Err(where.error), rows;
    }
    var out := RunQuery(table, where.value, limit);
    rows := out;
    ghost var start := if f.cursor == [] then None else Some(CursorKey(c, f.cursor).value);
    SelectsAlike(table, e => AllHold(where.value, e), e => Visible(f, clusters, e) && BelowCursor(start, KeyOf(e)), limit, rows);
    var page := PageFromRows(c, out, limit);
    r := Ok(page);
  }

  predicate Visible(f: Filter, clusters: Option<seq<bytes>>, e: Event)
  {
    Matches(f, e) && (clusters.Some? ==> e.clusterID == [] || e.clusterID in clusters.value)
  }
}
