/** Following NextCursor to the end over whatever tables the reader meets; AuditReading says
    which tables it can meet. */
module AuditPaging {
  import opened Common
  import opened Bytes
  import opened AuditEvent
  import opened AuditLog
  import opened AuditPages

  function Last(rows: seq<Event>): Event
    requires rows != []
  {
    rows[|rows| - 1]
  }

  /** Where page k starts: below the last row of the page before it. */
  function StartOf(pages: seq<seq<Event>>, k: nat): Option<Key>
    requires k <= |pages|
  {
    if k == 0 || pages[k - 1] == [] then None else Some(KeyOf(Last(pages[k - 1])))
  }

  /** Each page is what the query answers on its own state of the table, starting
      below the page before, and every page but the last is full, so that it had
      a cursor to follow. */
  ghost predicate Follows(p: Event -> bool, limit: nat, tables: seq<seq<Event>>, pages: seq<seq<Event>>)
    decreases |pages|
  {
    && limit > 0 && |pages| == |tables|
    && (pages != [] ==>
          var n := |pages| - 1;
          && Follows(p, limit, tables[..n], pages[..n])
          && (n > 0 ==> |pages[n - 1]| == limit)
          && PageSelected(p, limit, tables[n], StartOf(pages, n), pages[n]))
  }

  ghost predicate PageSelected(p: Event -> bool, limit: nat, table: seq<Event>, start: Option<Key>, page: seq<Event>)
  {
    Selects(table, e => p(e) && BelowCursor(start, KeyOf(e)), limit, page)
  }

  function Flat(pages: seq<seq<Event>>): seq<Event>
  {
    if pages == [] then [] else Flat(pages[..|pages| - 1]) + pages[|pages| - 1]
  }

  predicate HasKey(rows: seq<Event>, k: Key)
  {
    exists i :: 0 <= i < |rows| && KeyOf(rows[i]) == k
  }

  lemma FollowsOneMore(p: Event -> bool, limit: nat, tables: seq<seq<Event>>, pages: seq<seq<Event>>, table: seq<Event>, page: seq<Event>)
    requires Follows(p, limit, tables, pages) && (pages != [] ==> |pages[|pages| - 1]| == limit)
    requires PageSelected(p, limit, table, StartOf(pages, |pages|), page)
    ensures Follows(p, limit, tables + [table], pages + [page])
  {
  }

  function CursorAt(c: TimeCodec, start: Option<Key>): bytes
  {
    if start.None? then [] else FormatCursor(c, start.value)
  }

  /** A row its cursor can name: no separator in the id, a time that is hashed in full. */
  predicate Resumable(k: Key)
  {
    BAR !in k.id && IsInt64(k.at)
  }

  predicate AllResumable(table: seq<Event>)
  {
    forall r :: r in table ==> Resumable(KeyOf(r))
  }

  /** One List call of a reader that starts below a given key. */
  method ReadPage(table: seq<Event>, c: TimeCodec, f: Filter, clusters: Option<seq<bytes>>, cursor: bytes, ghost start: Option<Key>)
    returns (next: bytes, ghost rows: seq<Event>)
    requires Faithful(c) && IncreasingAt(table) && cursor == CursorAt(c, start)
    requires start.Some? ==> Resumable(start.value)
    ensures PageSelected(e => Visible(f, clusters, e), PageLimit(f), table, start, rows)
    ensures next == if |rows| == PageLimit(f) then FormatCursor(c, KeyOf(Last(rows))) else []
  {
    if cursor != [] {
      CursorRoundTrip(c, start.value);
    }
    var page;
    page, rows := List(table, c, f.(cursor := cursor), clusters);
    SamePage(f, clusters, cursor, start, table, rows);
    next := page.value.nextCursor;
  }

  lemma LastIsResumable(p: Event -> bool, limit: nat, table: seq<Event>, start: Option<Key>, page: seq<Event>)
    requires PageSelected(p, limit, table, start, page) && AllResumable(table)
    ensures page != [] ==> Resumable(KeyOf(Last(page)))
  {
    if page != [] { assert Last(page) in table; }
  }

  /** Where the reader stands: the pages it has, and the cursor it goes on with. */
  ghost predicate ReaderAt(c: TimeCodec, f: Filter, clusters: Option<seq<bytes>>, tables: seq<seq<Event>>, pages: seq<seq<Event>>,
                           cursor: bytes, finished: bool)
  {
    && Follows(e => Visible(f, clusters, e), PageLimit(f), tables, pages)
    && if finished then pages != [] && |pages[|pages| - 1]| < PageLimit(f)
       else cursor == CursorAt(c, StartOf(pages, |pages|))
            && (pages != [] ==> |pages[|pages| - 1]| == PageLimit(f) && Resumable(KeyOf(Last(pages[|pages| - 1]))))
  }

  lemma ReaderMoves(c: TimeCodec, f: Filter, clusters: Option<seq<bytes>>, tables: seq<seq<Event>>, pages: seq<seq<Event>>,
                    cursor: bytes, table: seq<Event>, rows: seq<Event>, next: bytes)
    requires ReaderAt(c, f, clusters, tables, pages, cursor, false) && AllResumable(table)
    requires PageSelected(e => Visible(f, clusters, e), PageLimit(f), table, StartOf(pages, |pages|), rows)
    requires next == if |rows| == PageLimit(f) then FormatCursor(c, KeyOf(Last(rows))) else []
    ensures ReaderAt(c, f, clusters, tables + [table], pages + [rows], next, next == [])
  {
    FollowsOneMore(e => Visible(f, clusters, e), PageLimit(f), tables, pages, table, rows);
    LastIsResumable(e => Visible(f, clusters, e), PageLimit(f), table, StartOf(pages, |pages|), rows);
  }

  /** The reader: passes NextCursor back, with the other fields kept the same,
      until there is none or it stops asking. tables are the states it meets. */
  method ReadPages(tables: seq<seq<Event>>, c: TimeCodec, f: Filter, clusters: Option<seq<bytes>>)
    returns (n: nat, ghost pages: seq<seq<Event>>, finished: bool)
    requires Faithful(c)
    requires forall k :: 0 <= k < |tables| ==> IncreasingAt(tables[k]) && AllResumable(tables[k])
    ensures n <= |tables| && Follows(e => Visible(f, clusters, e), PageLimit(f), tables[..n], pages)
    ensures finished ==> n > 0 && |pages[n - 1]| < PageLimit(f)
    ensures !finished ==> n == |tables|
  {
    n, pages, finished := 0, [], false;
    var cursor: bytes := [];
    while n < |tables| && !finished
      invariant n <= |tables| && ReaderAt(c, f, clusters, tables[..n], pages, cursor, finished)
      decreases |tables| - n, !finished
    {
      ghost var rows;
      ghost var before := cursor;
      cursor, rows := ReadPage(tables[n], c, f, clusters, cursor, StartOf(pages, n));
      ReaderMoves(c, f, clusters, tables[..n], pages, before, tables[n], rows, cursor);
      assert tables[..n + 1] == tables[..n] + [tables[n]];
      pages := pages + [rows];
      finished := cursor == [];
      n := n + 1;
    }
  }

  /** The filter's own cursor field plays no part in which rows it lets through. */
  lemma SamePage(f: Filter, clusters: Option<seq<bytes>>, cursor: bytes, start: Option<Key>, table: seq<Event>, rows: seq<Event>)
    requires Selects(table, e => Visible(f.(cursor := cursor), clusters, e) && BelowCursor(start, KeyOf(e)), PageLimit(f), rows)
    ensures PageSelected(e => Visible(f, clusters, e), PageLimit(f), table, start, rows)
  {
  }

  // ----- what the pages add up to -----

  lemma {:induction false} PageAt(p: Event -> bool, limit: nat, tables: seq<seq<Event>>, pages: seq<seq<Event>>, k: nat)
    requires Follows(p, limit, tables, pages) && k < |pages|
    ensures PageSelected(p, limit, tables[k], StartOf(pages, k), pages[k])
    ensures k < |pages| - 1 ==> |pages[k]| == limit
    decreases |pages|
  {
    var n := |pages| - 1;
    if k < n {
      PageAt(p, limit, tables[..n], pages[..n], k);
      assert StartOf(pages[..n], k) == StartOf(pages, k);
    }
  }

  lemma DescendingConcat(a: seq<Event>, b: seq<Event>)
    requires Descending(a) && Descending(b) && StrictOrder(KeyLess)
    requires a != [] && forall j :: 0 <= j < |b| ==> KeyLess(KeyOf(b[j]), KeyOf(Last(a)))
    ensures Descending(a + b)
  {
  }

  lemma NextPageDescends(p: Event -> bool, limit: nat, table: seq<Event>, before: seq<Event>, page: seq<Event>)
    requires before != [] && Descending(before) && PageSelected(p, limit, table, Some(KeyOf(Last(before))), page)
    ensures Descending(before + page)
    ensures Last(before + page) == if page == [] then Last(before) else Last(page)
  {
    KeyLessIsStrict();
    DescendingConcat(before, page);
  }

  /** No row is returned twice and the whole reading is newest first, whatever
      happened to the table between the pages. */
  lemma {:induction false} PagesDescend(p: Event -> bool, limit: nat, tables: seq<seq<Event>>, pages: seq<seq<Event>>)
    requires Follows(p, limit, tables, pages)
    ensures Descending(Flat(pages))
    ensures pages != [] && |pages[|pages| - 1]| > 0 ==> Flat(pages) != [] && Last(Flat(pages)) == Last(pages[|pages| - 1])
    decreases |pages|
  {
    if pages != [] {
      var n := |pages| - 1;
      PagesDescend(p, limit, tables[..n], pages[..n]);
      if n > 0 {
        assert pages[..n][n - 1] == pages[n - 1];
        NextPageDescends(p, limit, tables[n], Flat(pages[..n]), pages[n]);
      } else {
        assert Flat(pages) == pages[0];
      }
    }
  }

  ghost predicate Present(p: Event -> bool, table: seq<Event>, key: Key)
  {
    exists r :: r in table && KeyOf(r) == key && p(r)
  }

  lemma HasKeyConcat(a: seq<Event>, b: seq<Event>, key: Key)
    ensures HasKey(a + b, key) <==> HasKey(a, key) || HasKey(b, key)
  {
    if HasKey(a, key) {
      var i :| 0 <= i < |a| && KeyOf(a[i]) == key;
      assert (a + b)[i] == a[i];
    }
    if HasKey(b, key) {
      var i :| 0 <= i < |b| && KeyOf(b[i]) == key;
      assert (a + b)[|a| + i] == b[i];
    }
  }

  lemma PageMissesNothing(p: Event -> bool, limit: nat, table: seq<Event>, start: Option<Key>, page: seq<Event>, key: Key)
    requires PageSelected(p, limit, table, start, page) && limit > 0 && Present(p, table, key) && BelowCursor(start, key)
    ensures HasKey(page, key) || (|page| == limit && KeyLess(key, KeyOf(Last(page))))
  {
    var r :| r in table && KeyOf(r) == key && p(r);
    if r in page {
      var i :| 0 <= i < |page| && page[i] == r;
      assert KeyOf(page[i]) == key;
    }
  }

  /** A row that matches and stays in the table (erased in place or not) until
      the reading is over is in it. */
  lemma {:induction false} PagesMissNothing(p: Event -> bool, limit: nat, tables: seq<seq<Event>>, pages: seq<seq<Event>>, key: Key)
    requires Follows(p, limit, tables, pages)
    requires forall k :: 0 <= k < |tables| ==> Present(p, tables[k], key)
    ensures || HasKey(Flat(pages), key)
            || (pages != [] ==> |pages[|pages| - 1]| == limit && KeyLess(key, KeyOf(Last(pages[|pages| - 1]))))
    decreases |pages|
  {
    if pages != [] {
      var n := |pages| - 1;
      assert forall k :: 0 <= k < n ==> tables[..n][k] == tables[k];
      PagesMissNothing(p, limit, tables[..n], pages[..n], key);
      HasKeyConcat(Flat(pages[..n]), pages[n], key);
      if !HasKey(Flat(pages[..n]), key) {
        assert n > 0 ==> pages[..n][n - 1] == pages[n - 1];
        PageMissesNothing(p, limit, tables[n], StartOf(pages, n), pages[n], key);
      }
    }
  }

  /** Every row that entered the table after the first page is later than all rows of that page's table. */
  ghost predicate NewRowsAreLater(first: seq<Event>, table: seq<Event>)
  {
    forall r :: r in table ==> HasKey(first, KeyOf(r)) || forall q :: q in first ==> q.at < r.at
  }

  /** When new rows are later, the reading stays inside the first page's snapshot... */
  lemma PagesStayInTheSnapshot(p: Event -> bool, limit: nat, tables: seq<seq<Event>>, pages: seq<seq<Event>>, k: nat, r: Event)
    requires Follows(p, limit, tables, pages) && k < |pages| && r in pages[k]
    requires forall i :: 0 <= i < |tables| ==> NewRowsAreLater(tables[0], tables[i])
    ensures HasKey(tables[0], KeyOf(r)) && p(r)
  {
    var i :| 0 <= i < |pages[k]| && pages[k][i] == r;
    PageAt(p, limit, tables, pages, k);
    if k == 0 {
      var j :| 0 <= j < |tables[0]| && tables[0][j] == r;
      assert KeyOf(tables[0][j]) == KeyOf(r);
    } else {
      FirstPageBounds(p, limit, tables, pages, k);
      PageAt(p, limit, tables, pages, 0);
      var top := pages[0][0];
      assert top in tables[0] && KeyLess(KeyOf(r), KeyOf(top));
    }
  }

  /** Later pages lie below the newest row of the first. */
  lemma {:induction false} FirstPageBounds(p: Event -> bool, limit: nat, tables: seq<seq<Event>>, pages: seq<seq<Event>>, k: nat)
    requires Follows(p, limit, tables, pages) && 0 < k < |pages|
    ensures |pages[0]| == limit && forall i :: 0 <= i < |pages[k]| ==> KeyLess(KeyOf(pages[k][i]), KeyOf(pages[0][0]))
  {
    KeyLessIsStrict();
    PageAt(p, limit, tables, pages, k);
    PageAt(p, limit, tables, pages, k - 1);
    if k == 1 {
      assert limit > 1 ==> KeyLess(KeyOf(Last(pages[0])), KeyOf(pages[0][0]));
    } else {
      FirstPageBounds(p, limit, tables, pages, k - 1);
    }
  }

  function Keys(rows: seq<Event>): set<Key>
  {
    set i | 0 <= i < |rows| :: KeyOf(rows[i])
  }

  lemma KeysOfMore(rest: seq<Event>, r: Event)
    ensures Keys(rest + [r]) == Keys(rest) + {KeyOf(r)}
  {
    var rows := rest + [r];
    forall k | k in Keys(rest) + {KeyOf(r)} ensures k in Keys(rows) {
      if k in Keys(rest) {
        var i :| 0 <= i < |rest| && KeyOf(rest[i]) == k;
        assert rows[i] == rest[i];
      } else {
        assert rows[|rest|] == r;
      }
    }
  }

  lemma LastKeyIsNew(rows: seq<Event>)
    requires rows != [] && Descending(rows) && StrictOrder(KeyLess)
    ensures KeyOf(Last(rows)) !in Keys(rows[..|rows| - 1])
  {
  }

  lemma {:induction false} KeysBounded(rows: seq<Event>)
    ensures |Keys(rows)| <= |rows|
    ensures Descending(rows) ==> |Keys(rows)| == |rows|
  {
    if rows != [] {
      var rest := rows[..|rows| - 1];
      KeysBounded(rest);
      KeyLessIsStrict();
      assert rows == rest + [Last(rows)];
      KeysOfMore(rest, Last(rows));
      if Descending(rows) { LastKeyIsNew(rows); }
    }
  }

  lemma {:induction false} FlatMembers(pages: seq<seq<Event>>, limit: nat)
    requires forall k :: 0 <= k < |pages| ==> |pages[k]| == limit
    ensures |Flat(pages)| == |pages| * limit
    ensures forall r :: r in Flat(pages) ==> exists k :: 0 <= k < |pages| && r in pages[k]
  {
    if pages != [] {
      var pages' := pages[..|pages| - 1];
      FlatMembers(pages', limit);
      assert (|pages| - 1) * limit + limit == |pages| * limit;
      forall r | r in Flat(pages) ensures exists k :: 0 <= k < |pages| && r in pages[k] {
        if r in Flat(pages') {
          var k :| 0 <= k < |pages'| && r in pages'[k];
          assert r in pages[k];
        } else {
          assert r in pages[|pages| - 1];
        }
      }
    }
  }

  /** ... and therefore ends: it can be full at most |first table| / limit times. */
  lemma ReadingTerminates(p: Event -> bool, limit: nat, tables: seq<seq<Event>>, pages: seq<seq<Event>>)
    requires Follows(p, limit, tables, pages) && pages != [] && |pages[|pages| - 1]| == limit
    requires forall i :: 0 <= i < |tables| ==> NewRowsAreLater(tables[0], tables[i])
    ensures |pages| * limit <= |tables[0]|
  {
    forall k | 0 <= k < |pages| ensures |pages[k]| == limit { PageAt(p, limit, tables, pages, k); }
    var all := Flat(pages);
    FlatMembers(pages, limit);
    PagesDescend(p, limit, tables, pages);
    KeysBounded(all);
    KeysBounded(tables[0]);
    forall key | key in Keys(all) ensures key in Keys(tables[0]) {
      var i :| 0 <= i < |all| && KeyOf(all[i]) == key;
      assert all[i] in all;
      var k :| 0 <= k < |pages| && all[i] in pages[k];
      PagesStayInTheSnapshot(p, limit, tables, pages, k, all[i]);
    }
    SubsetSize(Keys(all), Keys(tables[0]));
  }

  lemma {:induction false} SubsetSize<T>(a: set<T>, b: set<T>)
    requires a <= b
    ensures |a| <= |b|
  {
    if a != {} {
      var x :| x in a;
      SubsetSize(a - {x}, b - {x});
    }
  }

  /** With nothing but Log calls between the pages, a finished reading returns
      exactly the matching rows of the first page's table, newest first, each once. */
  lemma ReadingIsExact(p: Event -> bool, limit: nat, tables: seq<seq<Event>>, pages: seq<seq<Event>>)
    requires Follows(p, limit, tables, pages) && pages != [] && |pages[|pages| - 1]| < limit
    requires forall i :: 0 <= i < |tables| ==>
      tables[0] <= tables[i] && IncreasingAt(tables[i]) && NewRowsAreLater(tables[0], tables[i])
    ensures Descending(Flat(pages))
    ensures forall r :: r in Flat(pages) <==> r in tables[0] && p(r)
  {
    PagesDescend(p, limit, tables, pages);
    var all := Flat(pages);
    forall r | r in all ensures r in tables[0] && p(r) {
      FlatMember(pages, r);
      var k :| 0 <= k < |pages| && r in pages[k];
      PagesStayInTheSnapshot(p, limit, tables, pages, k, r);
      PageAt(p, limit, tables, pages, k);
      SameKeySameRow(tables[0], tables[k], r);
    }
    forall r | r in tables[0] && p(r) ensures r in all {
      forall k | 0 <= k < |tables| ensures Present(p, tables[k], KeyOf(r)) {
        assert tables[0] <= tables[k];
        assert r in tables[k];
      }
      PagesMissNothing(p, limit, tables, pages, KeyOf(r));
      var i :| 0 <= i < |all| && KeyOf(all[i]) == KeyOf(r);
      assert all[i] in all;
      SameKeyIsSameRow(tables[0], all[i], r);
    }
  }

  lemma SameKeyIsSameRow(table: seq<Event>, a: Event, b: Event)
    requires IncreasingAt(table) && a in table && b in table && KeyOf(a) == KeyOf(b)
    ensures a == b
  {
  }

  lemma SameKeySameRow(first: seq<Event>, table: seq<Event>, r: Event)
    requires first <= table && IncreasingAt(table) && r in table && HasKey(first, KeyOf(r))
    ensures r in first
  {
  }

  lemma {:induction false} FlatMember(pages: seq<seq<Event>>, r: Event)
    requires r in Flat(pages)
    ensures exists k :: 0 <= k < |pages| && r in pages[k]
  {
    var pages' := pages[..|pages| - 1];
    if r in Flat(pages') {
      FlatMember(pages', r);
      var k :| 0 <= k < |pages'| && r in pages'[k];
      assert r in pages[k];
    } else {
      assert r in pages[|pages| - 1];
    }
  }
}
