/** Reading the audit log to the end while any number of replicas work on it. */
module AuditReading {
  import opened Common
  import opened Bytes
  import opened AuditEvent
  import opened AuditRedaction
  import opened AuditLog
  import opened AuditPages
  import opened AuditPaging
  import Protocol = AuditReplicas

  // ----- logging only -----

  /** Between one page and the next, replicas log, fail, crash and start; nothing is pruned or erased. */
  ghost predicate OnlyLogging(h: Hasher, worlds: seq<Protocol.World>, between: seq<seq<Protocol.Step>>)
  {
    && |worlds| == |between| + 1
    && forall k :: 0 <= k < |between| ==>
         && Protocol.Run(h, worlds[k], between[k]) == Some(worlds[k + 1])
         && forall i :: 0 <= i < |between[k]| ==> !between[k][i].Prune? && !between[k][i].Redact?
  }

  lemma {:induction false} LoggingOnlyAppends(h: Hasher, w: Protocol.World, steps: seq<Protocol.Step>)
    requires Protocol.Invariant(h, w) && Protocol.Run(h, w, steps).Some?
    requires forall i :: 0 <= i < |steps| ==> !steps[i].Prune? && !steps[i].Redact?
    ensures var w' := Protocol.Run(h, w, steps).value; Protocol.Invariant(h, w') && w.table <= w'.table
    decreases |steps|
  {
    if steps != [] {
      var s := steps[0];
      var w1 := Protocol.Next(h, w, s).value;
      Protocol.StepKeeps(h, w, s);
      LoggingOnlyAppends(h, w1, steps[1..]);
      assert w.table <= w1.table by {
        if s.Commit? { CommitAppends(h, w, s.r); } else { OtherStepsKeepTable(h, w, s); }
      }
    }
  }

  lemma {:induction false} WorldsOnlyAppend(h: Hasher, worlds: seq<Protocol.World>, between: seq<seq<Protocol.Step>>, k: nat)
    requires OnlyLogging(h, worlds, between) && Protocol.Invariant(h, worlds[0]) && k < |worlds|
    ensures Protocol.Invariant(h, worlds[k]) && worlds[0].table <= worlds[k].table
  {
    if k > 0 {
      WorldsOnlyAppend(h, worlds, between, k - 1);
      LoggingOnlyAppends(h, worlds[k - 1], between[k - 1]);
    }
  }

  lemma AppendedRowsAreLater(first: seq<Event>, table: seq<Event>)
    requires first <= table && IncreasingAt(table)
    ensures NewRowsAreLater(first, table)
  {
  }

  /** Any number of replicas may log between the pages: a reader that follows
      NextCursor to the end holds the matching rows of the first page's table,
      every one, once, newest first, and nothing else. */
  lemma ReadingDuringLogging(h: Hasher, p: Event -> bool, limit: nat, worlds: seq<Protocol.World>,
                             between: seq<seq<Protocol.Step>>, pages: seq<seq<Event>>)
    requires OnlyLogging(h, worlds, between) && Protocol.Invariant(h, worlds[0])
    requires Follows(p, limit, Tables(worlds), pages) && |pages[|pages| - 1]| < limit
    ensures Descending(Flat(pages))
    ensures forall r :: r in Flat(pages) <==> r in worlds[0].table && p(r)
  {
    var tables := Tables(worlds);
    forall k | 0 <= k < |tables|
      ensures tables[0] <= tables[k] && IncreasingAt(tables[k]) && NewRowsAreLater(tables[0], tables[k])
    {
      WorldsOnlyAppend(h, worlds, between, k);
      AppendedRowsAreLater(tables[0], tables[k]);
    }
    ReadingIsExact(p, limit, tables, pages);
  }

  /** ... and such a reader does get to the end: the number of full pages is bounded by the first table. */
  lemma ReadingDuringLoggingEnds(h: Hasher, p: Event -> bool, limit: nat, worlds: seq<Protocol.World>,
                                 between: seq<seq<Protocol.Step>>, pages: seq<seq<Event>>)
    requires OnlyLogging(h, worlds, between) && Protocol.Invariant(h, worlds[0])
    requires Follows(p, limit, Tables(worlds), pages) && |pages[|pages| - 1]| == limit
    ensures |pages| * limit <= |worlds[0].table|
  {
    var tables := Tables(worlds);
    forall k | 0 <= k < |tables| ensures NewRowsAreLater(tables[0], tables[k]) {
      WorldsOnlyAppend(h, worlds, between, k);
      AppendedRowsAreLater(tables[0], tables[k]);
    }
    ReadingTerminates(p, limit, tables, pages);
  }

  function Tables(worlds: seq<Protocol.World>): seq<seq<Event>>
  {
    seq(|worlds|, i requires 0 <= i < |worlds| => worlds[i].table)
  }

  /** Prunes may run, but none empties a table that has rows. */
  ghost predicate NeverEmptied(h: Hasher, w: Protocol.World, steps: seq<Protocol.Step>)
    decreases |steps|
  {
    steps != [] ==>
      && Protocol.Next(h, w, steps[0]).Some?
      && var w1 := Protocol.Next(h, w, steps[0]).value;
      (w.table != [] ==> w1.table != []) && NeverEmptied(h, w1, steps[1..])
  }

  predicate LastNotEarlier(a: seq<Event>, b: seq<Event>)
  {
    a != [] ==> b != [] && Last(a).at <= Last(b).at
  }

  lemma OwnKey(table: seq<Event>, r: Event)
    requires r in table
    ensures HasKey(table, KeyOf(r))
  {
    var i :| 0 <= i < |table| && table[i] == r;
    assert KeyOf(table[i]) == KeyOf(r);
  }

  lemma AppendKeepsNewRowsLater(h: Hasher, table: seq<Event>, e: Event)
    requires GoodTable(h, table) && table != [] && Last(table).at < e.at
    ensures NewRowsAreLater(table, table + [e]) && LastNotEarlier(table, table + [e])
  {
    forall r | r in table + [e] ensures HasKey(table, KeyOf(r)) || forall q :: q in table ==> q.at < r.at {
      if r in table { OwnKey(table, r); } else { NoneAfterLast(h, table); }
    }
  }

  lemma NoneAfterLast(h: Hasher, table: seq<Event>)
    requires GoodTable(h, table) && table != []
    ensures forall q :: q in table ==> q.at <= Last(table).at
  {
  }

  lemma PruneKeepsNewRowsLater(table: seq<Event>, n: nat)
    requires n < |table|
    ensures NewRowsAreLater(table, table[n..]) && LastNotEarlier(table, table[n..])
  {
    forall r | r in table[n..] ensures HasKey(table, KeyOf(r)) { OwnKey(table, r); }
  }

  lemma RedactKeepsNewRowsLater(table: seq<Event>, id: bytes)
    requires table != []
    ensures NewRowsAreLater(table, RedactedTable(table, id)) && LastNotEarlier(table, RedactedTable(table, id))
  {
    forall r | r in RedactedTable(table, id) ensures HasKey(table, KeyOf(r)) {
      var i :| 0 <= i < |table| && RedactedTable(table, id)[i] == r;
      assert KeyOf(table[i]) == KeyOf(r);
    }
  }

  /** A step that does not commit, prune or redact leaves the table alone. */
  lemma OtherStepsKeepTable(h: Hasher, w: Protocol.World, s: Protocol.Step)
    requires Protocol.Next(h, w, s).Some? && !s.Commit? && !s.Prune? && !s.Redact?
    ensures Protocol.Next(h, w, s).value.table == w.table
  {
  }

  lemma CommitAppends(h: Hasher, w: Protocol.World, r: nat)
    requires Protocol.Invariant(h, w) && Protocol.Next(h, w, Protocol.Commit(r)).Some?
    ensures var e := w.replicas[r].phase.e;
            (w.table != [] ==> Last(w.table).at < e.at) && Protocol.Next(h, w, Protocol.Commit(r)).value.table == w.table + [e]
  {
    var e := w.replicas[r].phase.e;
    assert Protocol.PhaseOk(h, w.table, w.replicas[r].phase);
    AppendKeepsGood(h, w.table, e);
  }

  lemma StepKeepsNewRowsLater(h: Hasher, w: Protocol.World, s: Protocol.Step)
    requires Protocol.Invariant(h, w) && Protocol.Next(h, w, s).Some?
    requires w.table != [] ==> Protocol.Next(h, w, s).value.table != []
    ensures var w' := Protocol.Next(h, w, s).value;
            NewRowsAreLater(w.table, w'.table) && LastNotEarlier(w.table, w'.table)
  {
    if w.table == [] {
    } else if s.Commit? {
      CommitAppends(h, w, s.r);
      AppendKeepsNewRowsLater(h, w.table, w.replicas[s.r].phase.e);
    } else if s.Prune? {
      var n := PruneIsSuffix(w.table, s.cutoff);
      PruneKeepsNewRowsLater(w.table, n);
    } else if s.Redact? {
      RedactKeepsNewRowsLater(w.table, s.id);
    } else {
      OtherStepsKeepTable(h, w, s);
      PruneKeepsNewRowsLater(w.table, 0);
    }
  }

  lemma ComposeNewRowsLater(h: Hasher, a: seq<Event>, b: seq<Event>, c: seq<Event>)
    requires GoodTable(h, a) && GoodTable(h, b)
    requires NewRowsAreLater(a, b) && LastNotEarlier(a, b) && NewRowsAreLater(b, c)
    ensures NewRowsAreLater(a, c)
  {
  }

  /** Any interleaving of Log calls, redactions and prunes that leave at least the
      newest row keeps new rows later: readers of any number of replicas' log terminate. */
  lemma {:induction false} RunKeepsNewRowsLater(h: Hasher, w: Protocol.World, steps: seq<Protocol.Step>)
    requires Protocol.Invariant(h, w) && Protocol.Run(h, w, steps).Some? && NeverEmptied(h, w, steps)
    ensures var table := Protocol.Run(h, w, steps).value.table;
            NewRowsAreLater(w.table, table) && LastNotEarlier(w.table, table)
    decreases |steps|
  {
    if steps == [] {
      forall r | r in w.table ensures HasKey(w.table, KeyOf(r)) { OwnKey(w.table, r); }
    } else {
      var w1 := Protocol.Next(h, w, steps[0]).value;
      Protocol.StepKeeps(h, w, steps[0]);
      StepKeepsNewRowsLater(h, w, steps[0]);
      RunKeepsNewRowsLater(h, w1, steps[1..]);
      ComposeNewRowsLater(h, w.table, w1.table, Protocol.Run(h, w1, steps[1..]).value.table);
    }
  }

  // ----- anything between the pages -----

  /** Between one page and the next any replica may log, fail, crash, start, erase and prune;
      no prune empties the table. */
  ghost predicate Changing(h: Hasher, worlds: seq<Protocol.World>, between: seq<seq<Protocol.Step>>)
  {
    && |worlds| == |between| + 1
    && forall k :: 0 <= k < |between| ==> Changes(h, worlds[k], between[k], worlds[k + 1])
  }

  ghost predicate Changes(h: Hasher, w: Protocol.World, steps: seq<Protocol.Step>, w': Protocol.World)
  {
    Protocol.Run(h, w, steps) == Some(w') && NeverEmptied(h, w, steps)
  }

  /** What is shown of an erased row was shown before. */
  ghost predicate ErasureOnlyHides(p: Event -> bool)
  {
    forall r :: p(RedactedRow(r)) ==> p(r)
  }

  lemma FilterErasureOnlyHides(f: Filter, clusters: Option<seq<bytes>>)
    ensures ErasureOnlyHides(e => Visible(f, clusters, e))
  {
  }

  lemma {:induction false} WorldsKeepNewRowsLater(h: Hasher, worlds: seq<Protocol.World>, between: seq<seq<Protocol.Step>>, k: nat)
    requires Changing(h, worlds, between) && Protocol.Invariant(h, worlds[0]) && k < |worlds|
    ensures Protocol.Invariant(h, worlds[k])
    ensures NewRowsAreLater(worlds[0].table, worlds[k].table) && LastNotEarlier(worlds[0].table, worlds[k].table)
  {
    if k == 0 {
      forall r | r in worlds[0].table ensures HasKey(worlds[0].table, KeyOf(r)) { OwnKey(worlds[0].table, r); }
    } else {
      WorldsKeepNewRowsLater(h, worlds, between, k - 1);
      assert Changes(h, worlds[k - 1], between[k - 1], worlds[k]);
      Protocol.RunKeeps(h, worlds[k - 1], between[k - 1]);
      RunKeepsNewRowsLater(h, worlds[k - 1], between[k - 1]);
      ComposeNewRowsLater(h, worlds[0].table, worlds[k - 1].table, worlds[k].table);
    }
  }

  lemma CommitBringsNothingBack(h: Hasher, p: Event -> bool, first: seq<Event>, table: seq<Event>, e: Event, key: Key)
    requires GoodTable(h, first) && LastNotEarlier(first, table) && HasKey(first, key) && (table != [] ==> Last(table).at < e.at)
    requires Present(p, table + [e], key)
    ensures Present(p, table, key)
  {
    var r :| r in table + [e] && KeyOf(r) == key && p(r);
    var i :| 0 <= i < |first| && KeyOf(first[i]) == key;
    NoneAfterLast(h, first);
    assert first[i] in first;
    assert r in table;
  }

  lemma RedactBringsNothingBack(p: Event -> bool, table: seq<Event>, id: bytes, key: Key)
    requires ErasureOnlyHides(p) && Present(p, RedactedTable(table, id), key)
    ensures Present(p, table, key)
  {
    var t := RedactedTable(table, id);
    var r :| r in t && KeyOf(r) == key && p(r);
    var i :| 0 <= i < |t| && t[i] == r;
    assert p(table[i]) && KeyOf(table[i]) == key && table[i] in table;
  }

  /** A row of the first table that is there after a step was there before it. */
  lemma StepBringsNothingBack(h: Hasher, p: Event -> bool, first: seq<Event>, w: Protocol.World, s: Protocol.Step, key: Key)
    requires Protocol.Invariant(h, w) && Protocol.Next(h, w, s).Some? && ErasureOnlyHides(p)
    requires GoodTable(h, first) && LastNotEarlier(first, w.table) && HasKey(first, key)
    requires Present(p, Protocol.Next(h, w, s).value.table, key)
    ensures Present(p, w.table, key)
  {
    if s.Commit? {
      CommitAppends(h, w, s.r);
      CommitBringsNothingBack(h, p, first, w.table, w.replicas[s.r].phase.e, key);
    } else if s.Prune? {
      var n := PruneIsSuffix(w.table, s.cutoff);
    } else if s.Redact? {
      RedactBringsNothingBack(p, w.table, s.id, key);
    } else {
      OtherStepsKeepTable(h, w, s);
    }
  }

  lemma {:induction false} RunBringsNothingBack(h: Hasher, p: Event -> bool, first: seq<Event>, w: Protocol.World, steps: seq<Protocol.Step>, key: Key)
    requires Protocol.Invariant(h, w) && Protocol.Run(h, w, steps).Some? && NeverEmptied(h, w, steps) && ErasureOnlyHides(p)
    requires GoodTable(h, first) && LastNotEarlier(first, w.table) && HasKey(first, key)
    requires Present(p, Protocol.Run(h, w, steps).value.table, key)
    ensures Present(p, w.table, key)
    decreases |steps|
  {
    if steps != [] {
      var w1 := Protocol.Next(h, w, steps[0]).value;
      Protocol.StepKeeps(h, w, steps[0]);
      StepKeepsNewRowsLater(h, w, steps[0]);
      RunBringsNothingBack(h, p, first, w1, steps[1..], key);
      StepBringsNothingBack(h, p, first, w, steps[0], key);
    }
  }

  lemma {:induction false} PresentThroughout(h: Hasher, p: Event -> bool, worlds: seq<Protocol.World>, between: seq<seq<Protocol.Step>>, key: Key, k: nat)
    requires Changing(h, worlds, between) && Protocol.Invariant(h, worlds[0]) && ErasureOnlyHides(p) && k < |worlds|
    requires HasKey(worlds[0].table, key) && Present(p, worlds[|worlds| - 1].table, key)
    ensures Present(p, worlds[k].table, key)
    decreases |worlds| - k
  {
    if k < |worlds| - 1 {
      PresentThroughout(h, p, worlds, between, key, k + 1);
      WorldsKeepNewRowsLater(h, worlds, between, k);
      assert Changes(h, worlds[k], between[k], worlds[k + 1]);
      RunBringsNothingBack(h, p, worlds[0].table, worlds[k], between[k], key);
    }
  }

  /** Over any run between the pages the reading is newest first, repeats nothing and returns
      only rows of the first page's table. It ends: full pages are bounded by that table; and
      once it has ended it holds every row of that table that still matches at the last page. */
  lemma ReadingDuringChanges(h: Hasher, p: Event -> bool, limit: nat, worlds: seq<Protocol.World>,
                             between: seq<seq<Protocol.Step>>, pages: seq<seq<Event>>)
    requires Changing(h, worlds, between) && Protocol.Invariant(h, worlds[0]) && ErasureOnlyHides(p)
    requires Follows(p, limit, Tables(worlds), pages)
    ensures Descending(Flat(pages))
    ensures forall r :: r in Flat(pages) ==> p(r) && HasKey(worlds[0].table, KeyOf(r))
    ensures |pages[|pages| - 1]| == limit ==> |pages| * limit <= |worlds[0].table|
    ensures |pages[|pages| - 1]| < limit ==>
              forall key :: HasKey(worlds[0].table, key) && Present(p, worlds[|worlds| - 1].table, key) ==> HasKey(Flat(pages), key)
  {
    var tables := Tables(worlds);
    forall k | 0 <= k < |tables| ensures NewRowsAreLater(tables[0], tables[k]) {
      WorldsKeepNewRowsLater(h, worlds, between, k);
    }
    PagesDescend(p, limit, tables, pages);
    forall r | r in Flat(pages) ensures p(r) && HasKey(tables[0], KeyOf(r)) {
      FlatMember(pages, r);
      var k :| 0 <= k < |pages| && r in pages[k];
      PagesStayInTheSnapshot(p, limit, tables, pages, k, r);
    }
    if |pages[|pages| - 1]| == limit {
      ReadingTerminates(p, limit, tables, pages);
    } else {
      forall key | HasKey(tables[0], key) && Present(p, worlds[|worlds| - 1].table, key) ensures HasKey(Flat(pages), key) {
        forall k | 0 <= k < |tables| ensures Present(p, tables[k], key) {
          PresentThroughout(h, p, worlds, between, key, k);
        }
        PagesMissNothing(p, limit, tables, pages, key);
      }
    }
  }

  lemma PrunedAndOpened(h: Hasher, w: Protocol.World, cutoff: Time, r: nat)
    requires Protocol.Invariant(h, w) && w.writer.None? && w.table != [] && Last(w.table).at < cutoff && r !in w.replicas
    ensures var w2 := Protocol.Run(h, w, [Protocol.Prune(cutoff), Protocol.Open(r)]);
            && w2.Some? && Protocol.Invariant(h, w2.value) && w2.value.writer.None? && w2.value.table == []
            && r in w2.value.replicas && w2.value.replicas[r] == Protocol.Replica(ZERO_TIME, Protocol.Idle)
  {
    var n := PruneIsSuffix(w.table, cutoff);
    var w1 := Protocol.Next(h, w, Protocol.Prune(cutoff)).value;
    assert w1.table == [];
    var w2 := Protocol.Next(h, w1, Protocol.Open(r)).value;
    Protocol.RunTwo(h, w, Protocol.Prune(cutoff), Protocol.Open(r), w1, w2);
    Protocol.RunKeeps(h, w, [Protocol.Prune(cutoff), Protocol.Open(r)]);
  }

  /** The condition on prunes is needed. Emptied by one, the log has no watermark to offer a
      replica that starts afterwards: wherever the run has come to, the next row takes the time
      its event says, before rows a reader may have seen and so below its cursor. */
  lemma EmptiedLogStepsBack(h: Hasher, w: Protocol.World, cutoff: Time, r: nat, b: Event, lookup: bytes -> Option<bytes>, salt: bytes)
    requires Protocol.Invariant(h, w) && w.writer.None? && w.table != [] && Last(w.table).at < cutoff && r !in w.replicas
    requires Prepare(b, lookup).Ok? && ZERO_TIME < b.at <= Last(w.table).at && !HasKey(w.table, KeyOf(b))
    ensures var last := Protocol.Run(h, w, [Protocol.Prune(cutoff), Protocol.Open(r)] + Protocol.LogSteps(r, b, lookup, salt));
            last.Some? && !NewRowsAreLater(w.table, last.value.table)
  {
    var prune := [Protocol.Prune(cutoff), Protocol.Open(r)];
    PrunedAndOpened(h, w, cutoff, r);
    var w2 := Protocol.Run(h, w, prune).value;
    Protocol.UninterruptedLog(h, w2, r, b, lookup, salt);
    Protocol.RunAppend(h, w, prune, Protocol.LogSteps(r, b, lookup, salt));
    var e := LogRow(h, Prepare(b, lookup).value, salt, ZERO_TIME, []);
    assert e in [e] && KeyOf(e) == KeyOf(b) && Last(w.table) in w.table;
  }
}
