/** How late a registry cache can be about a write it was not told of, as another
    process makes it: the ttl counts from the storing of an entry, after its rows
    were read and its providers discovered. */
module RegistryConvergence {
  import opened Common
  import opened Eviction
  import opened RegistryCache
  import opened RegistryThreads
  import Tenant

  /** In every run an answer from the cache misses a write for less than the ttl and the
      time its building took; and it is the full ttl late only about a write that fell
      between the reading of its rows and their storing. */
  lemma LateAnswer(ttl: int, now: Time, steps: seq<Step>, q: nat, v: nat)
    requires ZERO_TIME < now < PIN_START && Run(ttl, Start(now), steps).Some?
    requires var w := Run(ttl, Start(now), steps).value;
             PhaseOf(w, q).Done? && PhaseOf(w, q).cached && (PhaseOf(w, q).t, v) in w.writes && v > PhaseOf(w, q).answer.registry.version
    ensures var w := Run(ttl, Start(now), steps).value;
            var d := PhaseOf(w, q);
            var written := w.writes[(d.t, v)];
            && d.at - written < ttl + (d.answer.cachedAt - d.answer.registry.readAt)
            && (d.at - written >= ttl ==> d.answer.registry.readAt <= written < d.answer.cachedAt)
  {
    RunKeeps(ttl, Start(now), steps);
    var w := Run(ttl, Start(now), steps).value;
    assert PhaseOk(ttl, w, q, w.threads[q]);
  }

  /** From w these steps end with thread q being served e, from the cache, ttl or more after the write. */
  ghost predicate ServedLate(ttl: int, w: World, t: Tenant.ID, e: Cached<Rows>, written: Time, steps: seq<Step>, q: nat)
  {
    && Run(ttl, w, steps).Some?
    && var p := PhaseOf(Run(ttl, w, steps).value, q);
    p.Done? && p.t == t && p.cached && p.answer == e && w.now <= p.at && p.at - written >= ttl
  }

  lemma {:induction false} Unused(s: set<nat>) returns (q: nat)
    ensures forall x :: x in s ==> x < q
    decreases |s|
  {
    if s == {} { return 0; }
    var x :| x in s;
    var rest := Unused(s - {x});
    q := x + rest + 1;
    forall y | y in s ensures y < q { assert y == x || y in s - {x}; }
  }

  /** Whoever holds the write lock may fail, and nothing is cached then. */
  lemma LockCanBeFree(ttl: int, w: World)
    requires Invariant(ttl, w)
    ensures exists steps :: Run(ttl, w, steps).Some?
              && Run(ttl, w, steps).value == w.(lock := None, threads := Run(ttl, w, steps).value.threads)
              && Run(ttl, w, steps).value.threads.Keys == w.threads.Keys
  {
    if w.lock.None? {
      assert Run(ttl, w, []) == Some(w);
    } else {
      var q := w.lock.value;
      assert PhaseOk(ttl, w, q, w.threads[q]);
      var w1 := Set(w, q, Failed(PhaseOf(w, q).t)).(lock := None);
      assert Next(ttl, w, Fail(q)) == Some(w1) && [Fail(q)][1..] == [];
      assert Run(ttl, w1, []) == Some(w1);
      assert Run(ttl, w, [Fail(q)]) == Some(w1);
    }
  }

  lemma ServedBefore(ttl: int, w: World, q: nat, t: Tenant.ID, later: Time)
    requires w.lock.None? && PhaseOf(w, q).Idle? && w.now <= later < PIN_START && Serves(w.registries, t, ttl, later)
    ensures var r := Run(ttl, w, [Get(q, t), Peek(q), Tick(later), FastCheck(q)]);
            r.Some? && PhaseOf(r.value, q) == Done(t, At(w.floors, t), w.registries[t], true, later)
  {
    CheckSteps(ttl, w, q, t, later);
  }

  lemma LateServingExists(ttl: int, w: World, t: Tenant.ID, written: Time)
    requires Invariant(ttl, w) && t in w.registries && w.registries[t].cachedAt + ttl <= PIN_START
    requires CacheFresh(ttl, w.registries[t].cachedAt, w.now) && written < w.registries[t].cachedAt
    ensures exists steps, q :: ServedLate(ttl, w, t, w.registries[t], written, steps, q)
  {
    var e := w.registries[t];
    assert EntryOk(w, t, At(w.floors, t), e);
    LockCanBeFree(ttl, w);
    var free :| Run(ttl, w, free).Some?
             && Run(ttl, w, free).value == w.(lock := None, threads := Run(ttl, w, free).value.threads)
             && Run(ttl, w, free).value.threads.Keys == w.threads.Keys;
    var w1 := Run(ttl, w, free).value;
    var q := Unused(w.threads.Keys);
    assert q !in w1.threads.Keys;
    var later := e.cachedAt + ttl - 1;
    ServedBefore(ttl, w1, q, t, later);
    RunAppend(ttl, w, free, [Get(q, t), Peek(q), Tick(later), FastCheck(q)]);
    assert ServedLate(ttl, w, t, e, written, free + [Get(q, t), Peek(q), Tick(later), FastCheck(q)], q);
  }

  /** An entry that misses a write can still be served when the ttl has passed since that
      write exactly when it is fresh and the write fell between the reading of the rows and
      their storing. Times stay below the stamps that are set aside for pinned entries. */
  lemma LateExactly(ttl: int, now: Time, before: seq<Step>, w: World, t: Tenant.ID, v: nat)
    requires ZERO_TIME < now < PIN_START && Run(ttl, Start(now), before) == Some(w)
    requires t in w.registries && (t, v) in w.writes && v > w.registries[t].registry.version
    requires w.registries[t].cachedAt + ttl <= PIN_START
    ensures var e := w.registries[t];
            var written := w.writes[(t, v)];
            (exists steps, q :: ServedLate(ttl, w, t, e, written, steps, q))
            <==> CacheFresh(ttl, e.cachedAt, w.now) && e.registry.readAt <= written < e.cachedAt
  {
    var e := w.registries[t];
    var written := w.writes[(t, v)];
    RunKeeps(ttl, Start(now), before);
    assert EntryOk(w, t, At(w.floors, t), e);
    FreshAge(ttl, w, e);
    forall steps, q | ServedLate(ttl, w, t, e, written, steps, q)
      ensures CacheFresh(ttl, e.cachedAt, w.now) && written < e.cachedAt
    {
      RunKeeps(ttl, w, steps);
      var w2 := Run(ttl, w, steps).value;
      assert PhaseOk(ttl, w2, q, w2.threads[q]);
    }
    if CacheFresh(ttl, e.cachedAt, w.now) && written < e.cachedAt {
      LateServingExists(ttl, w, t, written);
    }
  }

  // ----- an input -----

  function OldEntry(read: Time, stored: Time): Cached<Rows>
  {
    Cached(Rows(0, read), stored)
  }

  /** Thread 1 has read t's rows and holds the lock; thread 2, of another process, has written since. */
  function MissedWrite(t: Tenant.ID, read: Time, written: Time): World
  {
    var w := Set(Start(read), 1, Read(t, 0, Rows(0, read))).(lock := Some(1), now := written);
    Set(Wrote(w, t), 2, Written(t, 1))
  }

  function StoredAfterWrite(t: Tenant.ID, read: Time, written: Time, stored: Time): World
  {
    Set(Stored(MissedWrite(t, read, written), t, OldEntry(read, stored), None), 1, Idle).(lock := None, now := stored)
  }

  lemma ReadThenWritten(ttl: int, w: World, t: Tenant.ID, floor: nat, written: Time)
    requires w.lock.None? && PhaseOf(w, 1) == Waiting(t, floor, false) && PhaseOf(w, 2).Idle? && t !in w.registries && w.now <= written < PIN_START
    ensures var w' := Set(w, 1, Read(t, floor, Rows(At(w.versions, t), w.now))).(lock := Some(1), now := written);
            Run(ttl, w, [Acquire(1), ReadRows(1), Tick(written), Write(2, t)])
            == Some(Set(Wrote(w', t), 2, Written(t, At(w.versions, t) + 1)))
  {
    var w1 := Set(w, 1, Locked(t, floor, false)).(lock := Some(1));
    var w2 := Set(w1, 1, Read(t, floor, Rows(At(w.versions, t), w.now)));
    var w' := Set(w, 1, Read(t, floor, Rows(At(w.versions, t), w.now))).(lock := Some(1), now := written);
    assert w2.(now := written) == w' by { assert w2.threads == w'.threads; }
    FourSteps(ttl, w, Acquire(1), w1, ReadRows(1), w2, Tick(written), w', Write(2, t), Set(Wrote(w', t), 2, Written(t, At(w.versions, t) + 1)));
  }

  lemma WriteIsMissed(ttl: int, t: Tenant.ID, read: Time, written: Time)
    requires read <= written < PIN_START
    ensures exists steps :: Run(ttl, Start(read), steps) == Some(MissedWrite(t, read, written))
  {
    var w0 := Start(read);
    var w1 := Set(w0, 1, Waiting(t, 0, false));
    CheckSteps(ttl, w0, 1, t, read);
    ReadThenWritten(ttl, w1, t, 0, written);
    var a := [Get(1, t), Peek(1), Tick(read), FastCheck(1)];
    var b := [Acquire(1), ReadRows(1), Tick(written), Write(2, t)];
    RunAppend(ttl, w0, a, b);
    assert Set(w1, 1, Read(t, 0, Rows(0, read))).threads == Set(w0, 1, Read(t, 0, Rows(0, read))).threads;
    assert Run(ttl, w0, a + b) == Some(MissedWrite(t, read, written));
  }

  lemma ReadThenStored(ttl: int, w: World, t: Tenant.ID, floor: nat, rows: Rows, stored: Time)
    requires w.lock == Some(1) && PhaseOf(w, 1) == Read(t, floor, rows) && w.registries == map[] && w.now <= stored < PIN_START
    ensures Run(ttl, w, [Tick(stored), StoreResult(1, None), Return(1), Tick(stored)])
         == Some(Set(Stored(w, t, Cached(rows, stored), None), 1, Idle).(lock := None, now := stored))
  {
    var e := Cached(rows, stored);
    var w1 := w.(now := stored);
    var w2 := Set(Stored(w1, t, e, None), 1, Done(t, floor, e, false, stored)).(lock := None);
    var w3 := Set(w2, 1, Idle);
    var w4 := Set(Stored(w, t, e, None), 1, Idle).(lock := None, now := stored);
    StoreStep(ttl, w1, t, floor, rows);
    assert w3.threads == w4.threads;
    FourSteps(ttl, w, Tick(stored), w1, StoreResult(1, None), w2, Return(1), w3, Tick(stored), w4);
  }

  lemma StoreStep(ttl: int, w: World, t: Tenant.ID, floor: nat, rows: Rows)
    requires PhaseOf(w, 1) == Read(t, floor, rows) && w.registries == map[]
    ensures var e := Cached(rows, w.now);
            Next(ttl, w, StoreResult(1, None)) == Some(Set(Stored(w, t, e, None), 1, Done(t, floor, e, false, w.now)).(lock := None))
  {
  }

  lemma OldRowsAreStored(ttl: int, t: Tenant.ID, read: Time, written: Time, stored: Time)
    requires read <= written <= stored < PIN_START
    ensures exists steps :: Run(ttl, MissedWrite(t, read, written), steps) == Some(StoredAfterWrite(t, read, written, stored))
  {
    ReadThenStored(ttl, MissedWrite(t, read, written), t, 0, Rows(0, read), stored);
  }

  lemma OldRowsAreReached(ttl: int, t: Tenant.ID, read: Time, written: Time, stored: Time)
    requires read <= written <= stored < PIN_START
    ensures exists before :: Run(ttl, Start(read), before) == Some(StoredAfterWrite(t, read, written, stored))
  {
    WriteIsMissed(ttl, t, read, written);
    OldRowsAreStored(ttl, t, read, written, stored);
    var a :| Run(ttl, Start(read), a) == Some(MissedWrite(t, read, written));
    var b :| Run(ttl, MissedWrite(t, read, written), b) == Some(StoredAfterWrite(t, read, written, stored));
    RunAppend(ttl, Start(read), a, b);
    assert Run(ttl, Start(read), a + b) == Some(StoredAfterWrite(t, read, written, stored));
  }

  /** Rows read, then another process's write, then the registry stored: every call within the ttl of
      the storing is served the old rows, however long after the write. Read at 90, written at 100,
      stored at 150 and asked for at 240 with a ttl of 100, they are served 140 after the write. */
  lemma LateWhenever(ttl: int, t: Tenant.ID, read: Time, written: Time, stored: Time, asked: Time)
    requires ZERO_TIME < read <= written < stored <= asked < PIN_START && asked - stored < ttl <= asked - written
    ensures exists before :: Run(ttl, Start(read), before) == Some(StoredAfterWrite(t, read, written, stored))
    ensures var w := StoredAfterWrite(t, read, written, stored);
            (t, 1) in w.writes && w.writes[(t, 1)] == written
            && exists steps :: ServedLate(ttl, w, t, OldEntry(read, stored), written, steps, 3)
  {
    OldRowsAreReached(ttl, t, read, written, stored);
    var w := StoredAfterWrite(t, read, written, stored);
    assert t in w.registries && w.registries[t] == OldEntry(read, stored);
    ServedBefore(ttl, w, 3, t, asked);
    assert ServedLate(ttl, w, t, OldEntry(read, stored), written, [Get(3, t), Peek(3), Tick(asked), FastCheck(3)], 3);
  }
}
