/** Any number of threads on one registry cache, a step at a time, with writers
    changing provider rows and, if they are of this process, invalidating. A
    registry is represented by the rows of the tenant it was built from. */
module RegistryThreads {
  import opened Common
  import opened Eviction
  import opened RegistryCache
  import Tenant

  /** A version of the tenant's rows, and when it was read. */
  datatype Rows = Rows(version: nat, readAt: Time)

  /** Where a thread is. floor is the newest version of the tenant's rows whose
      write and invalidation had both finished when the call was made. */
  datatype Phase =
    | Idle
    | Asked(t: Tenant.ID, floor: nat)
    | Captured(t: Tenant.ID, floor: nat, entry: Option<Cached<Rows>>) // read lock released again
    | Waiting(t: Tenant.ID, floor: nat, reload: bool)                  // for the write lock
    | Locked(t: Tenant.ID, floor: nat, reload: bool)
    | Read(t: Tenant.ID, floor: nat, rows: Rows)                       // rows read, write lock held
    | Done(t: Tenant.ID, floor: nat, answer: Cached<Rows>, cached: bool, at: Time)
    | Failed(t: Tenant.ID)
    | Written(t: Tenant.ID, version: nat)                              // rows changed, not yet invalidated

  /** writes holds the time each version of a tenant's rows was written. */
  datatype World = World(
    registries: Registries<Rows>,
    lock: Option<nat>,
    versions: map<Tenant.ID, nat>,
    writes: map<(Tenant.ID, nat), Time>,
    floors: map<Tenant.ID, nat>,
    now: Time,
    threads: map<nat, Phase>)

  datatype Step =
    | Get(q: nat, t: Tenant.ID)
    | Peek(q: nat)
    | FastCheck(q: nat)
    | Reload(q: nat, t: Tenant.ID)
    | Acquire(q: nat)
    | Recheck(q: nat)
    | ReadRows(q: nat)
    | StoreResult(q: nat, victim: Option<Tenant.ID>)
    | Fail(q: nat)    // the read or the build failed
    | Write(q: nat, t: Tenant.ID)
    | Invalidate(q: nat)
    | Return(q: nat)
    | Tick(now: Time)

  function At(m: map<Tenant.ID, nat>, t: Tenant.ID): nat
  {
    if t in m then m[t] else 0
  }

  function PhaseOf(w: World, q: nat): Phase
  {
    if q in w.threads then w.threads[q] else Idle
  }

  function Set(w: World, q: nat, p: Phase): World
  {
    w.(threads := w.threads[q := p])
  }

  function Lookup(s: Registries<Rows>, t: Tenant.ID): Option<Cached<Rows>>
  {
    if t in s then Some(s[t]) else None
  }

  function Max(a: nat, b: nat): nat
  {
    if a < b then b else a
  }

  /** The next version of t's rows, written now. */
  function Wrote(w: World, t: Tenant.ID): World
  {
    var v := At(w.versions, t) + 1;
    w.(versions := w.versions[t := v], writes := w.writes[(t, v) := w.now])
  }

  function Stored(w: World, t: Tenant.ID, entry: Cached<Rows>, victim: Option<Tenant.ID>): World
  {
    w.(registries := Without(w.registries, victim)[t := entry])
  }

  ghost function Next(ttl: int, w: World, s: Step): Option<World>
  {
    match s
    case Get(q, t) =>
      if !PhaseOf(w, q).Idle? then None else Some(Set(w, q, Asked(t, At(w.floors, t))))
    case Peek(q) =>
      if !PhaseOf(w, q).Asked? || w.lock.Some? then None
      else var p := PhaseOf(w, q); Some(Set(w, q, Captured(p.t, p.floor, Lookup(w.registries, p.t))))
    case FastCheck(q) =>
      if !PhaseOf(w, q).Captured? then None
      else
        var p := PhaseOf(w, q);
        if p.entry.Some? && CacheFresh(ttl, p.entry.value.cachedAt, w.now)
        then Some(Set(w, q, Done(p.t, p.floor, p.entry.value, true, w.now)))
        else Some(Set(w, q, Waiting(p.t, p.floor, false)))
    case Reload(q, t) =>
      if !PhaseOf(w, q).Idle? then None else Some(Set(w, q, Waiting(t, At(w.floors, t), true)))
    case Acquire(q) =>
      if !PhaseOf(w, q).Waiting? || w.lock.Some? then None
      else
        var p := PhaseOf(w, q);
        var w' := Set(w, q, Locked(p.t, p.floor, p.reload)).(lock := Some(q));
        Some(if p.reload then w'.(registries := w.registries - {p.t}) else w')
    case Recheck(q) =>
      if !PhaseOf(w, q).Locked? || PhaseOf(w, q).reload || !Serves(w.registries, PhaseOf(w, q).t, ttl, w.now) then None
      else
        var p := PhaseOf(w, q);
        Some(Set(w, q, Done(p.t, p.floor, w.registries[p.t], true, w.now)).(lock := None))
    case ReadRows(q) =>
      if !PhaseOf(w, q).Locked? || (!PhaseOf(w, q).reload && Serves(w.registries, PhaseOf(w, q).t, ttl, w.now)) then None
      else var p := PhaseOf(w, q); Some(Set(w, q, Read(p.t, p.floor, Rows(At(w.versions, p.t), w.now))))
    case StoreResult(q, victim) =>
      if !PhaseOf(w, q).Read? || !MakesRoom(w.registries, CachedAt, MAX_CACHED_TENANTS, PhaseOf(w, q).t, victim) then None
      else
        var p := PhaseOf(w, q);
        var answer := Cached(p.rows, w.now);
        Some(Set(Stored(w, p.t, answer, victim), q, Done(p.t, p.floor, answer, false, w.now)).(lock := None))
    case Fail(q) =>
      if !PhaseOf(w, q).Locked? && !PhaseOf(w, q).Read? then None
      else Some(Set(w, q, Failed(PhaseOf(w, q).t)).(lock := None))
    case Write(q, t) =>
      if !PhaseOf(w, q).Idle? then None
      else
        Some(Set(Wrote(w, t), q, Written(t, At(w.versions, t) + 1)))
    case Invalidate(q) =>
      if !PhaseOf(w, q).Written? || w.lock.Some? then None
      else
        var p := PhaseOf(w, q);
        Some(Set(w, q, Idle).(registries := w.registries - {p.t}, floors := w.floors[p.t := Max(At(w.floors, p.t), p.version)]))
    case Return(q) =>
      if !PhaseOf(w, q).Done? && !PhaseOf(w, q).Failed? then None else Some(Set(w, q, Idle))
    case Tick(now) =>
      if now < w.now || now >= PIN_START then None else Some(w.(now := now))
  }

  ghost function Run(ttl: int, w: World, steps: seq<Step>): Option<World>
    decreases |steps|
  {
    if steps == [] then Some(w)
    else
      match Next(ttl, w, steps[0])
      case None => None
      case Some(w') => Run(ttl, w', steps[1..])
  }

  function Start(now: Time): World
  {
    World(map[], None, map[], map[], map[], now, map[])
  }

  // ----- the invariant -----

  /** Versions are written one after the other. */
  ghost predicate WritesOk(w: World)
  {
    && (forall t, v :: (t, v) in w.writes ==> 0 < v <= At(w.versions, t) && w.writes[(t, v)] <= w.now)
    && (forall t, v :: 0 < v <= At(w.versions, t) ==> (t, v) in w.writes)
  }

  /** Rows hold exactly the writes made before they were read; of a write made at that very time either may be. */
  ghost predicate RowsOk(w: World, t: Tenant.ID, rows: Rows)
  {
    && rows.readAt <= w.now && rows.version <= At(w.versions, t)
    && forall v :: (t, v) in w.writes ==>
         if v <= rows.version then w.writes[(t, v)] <= rows.readAt else rows.readAt <= w.writes[(t, v)]
  }

  /** The entry was cached at a possible time, after its rows were read, and is
      not older than any finished invalidation asks. */
  ghost predicate EntryOk(w: World, t: Tenant.ID, floor: nat, c: Cached<Rows>)
  {
    ZERO_TIME < c.cachedAt <= w.now && c.registry.readAt <= c.cachedAt && floor <= c.registry.version && RowsOk(w, t, c.registry)
  }

  ghost predicate PhaseOk(ttl: int, w: World, q: nat, p: Phase)
  {
    match p
    case Idle => w.lock != Some(q)
    case Asked(t, floor) => floor <= At(w.floors, t) && w.lock != Some(q)
    case Captured(t, floor, entry) => floor <= At(w.floors, t) && w.lock != Some(q) && (entry.Some? ==> EntryOk(w, t, floor, entry.value))
    case Waiting(t, floor, _) => floor <= At(w.floors, t) && w.lock != Some(q)
    case Locked(t, floor, _) => floor <= At(w.floors, t) && w.lock == Some(q)
    case Read(t, floor, rows) => floor <= At(w.floors, t) <= rows.version && w.lock == Some(q) && RowsOk(w, t, rows)
    case Done(t, floor, answer, cached, at) =>
      EntryOk(w, t, floor, answer) && answer.cachedAt <= at <= w.now && (cached ==> at - answer.cachedAt < ttl) && w.lock != Some(q)
    case Failed(_) => w.lock != Some(q)
    case Written(t, version) => version <= At(w.versions, t) && w.lock != Some(q)
  }

  ghost predicate CacheOk(w: World)
  {
    && |w.registries| <= MAX_CACHED_TENANTS
    && forall t :: t in w.registries ==> EntryOk(w, t, At(w.floors, t), w.registries[t])
  }

  ghost predicate Invariant(ttl: int, w: World)
  {
    && ZERO_TIME < w.now < PIN_START
    && CacheOk(w) && WritesOk(w)
    && (forall t :: At(w.floors, t) <= At(w.versions, t))
    && (forall q :: q in w.threads ==> PhaseOk(ttl, w, q, w.threads[q]))
    && (w.lock.Some? ==> w.lock.value in w.threads)
  }

  lemma FreshAge(ttl: int, w: World, c: Cached<Rows>)
    requires ZERO_TIME < c.cachedAt <= w.now < PIN_START
    ensures CacheFresh(ttl, c.cachedAt, w.now) <==> ttl != 0 && w.now - c.cachedAt < ttl
  {
  }

  /** What was right about rows stays right when time passes or a version is written now. */
  lemma RowsStay(w: World, w': World, t: Tenant.ID, rows: Rows)
    requires RowsOk(w, t, rows) && w.now <= w'.now && At(w.versions, t) <= At(w'.versions, t)
    requires forall v :: (t, v) in w'.writes ==>
               if (t, v) in w.writes then w'.writes[(t, v)] == w.writes[(t, v)]
               else At(w.versions, t) < v && w.now <= w'.writes[(t, v)]
    ensures RowsOk(w', t, rows)
  {
  }

  lemma PhaseStays(ttl: int, w: World, w': World, q: nat, p: Phase)
    requires PhaseOk(ttl, w, q, p) && (w'.lock == Some(q) <==> w.lock == Some(q)) && w'.floors == w.floors && w.now <= w'.now
    requires forall t :: At(w.versions, t) <= At(w'.versions, t)
    requires forall t, v :: (t, v) in w'.writes ==>
               if (t, v) in w.writes then w'.writes[(t, v)] == w.writes[(t, v)]
               else At(w.versions, t) < v && w.now <= w'.writes[(t, v)]
    ensures PhaseOk(ttl, w', q, p)
  {
    match p
    case Captured(t, _, Some(c)) => RowsStay(w, w', t, c.registry);
    case Read(t, _, rows) => RowsStay(w, w', t, rows);
    case Done(t, _, c, _, _) => RowsStay(w, w', t, c.registry);
    case _ =>
  }

  /** A thread moves and nothing others depend on changes. */
  lemma MoveKeeps(ttl: int, w: World, q: nat, p: Phase)
    requires Invariant(ttl, w) && PhaseOk(ttl, w, q, p)
    ensures Invariant(ttl, Set(w, q, p))
  {
    var w' := Set(w, q, p);
    forall r | r in w'.threads ensures PhaseOk(ttl, w', r, w'.threads[r]) {
      if r != q { assert PhaseOk(ttl, w, r, w.threads[r]); }
    }
  }

  /** Taking or giving up the write lock. */
  lemma LockKeeps(ttl: int, w: World, q: nat, p: Phase, lock: Option<nat>)
    requires Invariant(ttl, w) && PhaseOk(ttl, w.(lock := lock), q, p)
    requires if w.lock.Some? then w.lock == Some(q) && lock.None? else lock == Some(q)
    ensures Invariant(ttl, Set(w, q, p).(lock := lock))
  {
    var w' := Set(w, q, p).(lock := lock);
    forall r | r in w'.threads ensures PhaseOk(ttl, w', r, w'.threads[r]) {
      if r == q {
        PhaseStays(ttl, w.(lock := lock), w', q, p);
      } else {
        PhaseStays(ttl, w, w', r, w.threads[r]);
      }
    }
  }

  /** Dropping an entry. */
  lemma DropKeeps(ttl: int, w: World, t: Tenant.ID)
    requires Invariant(ttl, w)
    ensures Invariant(ttl, w.(registries := w.registries - {t}))
  {
    var w' := w.(registries := w.registries - {t});
    assert w'.registries.Keys == w.registries.Keys - {t};
    assert |w'.registries| == |w'.registries.Keys| <= |w.registries.Keys| == |w.registries|;
    forall r | r in w'.threads ensures PhaseOk(ttl, w', r, w'.threads[r]) {
      assert PhaseOk(ttl, w, r, w.threads[r]);
    }
  }

  lemma AcquireKeeps(ttl: int, w: World, q: nat)
    requires Invariant(ttl, w) && Next(ttl, w, Acquire(q)).Some?
    ensures Invariant(ttl, Next(ttl, w, Acquire(q)).value)
  {
    var p := PhaseOf(w, q);
    LockKeeps(ttl, w, q, Locked(p.t, p.floor, p.reload), Some(q));
    DropKeeps(ttl, Set(w, q, Locked(p.t, p.floor, p.reload)).(lock := Some(q)), p.t);
  }

  /** The cache takes one more entry, within its bound. */
  lemma InsertKeeps(ttl: int, w: World, s: Registries<Rows>, t: Tenant.ID, entry: Cached<Rows>)
    requires Invariant(ttl, w) && EntryOk(w, t, At(w.floors, t), entry)
    requires |s| <= MAX_CACHED_TENANTS && t in s && s[t] == entry
    requires forall u :: u in s && u != t ==> u in w.registries && s[u] == w.registries[u]
    ensures Invariant(ttl, w.(registries := s))
  {
    var w' := w.(registries := s);
    forall u | u in s ensures EntryOk(w', u, At(w.floors, u), s[u]) {
      assert u != t ==> EntryOk(w, u, At(w.floors, u), w.registries[u]);
      RowsStay(w, w', u, s[u].registry);
    }
    assert CacheOk(w') && WritesOk(w');
    forall r | r in w'.threads ensures PhaseOk(ttl, w', r, w'.threads[r]) {
      assert PhaseOk(ttl, w, r, w.threads[r]);
    }
  }

  /** A built registry enters the cache, the write lock still held. */
  lemma StoredKeeps(ttl: int, w: World, q: nat, victim: Option<Tenant.ID>)
    requires Invariant(ttl, w) && PhaseOf(w, q).Read? && MakesRoom(w.registries, CachedAt, MAX_CACHED_TENANTS, PhaseOf(w, q).t, victim)
    ensures var p := PhaseOf(w, q);
            var entry := Cached(p.rows, w.now);
            Invariant(ttl, Stored(w, p.t, entry, victim)) && EntryOk(Stored(w, p.t, entry, victim), p.t, p.floor, entry) && w.lock == Some(q)
  {
    var p := PhaseOf(w, q);
    var entry := Cached(p.rows, w.now);
    ReplacedCache(w.registries, victim, p.t, entry);
    assert PhaseOk(ttl, w, q, p) && EntryOk(w, p.t, At(w.floors, p.t), entry);
    InsertKeeps(ttl, w, Without(w.registries, victim)[p.t := entry], p.t, entry);
    RowsStay(w, Stored(w, p.t, entry, victim), p.t, p.rows);
  }

  lemma StoreResultKeeps(ttl: int, w: World, q: nat, victim: Option<Tenant.ID>)
    requires Invariant(ttl, w) && PhaseOf(w, q).Read? && MakesRoom(w.registries, CachedAt, MAX_CACHED_TENANTS, PhaseOf(w, q).t, victim)
    ensures var p := PhaseOf(w, q);
            var entry := Cached(p.rows, w.now);
            Invariant(ttl, Set(Stored(w, p.t, entry, victim), q, Done(p.t, p.floor, entry, false, w.now)).(lock := None))
  {
    var p := PhaseOf(w, q);
    var entry := Cached(p.rows, w.now);
    StoredKeeps(ttl, w, q, victim);
    LockKeeps(ttl, Stored(w, p.t, entry, victim), q, Done(p.t, p.floor, entry, false, w.now), None);
  }

  lemma ReplacedCache(m: Registries<Rows>, victim: Option<Tenant.ID>, t: Tenant.ID, entry: Cached<Rows>)
    requires MakesRoom(m, CachedAt, MAX_CACHED_TENANTS, t, victim) && |m| <= MAX_CACHED_TENANTS
    ensures var s := Without(m, victim)[t := entry];
            |s| <= MAX_CACHED_TENANTS && t in s && s[t] == entry
            && forall u :: u in s && u != t ==> u in m && s[u] == m[u]
  {
  }

  lemma TimePasses(ttl: int, w: World, w': World)
    requires Invariant(ttl, w) && WritesOk(w') && w.now <= w'.now < PIN_START
    requires w' == w.(now := w'.now, versions := w'.versions, writes := w'.writes)
    requires forall t :: At(w.versions, t) <= At(w'.versions, t)
    requires forall t, v :: (t, v) in w'.writes ==>
               if (t, v) in w.writes then w'.writes[(t, v)] == w.writes[(t, v)]
               else At(w.versions, t) < v && w.now <= w'.writes[(t, v)]
    ensures Invariant(ttl, w')
  {
    forall t | t in w'.registries ensures EntryOk(w', t, At(w'.floors, t), w'.registries[t]) {
      assert EntryOk(w, t, At(w.floors, t), w.registries[t]);
      RowsStay(w, w', t, w.registries[t].registry);
    }
    forall r | r in w'.threads ensures PhaseOk(ttl, w', r, w'.threads[r]) {
      PhaseStays(ttl, w, w', r, w.threads[r]);
    }
  }

  lemma WritesGrow(w: World, t: Tenant.ID)
    requires WritesOk(w)
    ensures WritesOk(Wrote(w, t))
  {
    var v := At(w.versions, t) + 1;
    var w' := Wrote(w, t);
    forall u, k | 0 < k <= At(w'.versions, u) ensures (u, k) in w'.writes {
      assert (u, k) == (t, v) || k <= At(w.versions, u);
    }
  }

  lemma WroteKeeps(ttl: int, w: World, t: Tenant.ID)
    requires Invariant(ttl, w)
    ensures Invariant(ttl, Wrote(w, t))
  {
    WritesGrow(w, t);
    TimePasses(ttl, w, Wrote(w, t));
  }

  lemma WriteKeeps(ttl: int, w: World, q: nat, t: Tenant.ID)
    requires Invariant(ttl, w) && Next(ttl, w, Write(q, t)).Some?
    ensures Invariant(ttl, Next(ttl, w, Write(q, t)).value)
  {
    var p := Written(t, At(w.versions, t) + 1);
    assert Next(ttl, w, Write(q, t)).value == Set(Wrote(w, t), q, p);
    assert w.lock != Some(q) by { if q in w.threads { assert PhaseOk(ttl, w, q, Idle); } }
    WroteKeeps(ttl, w, t);
    MoveKeeps(ttl, Wrote(w, t), q, p);
  }

  /** With the entry gone and no reader inside the lock, the floor can rise. */
  lemma RaiseKeeps(ttl: int, w: World, t: Tenant.ID, v: nat)
    requires Invariant(ttl, w) && w.lock.None? && t !in w.registries && At(w.floors, t) <= v <= At(w.versions, t)
    ensures Invariant(ttl, w.(floors := w.floors[t := v]))
  {
    var w' := w.(floors := w.floors[t := v]);
    forall u | u in w'.registries ensures EntryOk(w', u, At(w'.floors, u), w'.registries[u]) {
      assert EntryOk(w, u, At(w.floors, u), w.registries[u]);
      RowsStay(w, w', u, w.registries[u].registry);
    }
    forall r | r in w'.threads ensures PhaseOk(ttl, w', r, w'.threads[r]) {
      PhaseRaised(ttl, w, t, v, r, w.threads[r]);
    }
  }

  lemma PhaseRaised(ttl: int, w: World, t: Tenant.ID, v: nat, q: nat, p: Phase)
    requires PhaseOk(ttl, w, q, p) && w.lock.None? && At(w.floors, t) <= v
    ensures PhaseOk(ttl, w.(floors := w.floors[t := v]), q, p)
  {
    var w' := w.(floors := w.floors[t := v]);
    match p
    case Captured(u, _, Some(c)) => RowsStay(w, w', u, c.registry);
    case Done(u, _, c, _, _) => RowsStay(w, w', u, c.registry);
    case _ =>
  }

  lemma InvalidateKeeps(ttl: int, w: World, q: nat)
    requires Invariant(ttl, w) && Next(ttl, w, Invalidate(q)).Some?
    ensures Invariant(ttl, Next(ttl, w, Invalidate(q)).value)
  {
    var p := PhaseOf(w, q);
    var v := Max(At(w.floors, p.t), p.version);
    var w1 := w.(registries := w.registries - {p.t});
    var w2 := w1.(floors := w.floors[p.t := v]);
    assert Next(ttl, w, Invalidate(q)).value == Set(w2, q, Idle);
    assert w.lock != Some(q) && p.version <= At(w.versions, p.t) by { assert PhaseOk(ttl, w, q, p); }
    DropKeeps(ttl, w, p.t);
    RaiseKeeps(ttl, w1, p.t, v);
    MoveKeeps(ttl, w2, q, Idle);
  }

  lemma FastCheckKeeps(ttl: int, w: World, q: nat)
    requires Invariant(ttl, w) && Next(ttl, w, FastCheck(q)).Some?
    ensures Invariant(ttl, Next(ttl, w, FastCheck(q)).value)
  {
    var p := PhaseOf(w, q);
    if p.entry.Some? && CacheFresh(ttl, p.entry.value.cachedAt, w.now) {
      FreshAge(ttl, w, p.entry.value);
      MoveKeeps(ttl, w, q, Done(p.t, p.floor, p.entry.value, true, w.now));
    } else {
      MoveKeeps(ttl, w, q, Waiting(p.t, p.floor, false));
    }
  }

  lemma RecheckKeeps(ttl: int, w: World, q: nat)
    requires Invariant(ttl, w) && Next(ttl, w, Recheck(q)).Some?
    ensures Invariant(ttl, Next(ttl, w, Recheck(q)).value)
  {
    var p := PhaseOf(w, q);
    assert PhaseOk(ttl, w, q, p);
    FreshAge(ttl, w, w.registries[p.t]);
    LockKeeps(ttl, w, q, Done(p.t, p.floor, w.registries[p.t], true, w.now), None);
  }

  lemma ReadRowsKeeps(ttl: int, w: World, q: nat)
    requires Invariant(ttl, w) && Next(ttl, w, ReadRows(q)).Some?
    ensures Invariant(ttl, Next(ttl, w, ReadRows(q)).value)
  {
    var p := PhaseOf(w, q);
    assert PhaseOk(ttl, w, q, p);
    assert RowsOk(w, p.t, Rows(At(w.versions, p.t), w.now));
    MoveKeeps(ttl, w, q, Read(p.t, p.floor, Rows(At(w.versions, p.t), w.now)));
  }

  lemma PeekKeeps(ttl: int, w: World, q: nat)
    requires Invariant(ttl, w) && Next(ttl, w, Peek(q)).Some?
    ensures Invariant(ttl, Next(ttl, w, Peek(q)).value)
  {
    var p := PhaseOf(w, q);
    if p.t in w.registries { assert EntryOk(w, p.t, At(w.floors, p.t), w.registries[p.t]); }
    MoveKeeps(ttl, w, q, Captured(p.t, p.floor, Lookup(w.registries, p.t)));
  }

  lemma CallKeeps(ttl: int, w: World, s: Step)
    requires Invariant(ttl, w) && Next(ttl, w, s).Some? && (s.Get? || s.Reload? || s.Return?)
    ensures Invariant(ttl, Next(ttl, w, s).value)
  {
    MoveKeeps(ttl, w, s.q, PhaseOf(Next(ttl, w, s).value, s.q));
  }

  lemma FailKeeps(ttl: int, w: World, q: nat)
    requires Invariant(ttl, w) && Next(ttl, w, Fail(q)).Some?
    ensures Invariant(ttl, Next(ttl, w, Fail(q)).value)
  {
    LockKeeps(ttl, w, q, Failed(PhaseOf(w, q).t), None);
  }

  lemma StepKeeps(ttl: int, w: World, s: Step)
    requires Invariant(ttl, w) && Next(ttl, w, s).Some?
    ensures Invariant(ttl, Next(ttl, w, s).value)
  {
    match s
    case Peek(q) => PeekKeeps(ttl, w, q);
    case FastCheck(q) => FastCheckKeeps(ttl, w, q);
    case Acquire(q) => AcquireKeeps(ttl, w, q);
    case Recheck(q) => RecheckKeeps(ttl, w, q);
    case ReadRows(q) => ReadRowsKeeps(ttl, w, q);
    case StoreResult(q, victim) => StoreResultKeeps(ttl, w, q, victim);
    case Fail(q) => FailKeeps(ttl, w, q);
    case Write(q, t) => WriteKeeps(ttl, w, q, t);
    case Invalidate(q) => InvalidateKeeps(ttl, w, q);
    case Tick(now) => TimePasses(ttl, w, w.(now := now));
    case _ => CallKeeps(ttl, w, s);
  }

  lemma {:induction false} RunKeeps(ttl: int, w: World, steps: seq<Step>)
    requires Invariant(ttl, w) && Run(ttl, w, steps).Some?
    ensures Invariant(ttl, Run(ttl, w, steps).value)
    decreases |steps|
  {
    if steps != [] {
      StepKeeps(ttl, w, steps[0]);
      RunKeeps(ttl, Next(ttl, w, steps[0]).value, steps[1..]);
    }
  }

  /** Every interleaving of any number of threads: a call never returns a registry
      older than the invalidations that were finished when it was made, what the
      cache serves is younger than the ttl (so nothing is, when the ttl is zero),
      every write made before the rows were read is in the answer and none made
      after, and the map keeps its bound. */
  lemma EveryRun(ttl: int, now: Time, steps: seq<Step>, q: nat)
    requires ZERO_TIME < now < PIN_START && Run(ttl, Start(now), steps).Some?
    ensures var w := Run(ttl, Start(now), steps).value;
            && |w.registries| <= 1024
            && (q in w.threads && w.threads[q].Done? ==>
                  && var d := w.threads[q];
                  && d.floor <= d.answer.registry.version
                  && d.answer.registry.readAt <= d.answer.cachedAt <= d.at
                  && (d.cached ==> d.at - d.answer.cachedAt < ttl)
                  && forall v :: (d.t, v) in w.writes ==>
                       && (w.writes[(d.t, v)] < d.answer.registry.readAt ==> v <= d.answer.registry.version)
                       && (w.writes[(d.t, v)] > d.answer.registry.readAt ==> v > d.answer.registry.version))
  {
    RunKeeps(ttl, Start(now), steps);
    var w := Run(ttl, Start(now), steps).value;
    if q in w.threads { assert PhaseOk(ttl, w, q, w.threads[q]); }
  }

  // ----- the promise, without the bookkeeping -----

  /** A call on t in this phase was made when v was already asked for. */
  predicate AskedSince(p: Phase, t: Tenant.ID, v: nat)
  {
    (p.Asked? || p.Captured? || p.Waiting? || p.Locked? || p.Read? || p.Done?) && p.t == t ==> v <= p.floor
  }

  /** Thread q has not begun, for tenant t, any call made before version v was invalidated. */
  predicate Since(w: World, q: nat, t: Tenant.ID, v: nat)
  {
    v <= At(w.floors, t) && AskedSince(PhaseOf(w, q), t, v)
  }

  lemma FloorsRise(ttl: int, w: World, s: Step, t: Tenant.ID)
    requires Next(ttl, w, s).Some?
    ensures At(w.floors, t) <= At(Next(ttl, w, s).value.floors, t)
  {
  }

  lemma OthersStay(ttl: int, w: World, s: Step, q: nat)
    requires Next(ttl, w, s).Some? && (s.Tick? || s.q != q)
    ensures PhaseOf(Next(ttl, w, s).value, q) == PhaseOf(w, q)
  {
  }

  /** A thread that is past its call keeps the floor it was given; a new call gets the present one. */
  lemma OwnStepKeepsFloor(ttl: int, w: World, s: Step, t: Tenant.ID, v: nat)
    requires Next(ttl, w, s).Some? && !s.Tick? && v <= At(w.floors, t) && AskedSince(PhaseOf(w, s.q), t, v)
    ensures AskedSince(PhaseOf(Next(ttl, w, s).value, s.q), t, v)
  {
  }

  lemma SinceKeeps(ttl: int, w: World, s: Step, q: nat, t: Tenant.ID, v: nat)
    requires Next(ttl, w, s).Some? && Since(w, q, t, v)
    ensures Since(Next(ttl, w, s).value, q, t, v)
  {
    FloorsRise(ttl, w, s, t);
    if s.Tick? || s.q != q {
      OthersStay(ttl, w, s, q);
    } else {
      OwnStepKeepsFloor(ttl, w, s, t, v);
    }
  }

  lemma {:induction false} SinceRun(ttl: int, w: World, steps: seq<Step>, q: nat, t: Tenant.ID, v: nat)
    requires Run(ttl, w, steps).Some? && Since(w, q, t, v)
    ensures Since(Run(ttl, w, steps).value, q, t, v)
    decreases |steps|
  {
    if steps != [] {
      SinceKeeps(ttl, w, steps[0], q, t, v);
      SinceRun(ttl, Next(ttl, w, steps[0]).value, steps[1..], q, t, v);
    }
  }

  /** Right after an invalidation, the writer and every idle thread are past it. */
  lemma IdleIsSince(ttl: int, w: World, writer: nat, w1: World, q: nat)
    requires PhaseOf(w, writer).Written? && Next(ttl, w, Invalidate(writer)) == Some(w1)
    requires q == writer || PhaseOf(w, q).Idle?
    ensures Since(w1, q, PhaseOf(w, writer).t, PhaseOf(w, writer).version)
  {
  }

  /** Once a write of t's rows and the InvalidateTenant behind it are done, no
      thread that is idle then ever gets a registry for t built from older rows,
      whatever was being read, built or waited for in the meantime. */
  lemma InvalidationIsSeen(ttl: int, now: Time, before: seq<Step>, w: World, writer: nat, w1: World, after: seq<Step>, w2: World, q: nat)
    requires ZERO_TIME < now < PIN_START && Run(ttl, Start(now), before) == Some(w)
    requires PhaseOf(w, writer).Written? && Next(ttl, w, Invalidate(writer)) == Some(w1)
    requires q == writer || PhaseOf(w, q).Idle?
    requires Run(ttl, w1, after) == Some(w2) && PhaseOf(w2, q).Done? && PhaseOf(w2, q).t == PhaseOf(w, writer).t
    ensures PhaseOf(w2, q).answer.registry.version >= PhaseOf(w, writer).version
  {
    var wrote := PhaseOf(w, writer);
    RunKeeps(ttl, Start(now), before);
    StepKeeps(ttl, w, Invalidate(writer));
    IdleIsSince(ttl, w, writer, w1, q);
    SinceRun(ttl, w1, after, q, wrote.t, wrote.version);
    RunKeeps(ttl, w1, after);
    assert PhaseOk(ttl, w2, q, PhaseOf(w2, q));
  }

  // ----- a call nobody interrupts -----

  lemma {:induction false} RunAppend(ttl: int, w: World, a: seq<Step>, b: seq<Step>)
    requires Run(ttl, w, a).Some?
    ensures Run(ttl, w, a + b) == Run(ttl, Run(ttl, w, a).value, b)
    decreases |a|
  {
    if a == [] {
      assert a + b == b;
    } else {
      assert (a + b)[0] == a[0] && (a + b)[1..] == a[1..] + b;
      RunAppend(ttl, Next(ttl, w, a[0]).value, a[1..], b);
    }
  }

  lemma FourSteps(ttl: int, w: World, a: Step, w1: World, b: Step, w2: World, c: Step, w3: World, d: Step, w4: World)
    requires Next(ttl, w, a) == Some(w1) && Next(ttl, w1, b) == Some(w2) && Next(ttl, w2, c) == Some(w3) && Next(ttl, w3, d) == Some(w4)
    ensures Run(ttl, w, [a, b, c, d]) == Some(w4)
  {
    assert [a, b, c, d][1..] == [b, c, d] && [b, c, d][1..] == [c, d] && [c, d][1..] == [d] && [d][1..] == [];
    assert Run(ttl, w4, []) == Some(w4);
    assert Run(ttl, w3, [d]) == Some(w4);
    assert Run(ttl, w2, [c, d]) == Some(w4);
    assert Run(ttl, w1, [b, c, d]) == Some(w4);
  }

  function Checked(ttl: int, w: World, t: Tenant.ID, floor: nat, at: Time): Phase
  {
    if Serves(w.registries, t, ttl, at) then Done(t, floor, w.registries[t], true, at) else Waiting(t, floor, false)
  }

  lemma FastCheckIs(ttl: int, w: World, q: nat, t: Tenant.ID, floor: nat)
    requires PhaseOf(w, q) == Captured(t, floor, Lookup(w.registries, t))
    ensures Next(ttl, w, FastCheck(q)) == Some(Set(w, q, Checked(ttl, w, t, floor, w.now)))
  {
  }

  lemma CheckSteps(ttl: int, w: World, q: nat, t: Tenant.ID, checkedAt: Time)
    requires w.lock.None? && PhaseOf(w, q).Idle? && w.now <= checkedAt < PIN_START
    ensures Run(ttl, w, [Get(q, t), Peek(q), Tick(checkedAt), FastCheck(q)])
         == Some(Set(w, q, Checked(ttl, w, t, At(w.floors, t), checkedAt)).(now := checkedAt))
  {
    var floor := At(w.floors, t);
    var w1 := Set(w, q, Asked(t, floor));
    var w2 := Set(w1, q, Captured(t, floor, Lookup(w.registries, t)));
    var w3 := w2.(now := checkedAt);
    var p := Checked(ttl, w, t, floor, checkedAt);
    FastCheckIs(ttl, w3, q, t, floor);
    assert w3.threads[q := p] == w.threads[q := p];
    FourSteps(ttl, w, Get(q, t), w1, Peek(q), w2, Tick(checkedAt), w3, FastCheck(q), Set(w, q, p).(now := checkedAt));
  }

  /** The steps of one GetRegistry; built says whether its rows could be read and turned into a registry. */
  function CallSteps(ttl: int, w: World, q: nat, t: Tenant.ID, checkedAt: Time, storedAt: Time, built: bool, victim: Option<Tenant.ID>): seq<Step>
  {
    [Get(q, t), Peek(q), Tick(checkedAt), FastCheck(q)]
    + if Serves(w.registries, t, ttl, checkedAt) then []
      else [Acquire(q), ReadRows(q), Tick(storedAt), if built then StoreResult(q, victim) else Fail(q)]
  }

  lemma RebuildSteps(ttl: int, w: World, q: nat, t: Tenant.ID, floor: nat, storedAt: Time, built: bool, victim: Option<Tenant.ID>)
    requires w.lock.None? && PhaseOf(w, q) == Waiting(t, floor, false) && w.now <= storedAt < PIN_START && !Serves(w.registries, t, ttl, w.now)
    requires built ==> MakesRoom(w.registries, CachedAt, MAX_CACHED_TENANTS, t, victim)
    ensures var r := Run(ttl, w, [Acquire(q), ReadRows(q), Tick(storedAt), if built then StoreResult(q, victim) else Fail(q)]);
            var entry := Cached(Rows(At(w.versions, t), w.now), storedAt);
            && r.Some?
            && if built then PhaseOf(r.value, q) == Done(t, floor, entry, false, storedAt) && r.value.registries == Without(w.registries, victim)[t := entry]
               else PhaseOf(r.value, q) == Failed(t) && r.value.registries == w.registries
  {
    var rows := Rows(At(w.versions, t), w.now);
    var last := if built then StoreResult(q, victim) else Fail(q);
    var w1 := Set(w, q, Locked(t, floor, false)).(lock := Some(q));
    var w2 := Set(w1, q, Read(t, floor, rows));
    var w3 := w2.(now := storedAt);
    FourSteps(ttl, w, Acquire(q), w1, ReadRows(q), w2, Tick(storedAt), w3, last, Next(ttl, w3, last).value);
  }

  function AnswerOf(p: Phase): Result<Rows, Error>
  {
    if p.Done? then Ok(p.answer.registry) else Err(BuildFailed)
  }

  /** A call with no other step in between does what Manager.GetRegistry promises. */
  lemma UninterruptedGet(ttl: int, w: World, q: nat, t: Tenant.ID, checkedAt: Time, storedAt: Time, built: bool, victim: Option<Tenant.ID>)
    requires w.lock.None? && PhaseOf(w, q).Idle? && w.now <= checkedAt <= storedAt < PIN_START
    requires built && !Serves(w.registries, t, ttl, checkedAt) ==> MakesRoom(w.registries, CachedAt, MAX_CACHED_TENANTS, t, victim)
    ensures var r := Run(ttl, w, CallSteps(ttl, w, q, t, checkedAt, storedAt, built, victim));
            && r.Some?
            && Got(w.registries, r.value.registries, t, ttl, checkedAt, checkedAt, storedAt,
                   if built then Ok(Rows(At(w.versions, t), checkedAt)) else Err(BuildFailed), AnswerOf(PhaseOf(r.value, q)))
  {
    var check := [Get(q, t), Peek(q), Tick(checkedAt), FastCheck(q)];
    CheckSteps(ttl, w, q, t, checkedAt);
    if Serves(w.registries, t, ttl, checkedAt) {
      assert check + [] == check;
    } else {
      var w1 := Run(ttl, w, check).value;
      RebuildSteps(ttl, w1, q, t, At(w.floors, t), storedAt, built, victim);
      RunAppend(ttl, w, check, [Acquire(q), ReadRows(q), Tick(storedAt), if built then StoreResult(q, victim) else Fail(q)]);
    }
  }
}
