/** Any number of replicas appending to one audit database. Each Log call takes
    the stages of audit/audit_sqlite.go:157-296 one at a time; between any two of
    them another replica may take a step, fail, crash or open the file, and rows
    may be pruned or redacted. BEGIN IMMEDIATE is a lock that one transaction
    holds; a plain DELETE or UPDATE needs it too. */
module AuditReplicas {
  import opened Common
  import opened Bytes
  import opened AuditEvent
  import opened AuditRedaction
  import opened AuditChain
  import opened AuditLog

  /** How far a replica's current Log call has come. */
  datatype Phase =
    | Idle
    | Waiting(e: Event)  // prepared, l.mu held, write lock not yet granted
    | Begun(e: Event)    // write lock held
    | Timed(e: Event)    // `at` settled against the watermark
    | Sealed(e: Event)   // salted, commitments computed
    | Linked(e: Event)   // latest hash read, row hashed, watermark advanced
    | Inserted(e: Event) // row in the open transaction, not yet visible

  predicate InTransaction(p: Phase)
  {
    !p.Idle? && !p.Waiting?
  }

  datatype Replica = Replica(lastAt: Time, phase: Phase)

  /** log is the specification the table is compared with: a plain list that
      every committed append extends at the end. */
  datatype World = World(table: seq<Event>, writer: Option<nat>, replicas: map<nat, Replica>, log: seq<Event>)

  datatype Step =
    | Open(r: nat)
    | Start(r: nat, event: Event, lookup: bytes -> Option<bytes>)
    | Begin(r: nat)
    | ReadWatermark(r: nat)
    | Seal(r: nat, salt: bytes)
    | ReadLatestHash(r: nat)
    | InsertEvent(r: nat)
    | Commit(r: nat)
    | Fail(r: nat)  // any error, a busy timeout included: roll back and return it
    | Crash(r: nat) // the process dies; its transaction is rolled back
    | Prune(cutoff: Time)
    | Redact(id: bytes)

  function SetReplica(w: World, r: nat, s: Replica): World
  {
    w.(replicas := w.replicas[r := s])
  }

  function Released(w: World, r: nat): World
  {
    w.(writer := if w.writer == Some(r) then None else w.writer)
  }

  function Committed(w: World, r: nat, e: Event): World
    requires r in w.replicas
  {
    SetReplica(w, r, w.replicas[r].(phase := Idle)).(table := InsertRow(w.table, e), writer := None, log := w.log + [e])
  }

  /** The world after one step, or None where the step cannot be taken. */
  ghost function Next(h: Hasher, w: World, s: Step): Option<World>
  {
    match s
    case Open(r) =>
      if r in w.replicas || exists i :: 0 <= i < |w.table| && w.table[i].version != CANONICAL_VERSION_4 then None
      else Some(SetReplica(w, r, Replica(Watermark(ZERO_TIME, w.table), Idle)))
    case Start(r, event, lookup) =>
      if r !in w.replicas || !w.replicas[r].phase.Idle? || event.at < ZERO_TIME || Prepare(event, lookup).Err? then None
      else Some(SetReplica(w, r, w.replicas[r].(phase := Waiting(Prepare(event, lookup).value))))
    case Begin(r) =>
      if r !in w.replicas || !w.replicas[r].phase.Waiting? || w.writer.Some? then None
      else Some(SetReplica(w, r, w.replicas[r].(phase := Begun(w.replicas[r].phase.e))).(writer := Some(r)))
    case ReadWatermark(r) =>
      if r !in w.replicas || !w.replicas[r].phase.Begun? then None
      else
        var me := w.replicas[r];
        Some(SetReplica(w, r, me.(phase := Timed(Bumped(me.phase.e, Watermark(me.lastAt, w.table))))))
    case Seal(r, salt) =>
      if r !in w.replicas || !w.replicas[r].phase.Timed? then None
      else Some(SetReplica(w, r, w.replicas[r].(phase := Sealed(Salted(h, w.replicas[r].phase.e, salt)))))
    case ReadLatestHash(r) =>
      if r !in w.replicas || !w.replicas[r].phase.Sealed? then None
      else
        var e := Chained(h, w.replicas[r].phase.e, LatestHash(w.table));
        Some(SetReplica(w, r, Replica(e.at, Linked(e))))
    case InsertEvent(r) =>
      if r !in w.replicas || !w.replicas[r].phase.Linked? || HasID(w.table, w.replicas[r].phase.e.id) then None
      else Some(SetReplica(w, r, w.replicas[r].(phase := Inserted(w.replicas[r].phase.e))))
    case Commit(r) =>
      if r !in w.replicas || !w.replicas[r].phase.Inserted? then None
      else
        Some(Committed(w, r, w.replicas[r].phase.e))
    case Fail(r) =>
      if r !in w.replicas || w.replicas[r].phase.Idle? then None
      else Some(SetReplica(Released(w, r), r, w.replicas[r].(phase := Idle)))
    case Crash(r) =>
      if r !in w.replicas then None else Some(Released(w, r).(replicas := w.replicas - {r}))
    case Prune(cutoff) =>
      if w.writer.Some? then None
      else Some(w.(table := PrunedTable(w.table, cutoff), log := DropOlder(w.log, cutoff)))
    case Redact(id) =>
      if w.writer.Some? then None
      else Some(w.(table := RedactedTable(w.table, id), log := RedactedTable(w.log, id)))
  }

  /** Drops rows from the front of the list for as long as they are older than the cutoff. */
  function DropOlder(log: seq<Event>, cutoff: Time): seq<Event>
  {
    if log != [] && log[0].at < cutoff then DropOlder(log[1..], cutoff) else log
  }

  /** The world after a whole run. */
  ghost function Run(h: Hasher, w: World, steps: seq<Step>): Option<World>
    decreases |steps|
  {
    if steps == [] then Some(w)
    else
      match Next(h, w, steps[0])
      case None => None
      case Some(w') => Run(h, w', steps[1..])
  }

  /** A fresh file and no process. */
  ghost function Start0(): World
  {
    World([], None, map[], [])
  }

  // ----- the invariant -----

  ghost predicate PhaseOk(h: Hasher, table: seq<Event>, p: Phase)
  {
    match p
    case Idle => true
    case Waiting(e) => e.version == CANONICAL_VERSION_4 && e.at > ZERO_TIME
    case Begun(e) => e.version == CANONICAL_VERSION_4 && e.at > ZERO_TIME
    case Timed(e) => Later(table, e)
    case Sealed(e) => Later(table, e) && Truthful(h, e)
    case Linked(e) => Appendable(h, table, e) && Truthful(h, e)
    case Inserted(e) => Appendable(h, table, e) && Truthful(h, e) && !HasID(table, e.id)
  }

  /** The commitment check has nothing to report about this row. */
  predicate Truthful(h: Hasher, e: Event)
  {
    !VerifyCommitments(h, e).Mismatch?
  }

  predicate Later(table: seq<Event>, e: Event)
  {
    e.version == CANONICAL_VERSION_4 && e.at > ZERO_TIME && (table != [] ==> table[|table| - 1].at < e.at)
  }

  /** Exactly the replica named by the lock is inside a transaction. */
  ghost predicate LockOk(w: World)
  {
    && (forall r :: r in w.replicas && InTransaction(w.replicas[r].phase) ==> w.writer == Some(r))
    && (w.writer.Some? ==> w.writer.value in w.replicas && InTransaction(w.replicas[w.writer.value].phase))
  }

  ghost predicate Invariant(h: Hasher, w: World)
  {
    && GoodTable(h, w.table)
    && w.table == w.log
    && LockOk(w)
    && (forall i :: 0 <= i < |w.table| ==> Truthful(h, w.table[i]))
    && (forall r :: r in w.replicas ==> w.replicas[r].lastAt >= ZERO_TIME && PhaseOk(h, w.table, w.replicas[r].phase))
  }

  lemma TableStepKeepsPhases(h: Hasher, w: World, table: seq<Event>)
    requires Invariant(h, w) && w.writer.None?
    ensures forall r :: r in w.replicas ==> PhaseOk(h, table, w.replicas[r].phase)
  {
  }

  /** One replica moves on; table and lock are as before. */
  lemma MoveKeeps(h: Hasher, w: World, r: nat, me: Replica)
    requires Invariant(h, w) && me.lastAt >= ZERO_TIME && PhaseOk(h, w.table, me.phase)
    requires InTransaction(me.phase) <==> w.writer == Some(r)
    ensures Invariant(h, SetReplica(w, r, me))
  {
  }

  lemma BeginKeeps(h: Hasher, w: World, r: nat)
    requires Invariant(h, w) && Next(h, w, Begin(r)).Some?
    ensures Invariant(h, Next(h, w, Begin(r)).value)
  {
  }

  lemma ReadWatermarkKeeps(h: Hasher, w: World, r: nat)
    requires Invariant(h, w) && Next(h, w, ReadWatermark(r)).Some?
    ensures Invariant(h, Next(h, w, ReadWatermark(r)).value)
  {
  }

  lemma ChainedIsAppendable(h: Hasher, table: seq<Event>, e: Event)
    requires Later(table, e)
    ensures Appendable(h, table, Chained(h, e, LatestHash(table)))
    ensures VerifyCommitments(h, Chained(h, e, LatestHash(table))) == VerifyCommitments(h, e)
  {
  }

  lemma ReadLatestHashKeeps(h: Hasher, w: World, r: nat)
    requires Invariant(h, w) && Next(h, w, ReadLatestHash(r)).Some?
    ensures Invariant(h, Next(h, w, ReadLatestHash(r)).value)
  {
    var e := w.replicas[r].phase.e;
    ChainedIsAppendable(h, w.table, e);
    var e' := Chained(h, e, LatestHash(w.table));
    assert InTransaction(w.replicas[r].phase);
    MoveKeeps(h, w, r, Replica(e'.at, Linked(e')));
  }

  /** Outside the transaction that holds the lock, nobody depends on the table. */
  lemma OthersAreOutside(h: Hasher, w: World, r: nat, table: seq<Event>)
    requires Invariant(h, w) && w.writer == Some(r)
    ensures forall q :: q in w.replicas && q != r ==>
              !InTransaction(w.replicas[q].phase) && PhaseOk(h, table, w.replicas[q].phase)
  {
  }

  lemma CommittedKeeps(h: Hasher, w: World, r: nat, e: Event)
    requires Invariant(h, w) && r in w.replicas && w.replicas[r].phase == Inserted(e)
    ensures Invariant(h, Committed(w, r, e))
  {
    assert PhaseOk(h, w.table, w.replicas[r].phase) && w.writer == Some(r);
    AppendKeepsGood(h, w.table, e);
    OthersAreOutside(h, w, r, w.table + [e]);
    var w' := Committed(w, r, e);
    assert w'.table == w.table + [e] && GoodTable(h, w'.table);
    assert LockOk(w');
  }

  lemma CommitKeeps(h: Hasher, w: World, r: nat)
    requires Invariant(h, w) && Next(h, w, Commit(r)).Some?
    ensures Invariant(h, Next(h, w, Commit(r)).value)
  {
    CommittedKeeps(h, w, r, w.replicas[r].phase.e);
  }

  lemma {:induction false} DropOlderIsPrune(table: seq<Event>, cutoff: Time)
    requires IncreasingAt(table)
    ensures DropOlder(table, cutoff) == PrunedTable(table, cutoff)
  {
    var n := PruneIsSuffix(table, cutoff);
    if table != [] && table[0].at < cutoff {
      DropOlderIsPrune(table[1..], cutoff);
    } else {
      assert table != [] ==> n == 0;
      assert table[n..] == table;
    }
  }

  /** Rolling back, by choice or by dying, gives the lock up and leaves no trace. */
  lemma StopKeeps(h: Hasher, w: World, s: Step)
    requires Invariant(h, w) && Next(h, w, s).Some? && (s.Fail? || s.Crash?)
    ensures Invariant(h, Next(h, w, s).value)
  {
    var w' := Next(h, w, s).value;
    forall q | q in w'.replicas && q != s.r ensures q in w.replicas && w'.replicas[q] == w.replicas[q] {
    }
  }

  lemma SealKeeps(h: Hasher, w: World, r: nat, salt: bytes)
    requires Invariant(h, w) && Next(h, w, Seal(r, salt)).Some?
    ensures Invariant(h, Next(h, w, Seal(r, salt)).value)
  {
  }

  lemma PruneKeeps(h: Hasher, w: World, cutoff: Time)
    requires Invariant(h, w) && w.writer.None?
    ensures Invariant(h, Next(h, w, Prune(cutoff)).value)
  {
    PruneKeepsGood(h, w.table, cutoff);
    var n := PruneIsSuffix(w.table, cutoff);
    DropOlderIsPrune(w.table, cutoff);
    TableStepKeepsPhases(h, w, PrunedTable(w.table, cutoff));
  }

  lemma RedactKeeps(h: Hasher, w: World, id: bytes)
    requires Invariant(h, w) && w.writer.None?
    ensures Invariant(h, Next(h, w, Redact(id)).value)
  {
    RedactKeepsGood(h, w.table, id);
    forall i | 0 <= i < |w.table| ensures Truthful(h, RedactedTable(w.table, id)[i]) {
      RedactionIsInvisibleToTheChain(h, w.table[i], []);
    }
    TableStepKeepsPhases(h, w, RedactedTable(w.table, id));
  }

  lemma StepKeeps(h: Hasher, w: World, s: Step)
    requires Invariant(h, w) && Next(h, w, s).Some?
    ensures Invariant(h, Next(h, w, s).value)
  {
    match s
    case Open(r) => MoveKeeps(h, w, r, Replica(Watermark(ZERO_TIME, w.table), Idle));
    case Start(r, event, lookup) =>
      MoveKeeps(h, w, r, w.replicas[r].(phase := Waiting(Prepare(event, lookup).value)));
    case Begin(r) => BeginKeeps(h, w, r);
    case ReadWatermark(r) => ReadWatermarkKeeps(h, w, r);
    case Seal(r, salt) => SealKeeps(h, w, r, salt);
    case ReadLatestHash(r) => ReadLatestHashKeeps(h, w, r);
    case InsertEvent(r) => MoveKeeps(h, w, r, w.replicas[r].(phase := Inserted(w.replicas[r].phase.e)));
    case Commit(r) => CommitKeeps(h, w, r);
    case Fail(r) => StopKeeps(h, w, s);
    case Crash(r) => StopKeeps(h, w, s);
    case Prune(cutoff) => PruneKeeps(h, w, cutoff);
    case Redact(id) => RedactKeeps(h, w, id);
  }

  lemma {:induction false} RunKeeps(h: Hasher, w: World, steps: seq<Step>)
    requires Invariant(h, w) && Run(h, w, steps).Some?
    ensures Invariant(h, Run(h, w, steps).value)
    decreases |steps|
  {
    if steps != [] {
      StepKeeps(h, w, steps[0]);
      RunKeeps(h, Next(h, w, steps[0]).value, steps[1..]);
    }
  }

  /** After any run of any number of replicas, however it was interleaved, with
      failed inserts, crashes, prunes (to empty, too) and redactions: both
      verifiers pass, times strictly increase, no id occurs twice, no row's PII
      is reported as edited, and the table is exactly the list of committed appends in commit order, less what was
      pruned from its front and erased in place. */
  lemma EveryRunVerifies(h: Hasher, steps: seq<Step>)
    requires Run(h, Start0(), steps).Some?
    ensures var w := Run(h, Start0(), steps).value;
            Verified(h, w.table) && IncreasingAt(w.table) && UniqueIds(w.table) && w.table == w.log
            && forall i :: 0 <= i < |w.table| ==> Truthful(h, w.table[i])
  {
    RunKeeps(h, Start0(), steps);
  }

  /** A Log call that nothing interrupts is the run of its stages: the machine
      and the logger class describe one protocol. */
  lemma UninterruptedLog(h: Hasher, w: World, r: nat, event: Event, lookup: bytes -> Option<bytes>, salt: bytes)
    requires Invariant(h, w) && r in w.replicas && w.replicas[r].phase.Idle? && w.writer.None?
    requires event.at >= ZERO_TIME && Prepare(event, lookup).Ok? && !HasID(w.table, event.id)
    ensures var e := LogRow(h, Prepare(event, lookup).value, salt, w.replicas[r].lastAt, w.table);
            Run(h, w, LogSteps(r, event, lookup, salt))
            == Some(w.(table := w.table + [e], log := w.log + [e], replicas := w.replicas[r := Replica(e.at, Idle)]))
  {
    var e := LogRow(h, Prepare(event, lookup).value, salt, w.replicas[r].lastAt, w.table);
    var first := [Start(r, event, lookup), Begin(r), ReadWatermark(r), Seal(r, salt)];
    var last := [ReadLatestHash(r), InsertEvent(r), Commit(r)];
    assert LogSteps(r, event, lookup, salt) == first + last;
    FirstStages(h, w, r, event, lookup, salt);
    RunKeeps(h, w, first);
    var w' := Run(h, w, first).value;
    LastStages(h, w', r);
    RunAppend(h, w, first, last);
    assert w.replicas[r := Replica(e.at, Idle)] == w'.replicas[r := Replica(e.at, Idle)];
  }

  function LogSteps(r: nat, event: Event, lookup: bytes -> Option<bytes>, salt: bytes): seq<Step>
  {
    [Start(r, event, lookup), Begin(r), ReadWatermark(r), Seal(r, salt), ReadLatestHash(r), InsertEvent(r), Commit(r)]
  }

  /** Replica r alone is at work, in this phase. */
  function Working(w: World, r: nat, lastAt: Time, p: Phase): World
  {
    w.(writer := Some(r), replicas := w.replicas[r := Replica(lastAt, p)])
  }

  lemma StartAndBegin(h: Hasher, w: World, r: nat, event: Event, lookup: bytes -> Option<bytes>)
    requires r in w.replicas && w.replicas[r].phase.Idle? && w.writer.None?
    requires event.at >= ZERO_TIME && Prepare(event, lookup).Ok?
    ensures Run(h, w, [Start(r, event, lookup), Begin(r)])
         == Some(Working(w, r, w.replicas[r].lastAt, Begun(Prepare(event, lookup).value)))
  {
    var w1 := Next(h, w, Start(r, event, lookup)).value;
    var w2 := Next(h, w1, Begin(r)).value;
    assert w2 == Working(w, r, w.replicas[r].lastAt, Begun(Prepare(event, lookup).value));
    RunTwo(h, w, Start(r, event, lookup), Begin(r), w1, w2);
  }

  lemma TimeAndSeal(h: Hasher, w: World, r: nat, lastAt: Time, e: Event, salt: bytes)
    ensures Run(h, Working(w, r, lastAt, Begun(e)), [ReadWatermark(r), Seal(r, salt)])
         == Some(Working(w, r, lastAt, Sealed(Salted(h, Bumped(e, Watermark(lastAt, w.table)), salt))))
  {
    var t := Bumped(e, Watermark(lastAt, w.table));
    var w2, w3, w4 := Working(w, r, lastAt, Begun(e)), Working(w, r, lastAt, Timed(t)), Working(w, r, lastAt, Sealed(Salted(h, t, salt)));
    assert Next(h, w2, ReadWatermark(r)).value == w3;
    assert Next(h, w3, Seal(r, salt)).value == w4;
    RunTwo(h, w2, ReadWatermark(r), Seal(r, salt), w3, w4);
  }

  lemma FirstStages(h: Hasher, w: World, r: nat, event: Event, lookup: bytes -> Option<bytes>, salt: bytes)
    requires r in w.replicas && w.replicas[r].phase.Idle? && w.writer.None?
    requires event.at >= ZERO_TIME && Prepare(event, lookup).Ok?
    ensures var lastAt := w.replicas[r].lastAt;
            var e := Salted(h, Bumped(Prepare(event, lookup).value, Watermark(lastAt, w.table)), salt);
            Run(h, w, [Start(r, event, lookup), Begin(r), ReadWatermark(r), Seal(r, salt)]) == Some(Working(w, r, lastAt, Sealed(e)))
  {
    StartAndBegin(h, w, r, event, lookup);
    TimeAndSeal(h, w, r, w.replicas[r].lastAt, Prepare(event, lookup).value, salt);
    RunAppend(h, w, [Start(r, event, lookup), Begin(r)], [ReadWatermark(r), Seal(r, salt)]);
    assert [Start(r, event, lookup), Begin(r)] + [ReadWatermark(r), Seal(r, salt)]
        == [Start(r, event, lookup), Begin(r), ReadWatermark(r), Seal(r, salt)];
  }

  /** From a row chained onto the end to the row committed there. */
  lemma InsertAndCommit(h: Hasher, w: World, r: nat, e: Event)
    requires GoodTable(h, w.table) && Appendable(h, w.table, e) && !HasID(w.table, e.id)
    requires r in w.replicas && w.replicas[r] == Replica(e.at, Linked(e))
    ensures Run(h, w, [InsertEvent(r), Commit(r)])
         == Some(w.(table := w.table + [e], writer := None, log := w.log + [e], replicas := w.replicas[r := Replica(e.at, Idle)]))
  {
    AppendKeepsGood(h, w.table, e);
    var w2 := Next(h, w, InsertEvent(r)).value;
    var w3 := Next(h, w2, Commit(r)).value;
    assert w3 == w.(table := w.table + [e], writer := None, log := w.log + [e], replicas := w.replicas[r := Replica(e.at, Idle)]);
    RunTwo(h, w, InsertEvent(r), Commit(r), w2, w3);
  }

  lemma LastStages(h: Hasher, w: World, r: nat)
    requires Invariant(h, w) && r in w.replicas && w.replicas[r].phase.Sealed? && !HasID(w.table, w.replicas[r].phase.e.id)
    ensures var e := Chained(h, w.replicas[r].phase.e, LatestHash(w.table));
            Run(h, w, [ReadLatestHash(r), InsertEvent(r), Commit(r)])
            == Some(w.(table := w.table + [e], writer := None, log := w.log + [e], replicas := w.replicas[r := Replica(e.at, Idle)]))
  {
    var e := Chained(h, w.replicas[r].phase.e, LatestHash(w.table));
    ChainedIsAppendable(h, w.table, w.replicas[r].phase.e);
    var w1 := Next(h, w, ReadLatestHash(r)).value;
    InsertAndCommit(h, w1, r, e);
    assert [ReadLatestHash(r), InsertEvent(r), Commit(r)][1..] == [InsertEvent(r), Commit(r)];
    assert w1.replicas[r := Replica(e.at, Idle)] == w.replicas[r := Replica(e.at, Idle)];
  }

  lemma RunTwo(h: Hasher, w: World, s: Step, s': Step, w1: World, w2: World)
    requires Next(h, w, s) == Some(w1) && Next(h, w1, s') == Some(w2)
    ensures Run(h, w, [s, s']) == Some(w2)
  {
    assert [s, s'][1..] == [s'] && [s'][1..] == [];
    assert Run(h, w1, [s']) == Run(h, w2, []);
  }

  lemma {:induction false} RunAppend(h: Hasher, w: World, a: seq<Step>, b: seq<Step>)
    requires Run(h, w, a).Some?
    ensures Run(h, w, a + b) == Run(h, Run(h, w, a).value, b)
    decreases |a|
  {
    if a == [] {
      assert a + b == b;
    } else {
      assert (a + b)[1..] == a[1..] + b;
      RunAppend(h, Next(h, w, a[0]).value, a[1..], b);
    }
  }
}
