/** Two operations the source does not guard against themselves: Unlink counts the
    user's identities and then deletes one (identity/linking.go:153-184), and Refresh
    reads a session and then ends it (identity/core.go:382-455). What interleavings
    of each can do, and exactly when. */
module CheckThenAct {
  import opened Common
  import opened Identity
  import opened IdentityOps
  import Tenant

  // ----- unlinking -----

  /** pending holds, per caller, the identity it was cleared to delete. */
  datatype World = World(store: Store, pending: map<nat, string>)

  datatype Step = Check(q: nat, t: Tenant.ID, userID: string, identityID: string) | Delete(q: nat)

  function Next(w: World, s: Step): Option<World>
  {
    match s
    case Check(q, t, userID, identityID) =>
      if q in w.pending then None
      else if MayUnlink(w.store, t, userID, identityID).Err? then Some(w)
      else Some(w.(pending := w.pending[q := identityID]))
    case Delete(q) =>
      if q !in w.pending then None
      else Some(World(DeleteIdentity(w.store, w.pending[q]), w.pending - {q}))
  }

  function Run(w: World, steps: seq<Step>): Option<World>
    decreases |steps|
  {
    if steps == [] then Some(w)
    else
      match Next(w, steps[0])
      case None => None
      case Some(w') => Run(w', steps[1..])
  }

  /** The user's identities nobody is about to delete: what is left once all callers are through. */
  function Surviving(w: World, userID: string): set<string>
  {
    IdentitiesOf(w.store, userID) - w.pending.Values
  }

  predicate KeepsAMethod(w: World, userID: string)
  {
    userID in w.store.users && (w.store.users[userID].passwordHash != "" || Surviving(w, userID) != {})
  }

  /** A caller is cleared to delete the one identity others leave this user, who has no password. */
  predicate TakesLast(w: World, s: Step, userID: string)
  {
    && s.Check? && s.userID == userID && MayUnlink(w.store, s.t, userID, s.identityID).Ok?
    && userID in w.store.users && w.store.users[userID].passwordHash == "" && Surviving(w, userID) == {s.identityID}
  }

  lemma DeleteSurvives(w: World, q: nat, userID: string)
    requires q in w.pending
    ensures Surviving(Next(w, Delete(q)).value, userID) == Surviving(w, userID)
  {
    var w' := Next(w, Delete(q)).value;
    var id := w.pending[q];
    assert w.pending.Values == w'.pending.Values + {id} by {
      forall x | x in w.pending.Values ensures x in w'.pending.Values + {id} {
        var r :| r in w.pending && w.pending[r] == x;
        assert r != q ==> r in w'.pending && w'.pending[r] == x;
      }
      assert id in w.pending.Values;
    }
  }

  lemma CheckSurvives(w: World, q: nat, t: Tenant.ID, cleared: string, identityID: string, userID: string)
    requires q !in w.pending && MayUnlink(w.store, t, cleared, identityID).Ok?
    ensures Surviving(Next(w, Check(q, t, cleared, identityID)).value, userID) == Surviving(w, userID) - {identityID}
  {
    var w' := Next(w, Check(q, t, cleared, identityID)).value;
    assert w'.pending.Values == w.pending.Values + {identityID} by {
      forall x | x in w.pending.Values ensures x in w'.pending.Values {
        var r :| r in w.pending && w.pending[r] == x;
        assert w'.pending[r] == x;
      }
      assert w'.pending[q] == identityID;
    }
  }

  /** One step decides it. */
  lemma StepKeepsAMethodIff(w: World, s: Step, userID: string)
    requires Next(w, s).Some? && userID in w.store.users
    ensures KeepsAMethod(Next(w, s).value, userID) <==> KeepsAMethod(w, userID) && !TakesLast(w, s, userID)
  {
    match s
    case Delete(q) => DeleteSurvives(w, q, userID);
    case Check(q, t, cleared, identityID) =>
      if MayUnlink(w.store, t, cleared, identityID).Ok? {
        CheckSurvives(w, q, t, cleared, identityID, userID);
        if cleared != userID {
          assert identityID !in IdentitiesOf(w.store, userID);
        }
      }
  }

  /** Some step of the run takes the last one. */
  predicate LastIsTaken(w: World, steps: seq<Step>, userID: string)
    decreases |steps|
  {
    steps != [] &&
    (TakesLast(w, steps[0], userID) || (Next(w, steps[0]).Some? && LastIsTaken(Next(w, steps[0]).value, steps[1..], userID)))
  }

  /** Whatever interleaves: the user keeps a way to sign in exactly when no caller is cleared
      for the one identity that the deletes already under way leave. */
  lemma {:induction false} RunKeepsAMethodIff(w: World, steps: seq<Step>, w': World, userID: string)
    requires Run(w, steps) == Some(w') && userID in w.store.users
    ensures KeepsAMethod(w', userID) <==> KeepsAMethod(w, userID) && !LastIsTaken(w, steps, userID)
    decreases |steps|
  {
    if steps != [] {
      StepKeepsAMethodIff(w, steps[0], userID);
      RunKeepsAMethodIff(Next(w, steps[0]).value, steps[1..], w', userID);
    }
  }

  /** Checked with no delete of another caller under way, nobody's last identity is taken: the guard alone is enough then. */
  lemma AloneTakesNoLast(w: World, s: Step, userID: string)
    requires w.pending == map[]
    ensures !TakesLast(w, s, userID)
  {
    assert w.pending.Values == {} && Surviving(w, userID) == IdentitiesOf(w.store, userID);
    if s.Check? { assert |{s.identityID}| == 1; }
  }

  /** A check and a delete nobody comes between are Unlink. */
  lemma UninterruptedUnlink(s: Store, q: nat, t: Tenant.ID, userID: string, identityID: string)
    ensures var w := Next(World(s, map[]), Check(q, t, userID, identityID)).value;
            Unlink(s, t, userID, identityID).0 == if q in w.pending then Next(w, Delete(q)).value.store else w.store
    ensures Unlink(s, t, userID, identityID).1.Ok? <==> q in Next(World(s, map[]), Check(q, t, userID, identityID)).value.pending
  {
  }

  /** Any user with two identities and no password: cleared one after the other before
      either delete, two callers leave no way to sign in. */
  lemma TwoUnlinksLoseTheLast(s: Store, t: Tenant.ID, userID: string, a: string, b: string)
    requires UserInTenant(s, userID, t).Ok? && s.users[userID].passwordHash == "" && a != b && IdentitiesOf(s, userID) == {a, b}
    ensures var w := Run(World(s, map[]), [Check(1, t, userID, a), Check(2, t, userID, b), Delete(1), Delete(2)]);
            w.Some? && w.value.pending == map[] && IdentitiesOf(w.value.store, userID) == {}
  {
    var w0 := World(s, map[]);
    assert a in IdentitiesOf(s, userID) && b in IdentitiesOf(s, userID) && |{a, b}| == 2;
    var w1 := World(s, map[1 := a]);
    var w2 := World(s, map[1 := a, 2 := b]);
    var w3 := Next(w2, Delete(1)).value;
    var w4 := Next(w3, Delete(2)).value;
    var steps := [Check(1, t, userID, a), Check(2, t, userID, b), Delete(1), Delete(2)];
    assert Next(w0, steps[0]) == Some(w1) && Next(w1, steps[1]) == Some(w2);
    assert steps[1..][1..] == [Delete(1), Delete(2)] && [Delete(1), Delete(2)][1..] == [Delete(2)] && [Delete(2)][1..] == [];
    assert Run(w2, [Delete(1), Delete(2)]) == Run(w3, [Delete(2)]) == Run(w4, []) == Some(w4);
    assert Run(w0, steps) == Run(w1, steps[1..]) == Run(w2, steps[1..][1..]);
    forall id ensures id !in IdentitiesOf(w4.store, userID) {
      assert id in IdentitiesOf(w4.store, userID) ==> id in IdentitiesOf(s, userID);
    }
  }

  // ----- refreshing -----

  /** held is the session each caller read; made lists, per successor, the session it was issued for. */
  datatype Rotations = Rotations(store: Store, held: map<nat, Session>, made: seq<string>, now: Time)

  datatype Move = ReadToken(q: nat, t: Tenant.ID, token: string) | RotateHeld(q: nat, d: Draw) | Tick(later: Time)

  lemma CreateKeepsIndexed(s: Store, x: Session)
    requires Indexed(s)
    ensures Indexed(CreateSession(s, x))
  {
  }

  lemma RevokeKeepsIndexed(s: Store, id: string, now: Time)
    requires Indexed(s)
    ensures Indexed(RevokeSession(s, id, now))
  {
  }

  lemma RotateKeepsIndexed(cfg: Config, s: Store, x: Session, d: Draw, now: Time)
    requires Indexed(s)
    ensures Indexed(Rotate(cfg, s, x, d, now).0)
  {
    RotateLeaves(cfg, s, x, d, now);
    RevokeKeepsIndexed(s, x.id, now);
    if d.token.Some? && cfg.hashToken(d.token.value).Some? {
      CreateKeepsIndexed(RevokeSession(s, x.id, now), NewSession(cfg, x.userID, Tenant.FromStored(x.tenantID), x.authTime, x.acr,
                                                                 d.sessionID, cfg.hashToken(d.token.value).value, now));
    }
  }

  function After(cfg: Config, w: Rotations, m: Move): (r: Option<Rotations>)
    requires Indexed(w.store)
    ensures r.Some? ==> Indexed(r.value.store)
  {
    match m
    case ReadToken(q, t, token) =>
      if q in w.held then None
      else if Presented(cfg, w.store, t, token, w.now).Err? then Some(w)
      else Some(w.(held := w.held[q := Presented(cfg, w.store, t, token, w.now).value]))
    case RotateHeld(q, d) =>
      if q !in w.held || d.sessionID in w.store.sessions then None
      else
        RotateKeepsIndexed(cfg, w.store, w.held[q], d, w.now);
        var (s', r) := Rotate(cfg, w.store, w.held[q], d, w.now);
        Some(Rotations(s', w.held - {q}, if r.Ok? then w.made + [w.held[q].id] else w.made, w.now))
    case Tick(later) => if later < w.now then None else Some(w.(now := later))
  }

  function Play(cfg: Config, w: Rotations, moves: seq<Move>): (r: Option<Rotations>)
    requires Indexed(w.store)
    ensures r.Some? ==> Indexed(r.value.store)
    decreases |moves|
  {
    if moves == [] then Some(w)
    else
      match After(cfg, w, moves[0])
      case None => None
      case Some(w') => Play(cfg, w', moves[1..])
  }

  /** Sessions are stored under their ids, and one that has a successor has ended. */
  predicate RotationsOk(w: Rotations)
  {
    && Indexed(w.store) && w.now > ZERO_TIME
    && (forall id :: id in w.store.sessions ==> w.store.sessions[id].id == id)
    && (forall q :: q in w.held ==> w.held[q].id in w.store.sessions)
    && (forall id :: id in w.made ==> Spent(w.store, id))
  }

  predicate Spent(s: Store, id: string)
  {
    id in s.sessions && s.sessions[id].Revoked()
  }

  /** Whatever it answers, a rotation ends sessions and begins at most one new one. */
  lemma RotateEnds(cfg: Config, s: Store, x: Session, d: Draw, now: Time)
    requires d.sessionID !in s.sessions && x.id in s.sessions && now > ZERO_TIME
    requires forall id :: id in s.sessions ==> s.sessions[id].id == id
    ensures var (s', r) := Rotate(cfg, s, x, d, now);
            && (r.Ok? ==> Spent(s', x.id))
            && (forall id :: id in s'.sessions ==> s'.sessions[id].id == id)
            && (forall id :: id in s.sessions ==> id in s'.sessions && (Spent(s, id) ==> Spent(s', id)))
  {
    RotateLeaves(cfg, s, x, d, now);
  }

  lemma MoveKeepsOk(cfg: Config, w: Rotations, m: Move)
    requires RotationsOk(w) && After(cfg, w, m).Some?
    ensures RotationsOk(After(cfg, w, m).value)
  {
    if m.RotateHeld? {
      RotateEnds(cfg, w.store, w.held[m.q], m.d, w.now);
    }
  }

  /** Caller r rotates session id, with success. */
  predicate Rotates(cfg: Config, w: Rotations, m: Move, id: string)
  {
    m.RotateHeld? && m.q in w.held && w.held[m.q].id == id && Rotate(cfg, w.store, w.held[m.q], m.d, w.now).1.Ok?
  }

  predicate RotatedDuring(cfg: Config, w: Rotations, moves: seq<Move>, id: string)
    requires Indexed(w.store)
    decreases |moves|
  {
    moves != [] &&
    (Rotates(cfg, w, moves[0], id) || (After(cfg, w, moves[0]).Some? && RotatedDuring(cfg, After(cfg, w, moves[0]).value, moves[1..], id)))
  }

  lemma {:induction false} MadeDuring(cfg: Config, w: Rotations, moves: seq<Move>, w': Rotations, id: string)
    requires RotationsOk(w) && Play(cfg, w, moves) == Some(w')
    ensures RotationsOk(w') && (id in w'.made <==> id in w.made || RotatedDuring(cfg, w, moves, id))
    decreases |moves|
  {
    if moves != [] {
      MoveKeepsOk(cfg, w, moves[0]);
      MadeDuring(cfg, After(cfg, w, moves[0]).value, moves[1..], w', id);
    }
  }

  /** A session gets a second successor exactly when another caller rotates it between this
      caller's read and this caller's write: by itself, no refresh forks a chain. */
  lemma ForksIffRotatedBetween(cfg: Config, w: Rotations, q: nat, t: Tenant.ID, token: string, x: Session, between: seq<Move>, w': Rotations, d: Draw)
    requires RotationsOk(w) && q !in w.held && Presented(cfg, w.store, t, token, w.now) == Ok(x)
    requires Play(cfg, w.(held := w.held[q := x]), between) == Some(w')
    requires Rotates(cfg, w', RotateHeld(q, d), x.id) && d.sessionID !in w'.store.sessions
    ensures var made := After(cfg, w', RotateHeld(q, d)).value.made;
            && made == w'.made + [x.id]
            && (x.id in w'.made <==> RotatedDuring(cfg, w.(held := w.held[q := x]), between, x.id))
  {
    assert x.id !in w.made;
    MadeDuring(cfg, w.(held := w.held[q := x]), between, w', x.id);
  }

  /** Any refresh that succeeds can be made to fork: with a second caller reading before it
      writes, both get a successor, and both successors are live. */
  lemma TwoRefreshesFork(cfg: Config, s: Store, t: Tenant.ID, token: string, a: Draw, b: Draw, now: Time)
    requires Indexed(s) && now > ZERO_TIME && forall id :: id in s.sessions ==> s.sessions[id].id == id
    requires Refresh(cfg, s, t, token, a, now).1.Ok? && a.sessionID !in s.sessions
    requires b.token.Some? && cfg.hashToken(b.token.value).Some? && b.sessionID !in s.sessions && b.sessionID != a.sessionID
    ensures var w := Play(cfg, Rotations(s, map[], [], now), [ReadToken(1, t, token), ReadToken(2, t, token), RotateHeld(1, a), RotateHeld(2, b)]);
            var x := Presented(cfg, s, t, token, now).value;
            && w.Some? && w.value.made == [x.id, x.id]
            && a.sessionID in w.value.store.sessions && !w.value.store.sessions[a.sessionID].Revoked()
            && b.sessionID in w.value.store.sessions && !w.value.store.sessions[b.sessionID].Revoked()
  {
    var x := Presented(cfg, s, t, token, now).value;
    var w0 := Rotations(s, map[], [], now);
    var w1 := w0.(held := map[1 := x]);
    var w2 := w0.(held := map[1 := x, 2 := x]);
    ReadOnce(cfg, w0, 1, t, token);
    ReadOnce(cfg, w1, 2, t, token);
    assert w1.held[2 := x] == w2.held;
    var s3, g3, s4, g4 := RotatesAgain(cfg, s, x, a, b, now);
    var w3 := RotatedOnce(cfg, w2, 1, a, s3, g3);
    assert w3.held == map[2 := x];
    var w4 := RotatedOnce(cfg, w3, 2, b, s4, g4);
    FourMoves(cfg, w0, [ReadToken(1, t, token), ReadToken(2, t, token), RotateHeld(1, a), RotateHeld(2, b)], w1, w2, w3, w4);
  }

  lemma ReadOnce(cfg: Config, w: Rotations, q: nat, t: Tenant.ID, token: string)
    requires Indexed(w.store) && q !in w.held && Presented(cfg, w.store, t, token, w.now).Ok?
    ensures After(cfg, w, ReadToken(q, t, token)) == Some(w.(held := w.held[q := Presented(cfg, w.store, t, token, w.now).value]))
  {
  }

  lemma RotatedOnce(cfg: Config, w: Rotations, q: nat, d: Draw, s': Store, g: LoggedIn) returns (w': Rotations)
    requires Indexed(w.store) && q in w.held && d.sessionID !in w.store.sessions && Rotate(cfg, w.store, w.held[q], d, w.now) == (s', Ok(g))
    ensures After(cfg, w, RotateHeld(q, d)) == Some(w') && w' == Rotations(s', w.held - {q}, w.made + [w.held[q].id], w.now) && Indexed(s')
  {
    w' := After(cfg, w, RotateHeld(q, d)).value;
  }

  lemma RotatesAgain(cfg: Config, s: Store, x: Session, a: Draw, b: Draw, now: Time)
    returns (s1: Store, g1: LoggedIn, s2: Store, g2: LoggedIn)
    requires cfg.refreshTTL > 0 && x.id in s.sessions && Rotate(cfg, s, x, a, now).1.Ok? && a.sessionID !in s.sessions
    requires b.token.Some? && cfg.hashToken(b.token.value).Some? && b.sessionID !in s.sessions && b.sessionID != a.sessionID
    ensures Rotate(cfg, s, x, a, now) == (s1, Ok(g1)) && Rotate(cfg, s1, x, b, now) == (s2, Ok(g2))
    ensures b.sessionID !in s1.sessions
    ensures a.sessionID in s2.sessions && !s2.sessions[a.sessionID].Revoked()
    ensures b.sessionID in s2.sessions && !s2.sessions[b.sessionID].Revoked()
  {
    s1, g1 := Rotate(cfg, s, x, a, now).0, Rotate(cfg, s, x, a, now).1.value;
    s2, g2 := Rotate(cfg, s1, x, b, now).0, Rotate(cfg, s1, x, b, now).1.value;
  }

  lemma FourMoves(cfg: Config, w0: Rotations, moves: seq<Move>, w1: Rotations, w2: Rotations, w3: Rotations, w4: Rotations)
    requires |moves| == 4 && Indexed(w0.store) && Indexed(w1.store) && Indexed(w2.store) && Indexed(w3.store)
    requires After(cfg, w0, moves[0]) == Some(w1) && After(cfg, w1, moves[1]) == Some(w2)
    requires After(cfg, w2, moves[2]) == Some(w3) && After(cfg, w3, moves[3]) == Some(w4)
    ensures Play(cfg, w0, moves) == Some(w4)
  {
    var rest := moves[1..];
    assert rest[1..] == [moves[2], moves[3]] && [moves[2], moves[3]][1..] == [moves[3]] && [moves[3]][1..] == [];
    assert Play(cfg, w3, [moves[3]]) == Play(cfg, w4, []) == Some(w4);
    assert Play(cfg, w2, [moves[2], moves[3]]) == Some(w4);
    assert Play(cfg, w1, rest) == Some(w4);
  }
}
