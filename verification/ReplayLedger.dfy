/** saml/memstore.go:106-160: the single-use ledger for SAML assertions, swept as
    it is used, against a ledger that never forgets. */
module ReplayLedger {
  import opened Common

  type Seen = map<string, Time>

  predicate Live(seen: Seen, key: string, now: Time)
  {
    key in seen && seen[key] > now
  }

  function Swept(seen: Seen, now: Time): Seen
  {
    map k | k in seen && seen[k] > now :: seen[k]
  }

  class MemAssertionReplayStore {
    var seen: Seen

    constructor ()
      ensures seen == map[]
    {
      seen := map[];
    }

    /** One critical section: sweep in whatever order the map gives its keys, then test and set. */
    method ConsumeAssertion(key: string, expiresAt: Time, now: Time) returns (accepted: bool)
      modifies this
      ensures accepted == !Live(old(seen), key, now)
      ensures seen == if accepted then Swept(old(seen), now)[key := expiresAt] else Swept(old(seen), now)
    {
      var left := seen.Keys;
      while left != {}
        invariant left <= old(seen).Keys
        invariant seen == map k | k in old(seen) && (k in left || old(seen)[k] > now) :: old(seen)[k]
        decreases |left|
      {
        var k :| k in left;
        left := left - {k};
        if seen[k] <= now {
          seen := seen - {k};
        }
      }
      assert seen == Swept(old(seen), now);
      if key in seen && seen[key] > now {
        return false;
      }
      seen := seen[key := expiresAt];
      accepted := true;
    }
  }

  // ----- against a full history -----

  datatype Call = Call(key: string, expiresAt: Time, now: Time)

  predicate Monotone(calls: seq<Call>)
  {
    forall i, j :: 0 <= i < j < |calls| ==> calls[i].now <= calls[j].now
  }

  /** The map after these calls. */
  function State(calls: seq<Call>): Seen
  {
    if calls == [] then map[]
    else
      var before, c := State(calls[..|calls| - 1]), calls[|calls| - 1];
      if Live(before, c.key, c.now) then Swept(before, c.now) else Swept(before, c.now)[c.key := c.expiresAt]
  }

  /** An accepted assertion for this key has not expired yet. */
  predicate Used(accepted: seq<Call>, key: string, now: Time)
  {
    exists i :: 0 <= i < |accepted| && accepted[i].key == key && accepted[i].expiresAt > now
  }

  /** Every acceptance there ever was, by the rule the documentation gives. */
  function History(calls: seq<Call>): seq<Call>
  {
    if calls == [] then []
    else
      var before, c := History(calls[..|calls| - 1]), calls[|calls| - 1];
      if Used(before, c.key, c.now) then before else before + [c]
  }

  /** What is unexpired now was unexpired before. */
  lemma UsedEarlier(accepted: seq<Call>, key: string, earlier: Time, now: Time)
    requires earlier <= now
    ensures Used(accepted, key, now) ==> Used(accepted, key, earlier)
  {
  }

  /** From the last call on, what the map still knows is all that could matter. */
  lemma {:induction false} SweepForgetsNothingLive(calls: seq<Call>, key: string, now: Time)
    requires Monotone(calls) && (calls != [] ==> calls[|calls| - 1].now <= now)
    ensures Live(State(calls), key, now) <==> Used(History(calls), key, now)
  {
    if calls != [] {
      var front, c := calls[..|calls| - 1], calls[|calls| - 1];
      SweepForgetsNothingLive(front, key, now);
      SweepForgetsNothingLive(front, c.key, c.now);
      var before := History(front);
      if !Used(before, c.key, c.now) {
        var h := before + [c];
        assert Used(h, key, now) <==> Used(before, key, now) || (c.key == key && c.expiresAt > now) by {
          if Used(before, key, now) {
            var i :| 0 <= i < |before| && before[i].key == key && before[i].expiresAt > now;
            assert h[i] == before[i];
          }
          assert h[|before|] == c;
        }
        UsedEarlier(before, key, c.now, now);
      }
    }
  }

  /** The calls the swept ledger accepts. */
  function Accepted(calls: seq<Call>): seq<Call>
  {
    if calls == [] then []
    else
      var before, c := Accepted(calls[..|calls| - 1]), calls[|calls| - 1];
      if Live(State(calls[..|calls| - 1]), c.key, c.now) then before else before + [c]
  }

  /** On a clock that does not run backwards the swept ledger accepts exactly
      what a ledger that forgets nothing accepts. */
  lemma {:induction false} SweptAcceptsLikeHistory(calls: seq<Call>)
    requires Monotone(calls)
    ensures Accepted(calls) == History(calls)
  {
    if calls != [] {
      var front, c := calls[..|calls| - 1], calls[|calls| - 1];
      SweptAcceptsLikeHistory(front);
      SweepForgetsNothingLive(front, c.key, c.now);
    }
  }

  /** Single use: the ledger accepts a key again only once the acceptance before has expired. */
  lemma AcceptedOncePerWindow(calls: seq<Call>, i: nat, j: nat)
    requires Monotone(calls)
    requires i < j < |Accepted(calls)| && Accepted(calls)[i].key == Accepted(calls)[j].key
    ensures Accepted(calls)[i].expiresAt <= Accepted(calls)[j].now
  {
    SweptAcceptsLikeHistory(calls);
    HistoryKeepsWindowsApart(calls, i, j);
  }

  lemma {:induction false} HistoryKeepsWindowsApart(calls: seq<Call>, i: nat, j: nat)
    requires i < j < |History(calls)| && History(calls)[i].key == History(calls)[j].key
    ensures History(calls)[i].expiresAt <= History(calls)[j].now
  {
    var front, c := calls[..|calls| - 1], calls[|calls| - 1];
    var before := History(front);
    if j < |before| {
      HistoryKeepsWindowsApart(front, i, j);
    } else {
      assert !Used(before, c.key, c.now);
    }
  }

  /** The clock matters: stepping back past a sweep lets a live assertion in again. */
  lemma SteppingBackReplays()
    ensures var calls := [Call("a", 10, 5), Call("b", 100, 20)];
            !Live(State(calls), "a", 7) && Used(History(calls), "a", 7)
  {
    var c1, c2 := Call("a", 10, 5), Call("b", 100, 20);
    var calls := [c1, c2];
    assert calls[..1] == [c1] && [c1][..0] == [];
    assert State([]) == map[] && State([c1]) == map["a" := 10];
    assert History([]) == [] && History([c1]) == [c1];
    assert !Used([c1], "b", 20);
    assert State(calls) == map["b" := 100];
    assert History(calls) == [c1, c2];
    assert [c1, c2][0].key == "a";
  }

  // ----- any clock -----

  /** The swept ledger accepts call i. */
  predicate Took(calls: seq<Call>, i: nat)
    requires i < |calls|
  {
    !Live(State(calls[..i]), calls[i].key, calls[i].now)
  }

  /** So does the one that never forgets. */
  predicate HistoryTakes(calls: seq<Call>, i: nat)
    requires i < |calls|
  {
    !Used(History(calls[..i]), calls[i].key, calls[i].now)
  }

  /** Call j took the key, and its window is open at this time. */
  predicate OpenAt(calls: seq<Call>, j: nat, key: string, now: Time)
    requires j < |calls|
  {
    Took(calls, j) && calls[j].key == key && now < calls[j].expiresAt
  }

  /** A call between j and i was made when j's window had closed, and swept j out. */
  predicate SweptBetween(calls: seq<Call>, j: nat, i: nat)
    requires j < i <= |calls|
  {
    exists k :: j < k < i && calls[j].expiresAt <= calls[k].now
  }

  /** Call i is made at a time for which its key was taken, but every call that took it has been swept out. */
  predicate LooksBack(calls: seq<Call>, i: nat)
    requires i < |calls|
  {
    && (exists j :: 0 <= j < i && OpenAt(calls, j, calls[i].key, calls[i].now))
    && (forall j :: 0 <= j < i && OpenAt(calls, j, calls[i].key, calls[i].now) ==> SweptBetween(calls, j, i))
  }

  /** Call j took its key, and no call after it swept it out. */
  predicate Remembered(calls: seq<Call>, j: nat)
    requires j < |calls|
  {
    Took(calls, j) && !SweptBetween(calls, j, |calls|)
  }

  lemma SamePrefix(calls: seq<Call>, i: nat, j: nat)
    requires j < i <= |calls|
    ensures Took(calls[..i], j) == Took(calls, j) && SweptBetween(calls[..i], j, i) == SweptBetween(calls, j, i)
  {
    assert calls[..i][..j] == calls[..j];
    if SweptBetween(calls, j, i) {
      var k :| j < k < i && calls[j].expiresAt <= calls[k].now;
      assert calls[..i][j].expiresAt <= calls[..i][k].now;
    }
  }

  lemma RememberedOneMore(calls: seq<Call>, j: nat)
    requires j < |calls| - 1
    ensures var n := |calls| - 1; Remembered(calls, j) <==> Remembered(calls[..n], j) && calls[n].now < calls[j].expiresAt
  {
    var n := |calls| - 1;
    SamePrefix(calls, n, j);
    assert SweptBetween(calls, j, n + 1) <==> SweptBetween(calls, j, n) || calls[j].expiresAt <= calls[n].now;
  }

  /** For any clock, the map holds the windows of the remembered calls ... */
  lemma {:induction false} RememberedIsHeld(calls: seq<Call>, j: nat)
    requires j < |calls| && Remembered(calls, j)
    ensures calls[j].key in State(calls) && State(calls)[calls[j].key] == calls[j].expiresAt
  {
    var n := |calls| - 1;
    if j < n {
      RememberedOneMore(calls, j);
      RememberedIsHeld(calls[..n], j);
    }
  }

  /** ... and nothing else. */
  lemma {:induction false} HeldIsRemembered(calls: seq<Call>, key: string) returns (j: nat)
    requires key in State(calls)
    ensures j < |calls| && Remembered(calls, j) && calls[j].key == key
  {
    var n := |calls| - 1;
    if key == calls[n].key && Took(calls, n) {
      j := n;
    } else {
      j := HeldIsRemembered(calls[..n], key);
      RememberedIsHeld(calls[..n], j);
      RememberedOneMore(calls, j);
    }
  }

  lemma {:induction false} TookIsHistory(calls: seq<Call>, i: nat, key: string, now: Time)
    requires i <= |calls| && forall m :: 0 <= m < i ==> (Took(calls, m) <==> HistoryTakes(calls, m))
    ensures Used(History(calls[..i]), key, now) <==> exists j :: 0 <= j < i && OpenAt(calls, j, key, now)
  {
    if i > 0 {
      TookIsHistory(calls, i - 1, key, now);
      var c, before := calls[i - 1], History(calls[..i - 1]);
      assert calls[..i][..i - 1] == calls[..i - 1] && calls[..i][i - 1] == c;
      assert Took(calls, i - 1) <==> HistoryTakes(calls, i - 1);
      UsedAppend(before, c, key, now);
      assert History(calls[..i]) == if HistoryTakes(calls, i - 1) then before + [c] else before;
      if OpenAt(calls, i - 1, key, now) { assert Used(before + [c], key, now); }
    }
  }

  lemma UsedAppend(accepted: seq<Call>, c: Call, key: string, now: Time)
    ensures Used(accepted + [c], key, now) <==> Used(accepted, key, now) || (c.key == key && c.expiresAt > now)
  {
    var more := accepted + [c];
    if Used(accepted, key, now) {
      var i :| 0 <= i < |accepted| && accepted[i].key == key && accepted[i].expiresAt > now;
      assert more[i] == accepted[i];
    }
    assert more[|accepted|] == c;
  }

  /** Live in the map, for any clock: taken, with its window open, and not swept out. */
  lemma LiveIff(calls: seq<Call>, i: nat, key: string, now: Time)
    requires i <= |calls|
    ensures Live(State(calls[..i]), key, now) <==> exists j :: 0 <= j < i && OpenAt(calls, j, key, now) && !SweptBetween(calls, j, i)
  {
    var before := calls[..i];
    if Live(State(before), key, now) {
      var j := HeldIsRemembered(before, key);
      RememberedIsHeld(before, j);
      SamePrefix(calls, i, j);
      assert OpenAt(calls, j, key, now) && !SweptBetween(calls, j, i);
    }
    forall j | 0 <= j < i && OpenAt(calls, j, key, now) && !SweptBetween(calls, j, i) ensures Live(State(before), key, now) {
      SamePrefix(calls, i, j);
      RememberedIsHeld(before, j);
    }
  }

  /** The first call on which the two ledgers can differ is one that looks back. */
  lemma AgreeUnlessLookingBack(calls: seq<Call>, i: nat)
    requires i < |calls| && forall m :: 0 <= m < i ==> (Took(calls, m) <==> HistoryTakes(calls, m))
    ensures (Took(calls, i) <==> HistoryTakes(calls, i)) <==> !LooksBack(calls, i)
  {
    TookIsHistory(calls, i, calls[i].key, calls[i].now);
    LiveIff(calls, i, calls[i].key, calls[i].now);
  }

  /** The sweep costs nothing exactly when no call looks back past it, whatever the clock does. */
  lemma {:induction false} SweptIsExact(calls: seq<Call>)
    ensures (forall i :: 0 <= i < |calls| ==> (Took(calls, i) <==> HistoryTakes(calls, i)))
       <==> (forall i :: 0 <= i < |calls| ==> !LooksBack(calls, i))
  {
    if forall i :: 0 <= i < |calls| ==> !LooksBack(calls, i) {
      for i := 0 to |calls|
        invariant forall m :: 0 <= m < i ==> (Took(calls, m) <==> HistoryTakes(calls, m))
      {
        AgreeUnlessLookingBack(calls, i);
      }
    }
    if forall i :: 0 <= i < |calls| ==> (Took(calls, i) <==> HistoryTakes(calls, i)) {
      forall i | 0 <= i < |calls| ensures !LooksBack(calls, i) { AgreeUnlessLookingBack(calls, i); }
    }
  }
}
