/** crypto/throttle.go: the in-process rate limiter. Token counts are real
    numbers here, so a statement about them has no rounding in it. */
module TokenBucket {
  import opened Common
  import opened Eviction

  datatype Bucket = Bucket(tokens: real, lastSeen: Time)

  /** refill is tokens gained per nanosecond. */
  datatype Limit = Limit(refill: real, burst: real) {
    predicate Limits()
    {
      refill > 0.0 && burst > 0.0
    }
  }

  const MAX_THROTTLE_KEYS := 65536

  function NewLimit(rate: int, per: int, burst: int): Limit
  {
    Limit(if rate > 0 && per > 0 then rate as real / per as real else 0.0, burst as real)
  }

  /** A limiter with no rate, no period or no capacity limits nothing; any other refills at its rate. */
  lemma LimitsIff(rate: int, per: int, burst: int)
    ensures NewLimit(rate, per, burst).Limits() <==> rate > 0 && per > 0 && burst > 0
    ensures rate > 0 && per > 0 ==> NewLimit(rate, per, burst).refill * per as real == rate as real
    ensures NewLimit(rate, per, burst).burst == burst as real
  {
    if rate > 0 && per > 0 {
      var refill := rate as real / per as real;
      assert refill * per as real == rate as real;
      Waited(0.0, rate as real, per as real);
    }
  }

  function Min(a: real, b: real): real
  {
    if a < b then a else b
  }

  /** Tokens in the bucket at `now`; a key without a bucket starts full, and a
      clock that stepped back adds nothing. */
  function Available(l: Limit, b: Option<Bucket>, now: Time): real
  {
    match b
    case None => l.burst
    case Some(b) =>
      if now > b.lastSeen then Min(l.burst, b.tokens + Gained(l, b.lastSeen, now)) else b.tokens
  }

  /** Tokens that time alone brings. */
  function Gained(l: Limit, start: Time, end: Time): real
  {
    (end - start) as real * l.refill
  }

  lemma GainedAdds(l: Limit, a: Time, b: Time, c: Time)
    ensures Gained(l, a, c) == Gained(l, a, b) + Gained(l, b, c)
  {
  }

  lemma GainedGrows(l: Limit, start: Time, a: Time, b: Time)
    requires l.Limits() && a <= b
    ensures Gained(l, start, a) <= Gained(l, start, b)
    ensures start <= a ==> Gained(l, start, a) >= 0.0
  {
  }

  predicate Allowed(l: Limit, b: Option<Bucket>, now: Time)
  {
    Available(l, b, now) >= 1.0
  }

  function After(l: Limit, b: Option<Bucket>, now: Time): Bucket
  {
    Bucket(if Allowed(l, b, now) then Available(l, b, now) - 1.0 else Available(l, b, now), now)
  }

  /** The announced wait, in whole nanoseconds. */
  function RetryAfter(l: Limit, b: Option<Bucket>, now: Time): int
    requires l.Limits()
  {
    if Allowed(l, b, now) then 0 else ((1.0 - Available(l, b, now)) / l.refill).Floor
  }

  type Buckets = map<string, Bucket>

  function Lookup(s: Buckets, key: string): Option<Bucket>
  {
    if key in s then Some(s[key]) else None
  }

  predicate InRange(l: Limit, s: Buckets)
  {
    forall k :: k in s ==> 0.0 <= s[k].tokens <= l.burst
  }

  function LastSeen(b: Bucket): Time
  {
    b.lastSeen
  }

  /** What one poll does to the map: it touches its own key; one other may be dropped, to make room. */
  ghost predicate Poll(l: Limit, s: Buckets, s': Buckets, key: string, now: Time, ok: bool)
  {
    && ok == Allowed(l, Lookup(s, key), now)
    && Inserted(s, s', LastSeen, MAX_THROTTLE_KEYS, key, After(l, Lookup(s, key), now))
  }

  class Throttle {
    const limit: Limit
    var buckets: Buckets

    ghost predicate Valid()
      reads this
    {
      && |buckets| <= MAX_THROTTLE_KEYS
      && (limit.Limits() ==> limit.burst >= 1.0 && InRange(limit, buckets))
    }

    constructor (rate: int, per: int, burst: int)
      ensures Valid() && limit == NewLimit(rate, per, burst) && buckets == map[]
    {
      limit := NewLimit(rate, per, burst);
      buckets := map[];
    }

    /** evictIfFullLocked */
    method EvictIfFull(ghost key: string) returns (ghost victim: Option<string>)
      requires key !in buckets
      modifies this
      ensures MakesRoom(old(buckets), LastSeen, MAX_THROTTLE_KEYS, key, victim) && buckets == Without(old(buckets), victim)
    {
      victim := None;
      if |buckets| < MAX_THROTTLE_KEYS {
        return;
      }
      assert |buckets.Keys| == |buckets|;
      var oldestKey := FindOldest(buckets, LastSeen);
      victim := Some(oldestKey);
      buckets := buckets - {oldestKey};
    }

    method Allow(key: string, now: Time) returns (ok: bool, retryAfter: int)
      requires Valid()
      modifies this
      ensures Valid() && |buckets| <= 65536
      ensures !limit.Limits() ==> ok && retryAfter == 0 && buckets == old(buckets)
      ensures limit.Limits() ==> Poll(limit, old(buckets), buckets, key, now, ok)
      ensures limit.Limits() ==> retryAfter == RetryAfter(limit, Lookup(old(buckets), key), now)
    {
      if limit.refill <= 0.0 || limit.burst <= 0.0 {
        return true, 0;
      }
      ghost var victim := None;
      var found := Lookup(buckets, key);
      if found.None? {
        victim := EvictIfFull(key);
      }
      var b;
      ok, retryAfter, b := Take(limit, found, now);
      buckets := buckets[key := b];
      assert MakesRoom(old(buckets), LastSeen, MAX_THROTTLE_KEYS, key, victim) && buckets == Without(old(buckets), victim)[key := b];
      InsertedEffect(old(buckets), buckets, LastSeen, MAX_THROTTLE_KEYS, key, b);
      AfterInRange(limit, found, now);
    }
  }

  /** Refills a key's bucket, or starts a full one, and takes a token if a whole one is there. */
  method Take(l: Limit, found: Option<Bucket>, now: Time) returns (ok: bool, retryAfter: int, b: Bucket)
    requires l.Limits()
    ensures ok == Allowed(l, found, now) && b == After(l, found, now) && retryAfter == RetryAfter(l, found, now)
  {
    if found.None? {
      b := Bucket(l.burst, now);
    } else {
      b := found.value;
      if now > b.lastSeen {
        b := b.(tokens := Min(l.burst, b.tokens + (now - b.lastSeen) as real * l.refill));
      }
    }
    b := b.(lastSeen := now);
    if b.tokens >= 1.0 {
      return true, 0, b.(tokens := b.tokens - 1.0);
    }
    var need := 1.0 - b.tokens;
    ok, retryAfter := false, (need / l.refill).Floor;
  }

  // ----- one key over time -----

  /** A refused poll is invisible: at any later time the bucket is what it would
      have been had the poll not been made, so polling never postpones an allow. */
  lemma RefusedPollIsInvisible(l: Limit, b: Bucket, t: Time, later: Time)
    requires l.Limits() && 0.0 <= b.tokens <= l.burst && b.lastSeen <= t <= later
    requires !Allowed(l, Some(b), t)
    ensures Available(l, Some(After(l, Some(b), t)), later) == Available(l, Some(b), later)
    ensures Allowed(l, Some(After(l, Some(b), t)), later) == Allowed(l, Some(b), later)
    ensures After(l, Some(After(l, Some(b), t)), later) == After(l, Some(b), later)
  {
  }

  lemma Waited(d: real, need: real, rate: real)
    requires rate > 0.0
    ensures d >= need / rate <==> d * rate >= need
  {
    var wait := need / rate;
    assert wait * rate == need;
    if d >= wait { assert (d - wait) * rate >= 0.0; } else { assert (wait - d) * rate > 0.0; }
  }

  /** A key's bucket after n polls at one moment, from nothing. */
  function PolledAtOnce(l: Limit, now: Time, n: nat): Option<Bucket>
  {
    if n == 0 then None else Some(After(l, PolledAtOnce(l, now, n - 1), now))
  }

  lemma {:induction false} LeftAtOnce(l: Limit, now: Time, n: nat)
    requires l.Limits()
    ensures Available(l, PolledAtOnce(l, now, n), now) == if n as real <= l.burst then l.burst - n as real else l.burst - l.burst.Floor as real
  {
    if n > 0 {
      LeftAtOnce(l, now, n - 1);
      if n as real > l.burst && (n - 1) as real <= l.burst {
        assert l.burst.Floor == n - 1;
      }
    }
  }

  /** A new key starts full: of any number of polls at its first moment exactly the first
      `burst` are let through. */
  lemma FreshBurst(l: Limit, now: Time, n: nat)
    requires l.Limits()
    ensures Allowed(l, PolledAtOnce(l, now, n), now) <==> (n + 1) as real <= l.burst
  {
    LeftAtOnce(l, now, n);
    if n as real <= l.burst && (n + 1) as real > l.burst {
      assert l.burst.Floor == n;
    }
  }

  /** And a key left alone for as long as the missing tokens take is full again. */
  lemma IdleRefills(l: Limit, b: Bucket, now: Time)
    requires l.Limits() && b.tokens <= l.burst && b.lastSeen <= now
    ensures Available(l, Some(b), now) == l.burst <==> (now - b.lastSeen) as real >= (l.burst - b.tokens) / l.refill
  {
    Waited((now - b.lastSeen) as real, l.burst - b.tokens, l.refill);
  }

  /** When a refused key is allowed again, exactly: once the missing part of a token has been refilled. */
  lemma AllowedAgain(l: Limit, b: Option<Bucket>, now: Time, later: Time)
    requires l.Limits() && l.burst >= 1.0 && !Allowed(l, b, now) && now <= later
    ensures Allowed(l, Some(After(l, b, now)), later)
       <==> (later - now) as real >= (1.0 - Available(l, b, now)) / l.refill
  {
    Waited((later - now) as real, 1.0 - Available(l, b, now), l.refill);
  }

  /** One nanosecond beyond the announced wait is enough and less than the
      announced wait is not. The announced wait itself is enough exactly when
      rounding down to a whole nanosecond lost nothing. */
  lemma WaitingSuffices(l: Limit, b: Option<Bucket>, now: Time, later: Time)
    requires l.Limits() && l.burst >= 1.0 && !Allowed(l, b, now) && now <= later
    ensures later > now + RetryAfter(l, b, now) ==> Allowed(l, Some(After(l, b, now)), later)
    ensures later < now + RetryAfter(l, b, now) ==> !Allowed(l, Some(After(l, b, now)), later)
    ensures later == now + RetryAfter(l, b, now) ==>
      (Allowed(l, Some(After(l, b, now)), later) <==> RetryAfter(l, b, now) as real == (1.0 - Available(l, b, now)) / l.refill)
  {
    AllowedAgain(l, b, now, later);
    var wait := (1.0 - Available(l, b, now)) / l.refill;
    assert wait.Floor as real <= wait < (wait.Floor + 1) as real;
  }

  /** Two tokens every three nanoseconds: an emptied bucket announces one
      nanosecond, and one nanosecond later the key is refused again. */
  lemma AnnouncedWaitTooShort()
    ensures var l := NewLimit(2, 3, 1);
            var b := Some(Bucket(0.0, 100));
            !Allowed(l, b, 100) && RetryAfter(l, b, 100) == 1 && !Allowed(l, Some(After(l, b, 100)), 101)
  {
  }

  // ----- whole runs -----

  datatype Call = Call(key: string, now: Time, ok: bool)

  /** states[m] is the map before call m. The clock does not run backwards. */
  ghost predicate IsRun(l: Limit, states: seq<Buckets>, calls: seq<Call>)
  {
    && |states| == |calls| + 1
    && states[0] == map[]
    && (forall m :: 0 <= m < |calls| ==> PollAt(l, states, calls, m))
    && (forall m, n :: 0 <= m < n < |calls| ==> calls[m].now <= calls[n].now)
  }

  ghost predicate PollAt(l: Limit, states: seq<Buckets>, calls: seq<Call>, m: nat)
    requires |states| == |calls| + 1 && m < |calls|
  {
    Poll(l, states[m], states[m + 1], calls[m].key, calls[m].now, calls[m].ok)
  }

  /** How many of the first n calls were for this key and allowed. */
  function Count(calls: seq<Call>, key: string): nat
  {
    if calls == [] then 0
    else Count(calls[..|calls| - 1], key) + (if calls[|calls| - 1].key == key && calls[|calls| - 1].ok then 1 else 0)
  }

  /** The map as the run goes along: contents in range, nothing touched in the future, never above its bound. */
  lemma {:induction false} RunStaysInRange(l: Limit, states: seq<Buckets>, calls: seq<Call>, m: nat)
    requires IsRun(l, states, calls) && m <= |calls| && l.Limits() && l.burst >= 1.0
    ensures InRange(l, states[m]) && |states[m]| <= MAX_THROTTLE_KEYS
    ensures forall k :: k in states[m] ==> m > 0 && states[m][k].lastSeen <= calls[m - 1].now
  {
    if m > 0 {
      var before, c := states[m - 1], calls[m - 1];
      RunStaysInRange(l, states, calls, m - 1);
      assert PollAt(l, states, calls, m - 1);
      InsertedEffect(before, states[m], LastSeen, MAX_THROTTLE_KEYS, c.key, After(l, Lookup(before, c.key), c.now));
      AfterInRange(l, Lookup(before, c.key), c.now);
      assert m > 1 ==> calls[m - 2].now <= c.now;
    }
  }

  lemma AfterInRange(l: Limit, b: Option<Bucket>, now: Time)
    requires l.Limits() && l.burst >= 1.0 && (b.Some? ==> 0.0 <= b.value.tokens <= l.burst)
    ensures 0.0 <= After(l, b, now).tokens <= l.burst
  {
  }

  /** The key keeps its bucket from call i to call j, once it has one. */
  ghost predicate Unevicted(states: seq<Buckets>, key: string, i: nat, j: nat)
    requires i <= j < |states|
  {
    forall m :: i <= m < j && key in states[m] ==> key in states[m + 1]
  }

  /** What has been allowed since `start` is paid for by what the bucket could hold and what time refilled. */
  ghost predicate PaidFor(l: Limit, s: Buckets, key: string, start: Time, count: nat)
  {
    count > 0 ==>
      key in s && start <= s[key].lastSeen && count as real + s[key].tokens <= l.burst + Gained(l, start, s[key].lastSeen)
  }

  lemma PollIsPaidFor(l: Limit, s: Buckets, s': Buckets, key: string, start: Time, now: Time, ok: bool, count: nat)
    requires l.Limits() && l.burst >= 1.0 && InRange(l, s) && start <= now
    requires ok == Allowed(l, Lookup(s, key), now) && key in s' && s'[key] == After(l, Lookup(s, key), now)
    requires PaidFor(l, s, key, start, count)
    requires key in s ==> s[key].lastSeen <= now
    ensures PaidFor(l, s', key, start, count + if ok then 1 else 0)
  {
    if count == 0 {
      GainedGrows(l, start, now, now);
    } else {
      GainedAdds(l, start, s[key].lastSeen, now);
      GainedGrows(l, s[key].lastSeen, now, now);
    }
  }

  lemma {:induction false} AllowedIsPaidFor(l: Limit, states: seq<Buckets>, calls: seq<Call>, key: string, i: nat, j: nat)
    requires IsRun(l, states, calls) && i < j <= |calls| && l.Limits() && l.burst >= 1.0
    requires Unevicted(states, key, i, j)
    ensures PaidFor(l, states[j], key, calls[i].now, Count(calls[i..j], key))
  {
    var c, before, after := calls[j - 1], states[j - 1], states[j];
    var start, count := calls[i].now, Count(calls[i..j - 1], key);
    assert calls[i..j][..j - 1 - i] == calls[i..j - 1];
    assert PaidFor(l, before, key, start, count) by {
      if i < j - 1 {
        AllowedIsPaidFor(l, states, calls, key, i, j - 1);
      } else {
        assert calls[i..j - 1] == [];
      }
    }
    CallEffect(l, states, calls, j - 1);
    if c.key == key {
      PollIsPaidFor(l, before, after, key, start, c.now, c.ok, count);
    }
  }

  /** Everything one call of a run does. */
  lemma CallEffect(l: Limit, states: seq<Buckets>, calls: seq<Call>, m: nat)
    requires IsRun(l, states, calls) && m < |calls| && l.Limits() && l.burst >= 1.0
    ensures var c := calls[m];
            && InRange(l, states[m]) && (forall k :: k in states[m] ==> states[m][k].lastSeen <= c.now)
            && c.ok == Allowed(l, Lookup(states[m], c.key), c.now)
            && c.key in states[m + 1] && states[m + 1][c.key] == After(l, Lookup(states[m], c.key), c.now)
            && forall k :: k in states[m + 1] && k != c.key ==> k in states[m] && states[m + 1][k] == states[m][k]
  {
    RunStaysInRange(l, states, calls, m);
    assert m > 0 ==> calls[m - 1].now <= calls[m].now;
    assert PollAt(l, states, calls, m);
    InsertedEffect(states[m], states[m + 1], LastSeen, MAX_THROTTLE_KEYS, calls[m].key, After(l, Lookup(states[m], calls[m].key), calls[m].now));
  }

  /** The rate bound: while a key keeps its bucket, any stretch of the run lets it
      through at most burst + elapsed * rate / per times. */
  lemma RateBound(l: Limit, states: seq<Buckets>, calls: seq<Call>, key: string, i: nat, j: nat)
    requires IsRun(l, states, calls) && i < j <= |calls| && l.Limits() && l.burst >= 1.0
    requires Unevicted(states, key, i, j)
    ensures Count(calls[i..j], key) as real <= l.burst + (calls[j - 1].now - calls[i].now) as real * l.refill
  {
    var count, s := Count(calls[i..j], key), states[j];
    AllowedIsPaidFor(l, states, calls, key, i, j);
    RunStaysInRange(l, states, calls, j);
    if count > 0 {
      GainedGrows(l, calls[i].now, s[key].lastSeen, calls[j - 1].now);
    } else {
      GainedGrows(l, calls[i].now, calls[j - 1].now, calls[j - 1].now);
    }
  }
}
