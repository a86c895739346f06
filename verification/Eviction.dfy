/** The bound on an in-process map: inserting a new key at the cap first drops
    the entry with the oldest stamp. The rate limiter (crypto/throttle.go:141-153)
    and the registry cache (oidc/manager.go:587-599) run the same loop. */
module Eviction {
  import opened Common

  /** No entry has an older stamp. */
  ghost predicate IsOldest<K(!new), V>(m: map<K, V>, stamp: V -> Time, victim: K)
  {
    victim in m && forall k :: k in m ==> stamp(m[victim]) <= stamp(m[k])
  }

  ghost predicate AllStamped<K(!new), V>(m: map<K, V>, stamp: V -> Time)
  {
    forall k :: k in m ==> stamp(m[k]) > ZERO_TIME
  }

  /** What has to go before key can be inserted: nothing below the cap or for a
      known key, else one entry. It is the oldest, unless some stamp is the zero
      time, which the scan takes for "none found yet". */
  ghost predicate MakesRoom<K(!new), V>(m: map<K, V>, stamp: V -> Time, cap: nat, key: K, victim: Option<K>)
  {
    if key in m || |m| < cap then victim.None?
    else victim.Some? && victim.value in m && (AllStamped(m, stamp) ==> IsOldest(m, stamp, victim.value))
  }

  function Without<K, V>(m: map<K, V>, victim: Option<K>): map<K, V>
  {
    if victim.Some? then m - {victim.value} else m
  }

  /** m' is m with key bound to v, within the cap. */
  ghost predicate Inserted<K(!new), V>(m: map<K, V>, m': map<K, V>, stamp: V -> Time, cap: nat, key: K, v: V)
  {
    exists victim :: MakesRoom(m, stamp, cap, key, victim) && m' == Without(m, victim)[key := v]
  }

  /** The scan, in whatever order the map gives its keys. */
  method FindOldest<K(==, !new), V>(m: map<K, V>, stamp: V -> Time) returns (oldestKey: K)
    requires m.Keys != {}
    ensures oldestKey in m
    ensures AllStamped(m, stamp) ==> IsOldest(m, stamp, oldestKey)
  {
    var left := m.Keys;
    oldestKey :| oldestKey in left;
    var oldest := ZERO_TIME;
    while left != {}
      invariant left <= m.Keys && oldestKey in m
      invariant if left == m.Keys then oldest == ZERO_TIME else oldestKey !in left && oldest == stamp(m[oldestKey])
      invariant AllStamped(m, stamp) ==> forall k :: k in m && k !in left ==> oldest <= stamp(m[k])
      decreases |left|
    {
      var k :| k in left;
      left := left - {k};
      if oldest == ZERO_TIME || stamp(m[k]) < oldest {
        oldestKey, oldest := k, stamp(m[k]);
      }
    }
  }

  /** Only the inserted key is new or changed, and the map keeps within its cap. */
  lemma InsertedEffect<K(!new), V>(m: map<K, V>, m': map<K, V>, stamp: V -> Time, cap: nat, key: K, v: V)
    requires Inserted(m, m', stamp, cap, key, v) && cap > 0
    ensures key in m' && m'[key] == v
    ensures forall k :: k in m' && k != key ==> k in m && m'[k] == m[k]
    ensures |m| <= cap ==> |m'| <= cap
  {
  }

}
