/** oidc/manager.go, without provider inheritance: the per-tenant cache of built
    registries. The class runs one call at a time; RegistryThreads interleaves them. */
module RegistryCache {
  import opened Common
  import opened Eviction
  import Tenant

  const MAX_CACHED_TENANTS := 1024

  /** 1 January of years 9999 and 10000: a stamp in between marks a pinned test fixture. */
  const PIN_START: Time := 253370764800 * 1_000_000_000
  const PIN_END: Time := 253402300800 * 1_000_000_000

  datatype Cached<+R> = Cached(registry: R, cachedAt: Time)

  type Registries<R> = map<Tenant.ID, Cached<R>>

  function CachedAt<R>(c: Cached<R>): Time
  {
    c.cachedAt
  }

  predicate CacheFresh(ttl: int, cachedAt: Time, now: Time)
  {
    if cachedAt == ZERO_TIME then false
    else if PIN_START <= cachedAt < PIN_END then true
    else if ttl == 0 then false
    else now - cachedAt < ttl
  }

  predicate Serves<R>(s: Registries<R>, t: Tenant.ID, ttl: int, now: Time)
  {
    t in s && CacheFresh(ttl, s[t].cachedAt, now)
  }

  datatype Error = ListFailed | BuildFailed

  /** What GetRegistry promises: a fresh entry is returned and nothing changes; otherwise the
      outcome of a rebuild, and only what was built is cached. */
  ghost predicate Got<R>(before: Registries<R>, after: Registries<R>, t: Tenant.ID, ttl: int,
                         checkedAt: Time, recheckedAt: Time, storedAt: Time, outcome: Result<R, Error>, r: Result<R, Error>)
  {
    if Serves(before, t, ttl, checkedAt) || Serves(before, t, ttl, recheckedAt)
    then r == Ok(before[t].registry) && after == before
    else
      && r == outcome
      && (r.Err? ==> after == before)
      && (r.Ok? ==> Inserted(before, after, CachedAt, MAX_CACHED_TENANTS, t, Cached(r.value, storedAt)))
  }

  /** The enabled records of a tenant turned into a registry; None is the cached
      "nothing configured" answer. */
  datatype Builder<!Record, !Registry> = Builder(build: (Tenant.ID, seq<Record>) -> Result<Registry, Error>)
  {
    function Outcome(t: Tenant.ID, listed: Result<seq<Record>, Error>): Result<Option<Registry>, Error>
    {
      match listed
      case Err(_) => Err(ListFailed)
      case Ok(recs) =>
        if recs == [] then Ok(None)
        else
          match build(t, recs)
          case Err(_) => Err(BuildFailed)
          case Ok(reg) => Ok(Some(reg))
    }
  }

  /** A failed listing and a failed build are told apart and give no registry; no records
      are the answer "nothing configured"; otherwise the registry is what was built of the records. */
  lemma OutcomeIff<Record, Registry>(b: Builder<Record, Registry>, t: Tenant.ID, listed: Result<seq<Record>, Error>)
    ensures b.Outcome(t, listed) == Err(ListFailed) <==> listed.Err?
    ensures b.Outcome(t, listed) == Err(BuildFailed) <==> listed.Ok? && |listed.value| > 0 && b.build(t, listed.value).Err?
    ensures b.Outcome(t, listed) == Ok(None) <==> listed.Ok? && |listed.value| == 0
    ensures forall reg :: b.Outcome(t, listed) == Ok(Some(reg)) <==> listed.Ok? && |listed.value| > 0 && b.build(t, listed.value) == Ok(reg)
  {
  }

  /** An entry is served in the ttl after it was cached, and a pinned one of year 9999 always. */
  lemma ServesIff<R>(s: Registries<R>, t: Tenant.ID, ttl: int, now: Time)
    ensures Serves(s, t, ttl, now)
       <==> t in s && s[t].cachedAt != ZERO_TIME
            && (253370764800_000_000_000 <= s[t].cachedAt < 253402300800_000_000_000 || (ttl != 0 && now < s[t].cachedAt + ttl))
  {
  }

  class Manager<Record(==), Registry> {
    const ttl: int
    const builder: Builder<Record, Registry>
    var registries: Registries<Option<Registry>>

    ghost predicate Valid()
      reads this
    {
      |registries| <= MAX_CACHED_TENANTS
    }

    constructor (ttl: int, builder: Builder<Record, Registry>)
      ensures Valid() && this.ttl == ttl && this.builder == builder && registries == map[]
    {
      this.ttl := ttl;
      this.builder := builder;
      this.registries := map[];
    }

    /** storeLocked */
    method Store(t: Tenant.ID, reg: Option<Registry>, now: Time)
      requires Valid()
      modifies this
      ensures Valid() && Inserted(old(registries), registries, CachedAt, MAX_CACHED_TENANTS, t, Cached(reg, now))
    {
      ghost var victim: Option<Tenant.ID> := None;
      ghost var before := registries;
      if t !in registries && |registries| >= MAX_CACHED_TENANTS {
        assert |registries.Keys| == |registries|;
        var oldestKey := FindOldest(registries, CachedAt);
        victim := Some(oldestKey);
        registries := registries - {oldestKey};
      }
      registries := registries[t := Cached(reg, now)];
      assert MakesRoom(before, CachedAt, MAX_CACHED_TENANTS, t, victim) && registries == Without(before, victim)[t := Cached(reg, now)];
      InsertedEffect(before, registries, CachedAt, MAX_CACHED_TENANTS, t, Cached(reg, now));
    }

    /** rebuildLocked and buildAndStoreLocked: what cannot be built is not cached. */
    method Rebuild(t: Tenant.ID, listed: Result<seq<Record>, Error>, now: Time) returns (r: Result<Option<Registry>, Error>)
      requires Valid()
      modifies this
      ensures Valid() && r == builder.Outcome(t, listed)
      ensures r.Err? ==> registries == old(registries)
      ensures r.Ok? ==> Inserted(old(registries), registries, CachedAt, MAX_CACHED_TENANTS, t, Cached(r.value, now))
    {
      if listed.Err? {
        return Err(ListFailed);
      }
      if |listed.value| == 0 {
        Store(t, None, now);
        return Ok(None);
      }
      var reg := builder.build(t, listed.value);
      if reg.Err? {
        return Err(BuildFailed);
      }
      Store(t, Some(reg.value), now);
      r := Ok(Some(reg.value));
    }

    /** GetRegistry. The clock is read at each of the two freshness checks and again when the result is stored. */
    method GetRegistry(t: Tenant.ID, listed: Result<seq<Record>, Error>, checkedAt: Time, recheckedAt: Time, storedAt: Time)
      returns (r: Result<Option<Registry>, Error>)
      requires Valid()
      modifies this
      ensures Valid()
      ensures Got(old(registries), registries, t, ttl, checkedAt, recheckedAt, storedAt, builder.Outcome(t, listed), r)
    {
      if t in registries && CacheFresh(ttl, registries[t].cachedAt, checkedAt) {
        return Ok(registries[t].registry);
      }
      if t in registries && CacheFresh(ttl, registries[t].cachedAt, recheckedAt) {
        return Ok(registries[t].registry);
      }
      r := Rebuild(t, listed, storedAt);
    }

    /** Reload drops the entry first, so a failed reload leaves nothing behind. */
    method Reload(t: Tenant.ID, listed: Result<seq<Record>, Error>, storedAt: Time) returns (r: Result<(), Error>)
      requires Valid()
      modifies this
      ensures Valid()
      ensures r == match builder.Outcome(t, listed) case Ok(_) => Ok(()) case Err(x) => Err(x)
      ensures r.Err? ==> registries == old(registries) - {t}
      ensures r.Ok? ==> Inserted(old(registries) - {t}, registries, CachedAt, MAX_CACHED_TENANTS, t,
                                 Cached(builder.Outcome(t, listed).value, storedAt))
    {
      InvalidateTenant(t);
      var built := Rebuild(t, listed, storedAt);
      r := if built.Ok? then Ok(()) else Err(built.error);
    }

    method InvalidateTenant(t: Tenant.ID)
      requires Valid()
      modifies this
      ensures Valid() && registries == old(registries) - {t}
    {
      assert (registries - {t}).Keys == registries.Keys - {t};
      assert |registries - {t}| == |(registries - {t}).Keys| <= |registries.Keys| == |registries|;
      registries := registries - {t};
    }
  }
}
