/** authz/memstore.go: the reference binding store, a growing slice compacted in
    place by Revoke. */
module AuthzStore {
  import opened Common
  import opened Authz
  import Tenant

  predicate OfSubject(b: Binding, scope: Tenant.ID, sub: Subject, typ: string)
  {
    b.tenant == scope && b.subject == sub && b.resource.typ == typ && b.resource.id != ""
  }

  predicate OnResource(b: Binding, scope: Tenant.ID, res: Resource)
  {
    b.tenant == scope && b.resource == res
  }

  /** The store interface over a fixed list of bindings. */
  function View(bs: seq<Binding>): Store
  {
    Store(
      (scope: Tenant.ID, sub: Subject, res: Resource) =>
        if Gate(scope, sub) then Ok(Filter(bs, (b: Binding) => Exact(b, scope, sub, res))) else Err(TenantRequired),
      (scope: Tenant.ID, sub: Subject, typ: string) =>
        if Gate(scope, sub) then Ok(Filter(bs, (b: Binding) => OfSubject(b, scope, sub, typ))) else Err(TenantRequired),
      (scope: Tenant.ID, res: Resource) =>
        if scope.Valid() then Ok(Filter(bs, (b: Binding) => OnResource(b, scope, res))) else Err(TenantRequired))
  }

  /** What every stored list keeps: tenants are set, and no binding is there twice. */
  ghost predicate Kept(bs: seq<Binding>)
  {
    && (forall b :: b in bs ==> Gate(b.tenant, b.subject))
    && (forall i, j :: 0 <= i < j < |bs| ==> bs[i] != bs[j])
  }

  /** What is left after Revoke. */
  function Without(bs: seq<Binding>, b: Binding): seq<Binding>
  {
    Filter(bs, x => x != b)
  }

  /** Revoking what was just granted leaves the list as it was. */
  lemma RevokeUndoesGrant(bs: seq<Binding>, b: Binding)
    requires b !in bs
    ensures Without(bs + [b], b) == bs
  {
    assert (bs + [b])[..|bs|] == bs;
    FilterAll(bs, x => x != b);
  }

  lemma WithoutStep(bs: seq<Binding>, i: nat, b: Binding)
    requires i < |bs|
    ensures Without(bs[..i + 1], b) == Without(bs[..i], b) + (if bs[i] != b then [bs[i]] else [])
  {
    assert bs[..i + 1][..i] == bs[..i];
  }

  lemma {:induction false} FilterAll(bs: seq<Binding>, p: Binding -> bool)
    requires forall b :: b in bs ==> p(b)
    ensures Filter(bs, p) == bs
  {
    if bs != [] {
      assert bs == bs[..|bs| - 1] + [bs[|bs| - 1]];
      FilterAll(bs[..|bs| - 1], p);
    }
  }

  lemma {:induction false} FilterLength(bs: seq<Binding>, p: Binding -> bool)
    ensures |Filter(bs, p)| <= |bs|
  {
    if bs != [] {
      FilterLength(bs[..|bs| - 1], p);
    }
  }

  lemma {:induction false} FilterKeeps(bs: seq<Binding>, p: Binding -> bool)
    requires Kept(bs)
    ensures Kept(Filter(bs, p))
  {
    if bs != [] {
      assert bs == bs[..|bs| - 1] + [bs[|bs| - 1]];
      FilterKeeps(bs[..|bs| - 1], p);
    }
  }

  class MemStore {
    var slots: array<Binding>
    var count: nat

    ghost predicate Valid()
      reads this, slots
    {
      count <= slots.Length && Kept(slots[..count])
    }

    ghost function Bindings(): seq<Binding>
      reads this, slots
      requires Valid()
    {
      slots[..count]
    }

    constructor ()
      ensures Valid() && fresh(slots) && Bindings() == []
    {
      slots := new Binding[0];
      count := 0;
    }

    method Grant(b: Binding) returns (r: Result<bool, Error>)
      requires Valid()
      modifies this, slots
      ensures Valid() && (slots == old(slots) || fresh(slots))
      ensures r.Ok? <==> Gate(b.tenant, b.subject)
      ensures r.Err? ==> r == Err(TenantRequired) && Bindings() == old(Bindings())
      ensures r.Ok? ==> r.value == (b !in old(Bindings()))
      ensures r.Ok? ==> Bindings() == old(Bindings()) + (if r.value then [b] else [])
    {
      if !Gate(b.tenant, b.subject) {
        return Err(TenantRequired);
      }
      for i := 0 to count
        invariant b !in slots[..i]
      {
        if slots[i] == b {
          return Ok(false);
        }
        assert slots[..i + 1] == slots[..i] + [slots[i]];
      }
      if count == slots.Length {
        Grow();
      }
      ghost var before := slots[..count];
      slots[count] := b;
      count := count + 1;
      assert slots[..count] == before + [b];
      r := Ok(true);
    }

    /** The part of append that makes room. */
    method Grow()
      requires Valid()
      modifies this
      ensures Valid() && fresh(slots) && slots.Length > count == old(count)
      ensures Bindings() == old(Bindings())
    {
      var bigger := new Binding[2 * count + 1];
      for i := 0 to count
        invariant count == old(count) && slots == old(slots) && slots[..count] == old(slots[..count])
        invariant bigger[..i] == slots[..i]
      {
        bigger[i] := slots[i];
      }
      slots := bigger;
    }

    method Revoke(b: Binding) returns (r: Result<(), Error>)
      requires Valid()
      modifies this, slots
      ensures Valid() && slots == old(slots)
      ensures r == if Gate(b.tenant, b.subject) then Ok(()) else Err(TenantRequired)
      ensures Bindings() == if r.Ok? then Without(old(Bindings()), b) else old(Bindings())
      ensures r.Ok? ==> b !in Bindings()
    {
      if !Gate(b.tenant, b.subject) {
        return Err(TenantRequired);
      }
      ghost var before := slots[..count];
      var kept := Compact(b);
      FilterKeeps(before, x => x != b);
      FilterLength(before, x => x != b);
      count := kept;
      r := Ok(());
    }

    /** Moves what is kept to the front of the same array. */
    method Compact(b: Binding) returns (kept: nat)
      requires count <= slots.Length
      modifies slots
      ensures kept <= count && slots[..kept] == Without(old(slots[..count]), b)
    {
      ghost var before := slots[..count];
      ghost var out := Without(before[..0], b);
      kept := 0;
      for i := 0 to count
        invariant kept == |out| <= i && out == Without(before[..i], b)
        invariant forall j :: i <= j < count ==> slots[j] == before[j]
        invariant forall j :: 0 <= j < kept ==> slots[j] == out[j]
      {
        WithoutStep(before, i, b);
        out := Without(before[..i + 1], b);
        if slots[i] != b {
          slots[kept] := slots[i];
          kept := kept + 1;
        }
      }
      assert before[..count] == before;
      assert slots[..kept] == out;
    }

    method BindingsFor(scope: Tenant.ID, sub: Subject, res: Resource) returns (r: Result<seq<Binding>, Error>)
      requires Valid()
      ensures r == View(Bindings()).bindingsFor(scope, sub, res)
    {
      if !Gate(scope, sub) {
        return Err(TenantRequired);
      }
      var out: seq<Binding> := [];
      ghost var p := (b: Binding) => Exact(b, scope, sub, res);
      for i := 0 to count
        invariant out == Filter(slots[..i], p)
      {
        assert slots[..i + 1][..i] == slots[..i];
        if Exact(slots[i], scope, sub, res) {
          out := out + [slots[i]];
        }
      }
      r := Ok(out);
    }

    method BindingsForSubject(scope: Tenant.ID, sub: Subject, typ: string) returns (r: Result<seq<Binding>, Error>)
      requires Valid()
      ensures r == View(Bindings()).bindingsForSubject(scope, sub, typ)
    {
      if !Gate(scope, sub) {
        return Err(TenantRequired);
      }
      var out: seq<Binding> := [];
      ghost var p := (b: Binding) => OfSubject(b, scope, sub, typ);
      for i := 0 to count
        invariant out == Filter(slots[..i], p)
      {
        assert slots[..i + 1][..i] == slots[..i];
        if OfSubject(slots[i], scope, sub, typ) {
          out := out + [slots[i]];
        }
      }
      r := Ok(out);
    }

    method BindingsOnResource(scope: Tenant.ID, res: Resource) returns (r: Result<seq<Binding>, Error>)
      requires Valid()
      ensures r == View(Bindings()).bindingsOnResource(scope, res)
    {
      if !scope.Valid() {
        return Err(TenantRequired);
      }
      var out: seq<Binding> := [];
      ghost var p := (b: Binding) => OnResource(b, scope, res);
      for i := 0 to count
        invariant out == Filter(slots[..i], p)
      {
        assert slots[..i + 1][..i] == slots[..i];
        if OnResource(slots[i], scope, res) {
          out := out + [slots[i]];
        }
      }
      r := Ok(out);
    }
  }
}
