/** The rank model of authz/: subjects, bindings, hierarchies, policies and the
    store interface, with the meaning of a decision stated on them. */
module Authz {
  import opened Common
  import Tenant

  datatype Subject = Subject(tenant: Tenant.ID, typ: string, id: string)

  datatype Resource = Resource(typ: string, id: string)

  type Role = string

  type Action = string

  /** tenant is the scope the grant lives in, not the subject's home. */
  datatype Binding = Binding(tenant: Tenant.ID, subject: Subject, resource: Resource, role: Role)

  datatype Requirement = Requirement(typ: string, min: Role)

  type Hierarchy = map<string, seq<Role>>

  type Policy = map<Action, seq<Requirement>>

  datatype Error = TenantRequired | UnknownAction | StoreFailed | BadConfiguration

  /** scopeGate and gate as one: the subject, where there is one, needs a home tenant too. */
  predicate Gate(scope: Tenant.ID, sub: Subject)
  {
    scope.Valid() && sub.tenant.Valid()
  }

  // ----- ranks -----

  /** 1-based position of the first occurrence, 0 when the role is not in the ladder. */
  function Position(ladder: seq<Role>, r: Role): (n: nat)
    ensures n <= |ladder|
    ensures n > 0 ==> ladder[n - 1] == r && r !in ladder[..n - 1]
    ensures n == 0 <==> r !in ladder
  {
    if ladder == [] then 0
    else if ladder[0] == r then 1
    else
      var n := Position(ladder[1..], r);
      assert ladder == [ladder[0]] + ladder[1..];
      assert n > 0 ==> ladder[..n] == [ladder[0]] + ladder[1..][..n - 1];
      if n == 0 then 0 else n + 1
  }

  function Rank(h: Hierarchy, typ: string, r: Role): nat
  {
    if typ in h then Position(h[typ], r) else 0
  }

  /** The role stands in the ladder at the required one or above it. */
  ghost predicate AtLeast(ladder: seq<Role>, min: Role, r: Role)
  {
    exists i, j :: 0 <= i <= j < |ladder| && ladder[i] == min && ladder[j] == r
  }

  /** Ladders go from lowest to highest: comparing ranks is comparing places in the ladder. */
  lemma RanksFollowLadders(h: Hierarchy, typ: string, min: Role, r: Role)
    requires typ in h && min in h[typ] && forall i, j :: 0 <= i < j < |h[typ]| ==> h[typ][i] != h[typ][j]
    ensures Rank(h, typ, r) >= Rank(h, typ, min) <==> AtLeast(h[typ], min, r)
  {
    var ladder := h[typ];
    var m, n := Position(ladder, min), Position(ladder, r);
    if n >= m {
      assert ladder[m - 1] == min && ladder[n - 1] == r;
    }
    if AtLeast(ladder, min, r) {
      var i, j :| 0 <= i <= j < |ladder| && ladder[i] == min && ladder[j] == r;
      assert i == m - 1;
      assert j == n - 1;
    }
  }

  predicate ValidLadder(ladder: seq<Role>)
  {
    && ladder != [] && "" !in ladder
    && forall i, j :: 0 <= i < j < |ladder| ==> ladder[i] != ladder[j]
  }

  predicate ValidRequirement(h: Hierarchy, req: Requirement)
  {
    Rank(h, req.typ, req.min) > 0
  }

  /** What NewRBAC accepts. */
  ghost predicate ValidConfiguration(h: Hierarchy, p: Policy)
  {
    && (forall t :: t in h ==> t != "" && ValidLadder(h[t]))
    && (forall a :: a in p ==> a != "" && p[a] != [] && forall q :: q in p[a] ==> ValidRequirement(h, q))
  }

  method ValidateLadder(ladder: seq<Role>) returns (ok: bool)
    ensures ok <==> ValidLadder(ladder)
  {
    if |ladder| == 0 {
      return false;
    }
    var seen: set<Role> := {};
    for i := 0 to |ladder|
      invariant forall r :: r in seen <==> r in ladder[..i]
      invariant "" !in seen
      invariant forall j, k :: 0 <= j < k < i ==> ladder[j] != ladder[k]
    {
      if ladder[i] == "" {
        return false;
      }
      if ladder[i] in seen {
        return false;
      }
      assert ladder[..i + 1] == ladder[..i] + [ladder[i]];
      seen := seen + {ladder[i]};
    }
    assert ladder[..|ladder|] == ladder;
    ok := true;
  }

  /** validate: loops over both maps in whatever order they give their keys. */
  method Validate(h: Hierarchy, p: Policy) returns (ok: bool)
    ensures ok <==> ValidConfiguration(h, p)
  {
    var types := h.Keys;
    while types != {}
      invariant types <= h.Keys
      invariant forall t :: t in h && t !in types ==> t != "" && ValidLadder(h[t])
      decreases |types|
    {
      var t :| t in types;
      types := types - {t};
      if t == "" {
        return false;
      }
      var good := ValidateLadder(h[t]);
      if !good {
        return false;
      }
    }
    var actions := p.Keys;
    while actions != {}
      invariant actions <= p.Keys
      invariant forall a :: a in p && a !in actions ==> a != "" && p[a] != [] && forall q :: q in p[a] ==> ValidRequirement(h, q)
      decreases |actions|
    {
      var a :| a in actions;
      actions := actions - {a};
      if a == "" || |p[a]| == 0 {
        return false;
      }
      for i := 0 to |p[a]|
        invariant forall j :: 0 <= j < i ==> ValidRequirement(h, p[a][j])
      {
        if p[a][i].typ !in h || Rank(h, p[a][i].typ, p[a][i].min) == 0 {
          assert !ValidRequirement(h, p[a][i]);
          return false;
        }
      }
    }
    ok := true;
  }

  // ----- stores -----

  /** A BindingStore as the engine sees it during one call. Nothing is assumed
      about its answers: it may fail, and it may leak bindings of other
      subjects, resources and tenants. */
  datatype Store = Store(
    bindingsFor: (Tenant.ID, Subject, Resource) -> Result<seq<Binding>, Error>,
    bindingsForSubject: (Tenant.ID, Subject, string) -> Result<seq<Binding>, Error>,
    bindingsOnResource: (Tenant.ID, Resource) -> Result<seq<Binding>, Error>)

  /** The configuration of an RBAC engine; NewRBAC refuses what is not Valid. */
  datatype RBAC = RBAC(store: Store, h: Hierarchy, p: Policy) {
    ghost predicate Valid()
    {
      ValidConfiguration(h, p)
    }
  }

  method NewRBAC(store: Store, h: Hierarchy, p: Policy) returns (r: Result<RBAC, Error>)
    ensures r == if ValidConfiguration(h, p) then Ok(RBAC(store, h, p)) else Err(BadConfiguration)
  {
    var ok := Validate(h, p);
    r := if ok then Ok(RBAC(store, h, p)) else Err(BadConfiguration);
  }

  // ----- what a decision is -----

  predicate Exact(b: Binding, scope: Tenant.ID, sub: Subject, res: Resource)
  {
    b.tenant == scope && b.subject == sub && b.resource == res
  }

  /** The highest rank among the bindings that match exactly; the others are ignored. */
  function BestRank(h: Hierarchy, bs: seq<Binding>, scope: Tenant.ID, sub: Subject, res: Resource): nat
  {
    if bs == [] then 0
    else
      var best := BestRank(h, bs[..|bs| - 1], scope, sub, res);
      var b := bs[|bs| - 1];
      if Exact(b, scope, sub, res) && Rank(h, res.typ, b.role) > best then Rank(h, res.typ, b.role) else best
  }

  lemma {:induction false} BestRankIsReached(h: Hierarchy, bs: seq<Binding>, scope: Tenant.ID, sub: Subject, res: Resource, n: nat)
    requires n > 0
    ensures BestRank(h, bs, scope, sub, res) >= n
        <==> exists b :: b in bs && Exact(b, scope, sub, res) && Rank(h, res.typ, b.role) >= n
  {
    if bs != [] {
      var front, b := bs[..|bs| - 1], bs[|bs| - 1];
      assert bs == front + [b];
      BestRankIsReached(h, front, scope, sub, res, n);
    }
  }

  /** The instance asked about, or the singleton of the requirement's own type. */
  function Target(req: Requirement, res: Resource): Resource
  {
    if req.typ != res.typ then Resource(req.typ, "") else res
  }

  function EffectiveRank(e: RBAC, scope: Tenant.ID, sub: Subject, res: Resource): Result<nat, Error>
  {
    match e.store.bindingsFor(scope, sub, res)
    case Err(_) => Err(StoreFailed)
    case Ok(bs) => Ok(BestRank(e.h, bs, scope, sub, res))
  }

  /** OR over the requirements, left to right; the first store failure on the way ends it. */
  function Decide(e: RBAC, scope: Tenant.ID, sub: Subject, reqs: seq<Requirement>, res: Resource): Result<bool, Error>
  {
    if reqs == [] then Ok(false)
    else
      match EffectiveRank(e, scope, sub, Target(reqs[0], res))
      case Err(x) => Err(x)
      case Ok(rank) =>
        if rank >= Rank(e.h, reqs[0].typ, reqs[0].min) then Ok(true)
        else Decide(e, scope, sub, reqs[1..], res)
  }

  /** RBAC.Check. */
  function CheckOutcome(e: RBAC, scope: Tenant.ID, sub: Subject, act: Action, res: Resource): Result<bool, Error>
  {
    if !Gate(scope, sub) then Err(TenantRequired)
    else if act !in e.p then Ok(false)
    else Decide(e, scope, sub, e.p[act], res)
  }

  /** One of these bindings, of exactly this scope and subject, meets the requirement. */
  ghost predicate Meets(h: Hierarchy, bs: seq<Binding>, scope: Tenant.ID, sub: Subject, req: Requirement, res: Resource)
  {
    exists b :: b in bs && Exact(b, scope, sub, Target(req, res)) && Rank(h, req.typ, b.role) >= Rank(h, req.typ, req.min)
  }

  /** The same, read off the ladder. */
  lemma MeetsIff(h: Hierarchy, p: Policy, bs: seq<Binding>, scope: Tenant.ID, sub: Subject, act: Action, req: Requirement, res: Resource)
    requires ValidConfiguration(h, p) && act in p && req in p[act]
    ensures Meets(h, bs, scope, sub, req, res)
       <==> exists b :: b in bs && b.tenant == scope && b.subject == sub
                    && b.resource == (if req.typ == res.typ then res else Resource(req.typ, ""))
                    && req.typ in h && AtLeast(h[req.typ], req.min, b.role)
  {
    assert ValidRequirement(h, req);
    assert req.typ in h && req.min in h[req.typ];
    forall b | b in bs ensures Rank(h, req.typ, b.role) >= Rank(h, req.typ, req.min) <==> AtLeast(h[req.typ], req.min, b.role) {
      RanksFollowLadders(h, req.typ, req.min, b.role);
    }
  }

  ghost predicate MeetsAny(h: Hierarchy, bs: seq<Binding>, scope: Tenant.ID, sub: Subject, reqs: seq<Requirement>, res: Resource)
  {
    exists req :: req in reqs && Meets(h, bs, scope, sub, req, res)
  }

  /** Deny by default, against any store: whatever it answers, an allow rests on
      a binding it returned for exactly this scope, subject and target, whose
      role is in the ladder at the required rank or above. */
  lemma {:induction false} AllowRestsOnABinding(e: RBAC, scope: Tenant.ID, sub: Subject, reqs: seq<Requirement>, res: Resource)
    requires forall q :: q in reqs ==> ValidRequirement(e.h, q)
    requires Decide(e, scope, sub, reqs, res) == Ok(true)
    ensures exists q :: q in reqs && e.store.bindingsFor(scope, sub, Target(q, res)).Ok?
                     && Meets(e.h, e.store.bindingsFor(scope, sub, Target(q, res)).value, scope, sub, q, res)
  {
    var q := reqs[0];
    var t := Target(q, res);
    assert q in reqs;
    var rank := EffectiveRank(e, scope, sub, t).value;
    if rank >= Rank(e.h, q.typ, q.min) {
      BestRankIsReached(e.h, e.store.bindingsFor(scope, sub, t).value, scope, sub, t, Rank(e.h, q.typ, q.min));
    } else {
      AllowRestsOnABinding(e, scope, sub, reqs[1..], res);
    }
  }

  /** A store that answers from one list of bindings: the decision is exactly
      whether some requirement is met there. Order plays no part. */
  lemma {:induction false} DecideOnBindings(e: RBAC, bs: seq<Binding>, scope: Tenant.ID, sub: Subject, reqs: seq<Requirement>, res: Resource)
    requires forall q :: q in reqs ==> ValidRequirement(e.h, q)
    requires forall t: Resource :: e.store.bindingsFor(scope, sub, t) == Ok(Filter(bs, b => Exact(b, scope, sub, t)))
    ensures Decide(e, scope, sub, reqs, res) == Ok(MeetsAny(e.h, bs, scope, sub, reqs, res))
  {
    if reqs != [] {
      var q := reqs[0];
      var t := Target(q, res);
      assert q in reqs;
      assert reqs == [q] + reqs[1..];
      BestRankIsReached(e.h, Filter(bs, b => Exact(b, scope, sub, t)), scope, sub, t, Rank(e.h, q.typ, q.min));
      DecideOnBindings(e, bs, scope, sub, reqs[1..], res);
      assert EffectiveRank(e, scope, sub, t).value >= Rank(e.h, q.typ, q.min) <==> Meets(e.h, bs, scope, sub, q, res);
    }
  }
}
