/** authz/rbac.go: the rank engine's four queries, and the agreement of the
    reverse queries with Check over the reference store. */
module AuthzRBAC {
  import opened Common
  import opened Authz
  import opened AuthzStore
  import Tenant

  /** effective */
  method Effective(e: RBAC, scope: Tenant.ID, sub: Subject, res: Resource) returns (r: Result<nat, Error>)
    ensures r == EffectiveRank(e, scope, sub, res)
  {
    var bs := e.store.bindingsFor(scope, sub, res);
    if bs.Err? {
      return Err(StoreFailed);
    }
    var best := 0;
    for i := 0 to |bs.value|
      invariant best == BestRank(e.h, bs.value[..i], scope, sub, res)
    {
      var b := bs.value[i];
      assert bs.value[..i + 1][..i] == bs.value[..i];
      if b.tenant != scope || b.subject != sub || b.resource != res {
        continue;
      }
      var rank := Rank(e.h, res.typ, b.role);
      if rank > best {
        best := rank;
      }
    }
    assert bs.value[..|bs.value|] == bs.value;
    r := Ok(best);
  }

  method Check(e: RBAC, scope: Tenant.ID, sub: Subject, act: Action, res: Resource) returns (r: Result<bool, Error>)
    ensures r == CheckOutcome(e, scope, sub, act, res)
  {
    if !Gate(scope, sub) {
      return Err(TenantRequired);
    }
    if act !in e.p {
      return Ok(false);
    }
    var reqs := e.p[act];
    for i := 0 to |reqs|
      invariant Decide(e, scope, sub, reqs, res) == Decide(e, scope, sub, reqs[i..], res)
    {
      var rank := Effective(e, scope, sub, Target(reqs[i], res));
      if rank.Err? {
        return Err(rank.error);
      }
      if rank.value >= Rank(e.h, reqs[i].typ, reqs[i].min) {
        return Ok(true);
      }
      assert reqs[i..][1..] == reqs[i + 1..];
    }
    r := Ok(false);
  }

  datatype CheckRequest = CheckRequest(subject: Subject, action: Action, resource: Resource)

  function Ask(e: RBAC, scope: Tenant.ID, q: CheckRequest): Result<bool, Error>
  {
    CheckOutcome(e, scope, q.subject, q.action, q.resource)
  }

  method CheckBulk(e: RBAC, scope: Tenant.ID, reqs: seq<CheckRequest>) returns (r: Result<seq<bool>, Error>)
    ensures r.Ok? <==> scope.Valid() && forall i :: 0 <= i < |reqs| ==> Ask(e, scope, reqs[i]).Ok?
    ensures r.Ok? ==> |r.value| == |reqs| && forall i :: 0 <= i < |reqs| ==> Ask(e, scope, reqs[i]) == Ok(r.value[i])
  {
    if !scope.Valid() {
      return Err(TenantRequired);
    }
    var out: seq<bool> := [];
    for i := 0 to |reqs|
      invariant |out| == i && forall j :: 0 <= j < i ==> Ask(e, scope, reqs[j]) == Ok(out[j])
    {
      var d := Check(e, scope, reqs[i].subject, reqs[i].action, reqs[i].resource);
      if d.Err? {
        return Err(d.error);
      }
      out := out + [d.value];
    }
    r := Ok(out);
  }

  // ----- ListResources -----

  predicate ByID(a: Resource, b: Resource)
  {
    StringLess(a.id, b.id)
  }

  /** This binding makes its resource one the action is allowed on. */
  ghost predicate Lists(e: RBAC, reqs: seq<Requirement>, scope: Tenant.ID, sub: Subject, typ: string, b: Binding)
  {
    && OfSubject(b, scope, sub, typ)
    && exists q :: q in reqs && q.typ == typ && Rank(e.h, typ, b.role) >= Rank(e.h, typ, q.min)
  }

  ghost predicate IsLowest(e: RBAC, reqs: seq<Requirement>, typ: string, lowest: nat)
  {
    && (lowest == 0 <==> forall q :: q in reqs ==> q.typ != typ)
    && (lowest > 0 ==> exists q :: q in reqs && q.typ == typ && lowest == Rank(e.h, typ, q.min))
    && (forall q :: q in reqs && q.typ == typ ==> lowest <= Rank(e.h, typ, q.min))
  }

  /** The lowest rank among the same-type requirements, 0 when there is none. */
  method Lowest(e: RBAC, reqs: seq<Requirement>, typ: string) returns (lowest: nat)
    requires forall q :: q in reqs ==> ValidRequirement(e.h, q)
    ensures IsLowest(e, reqs, typ, lowest)
  {
    lowest := 0;
    for i := 0 to |reqs|
      invariant IsLowest(e, reqs[..i], typ, lowest)
    {
      assert reqs[..i + 1] == reqs[..i] + [reqs[i]];
      assert reqs[i] in reqs;
      if reqs[i].typ == typ {
        var rank := Rank(e.h, typ, reqs[i].min);
        if lowest == 0 || rank < lowest {
          lowest := rank;
        }
      }
    }
    assert reqs[..|reqs|] == reqs;
  }

  predicate OtherType(q: Requirement, typ: string)
  {
    q.typ != typ
  }

  /** The requirements that act as global alternatives for this type. */
  function Globals(reqs: seq<Requirement>, typ: string): seq<Requirement>
  {
    Filter(reqs, q => OtherType(q, typ))
  }

  lemma {:induction false} DecideAppend(e: RBAC, scope: Tenant.ID, sub: Subject, a: seq<Requirement>, b: seq<Requirement>, res: Resource)
    ensures Decide(e, scope, sub, a + b, res)
         == if Decide(e, scope, sub, a, res) == Ok(false) then Decide(e, scope, sub, b, res) else Decide(e, scope, sub, a, res)
  {
    if a == [] {
      assert a + b == b;
    } else {
      assert (a + b)[1..] == a[1..] + b;
      DecideAppend(e, scope, sub, a[1..], b, res);
    }
  }

  lemma GlobalsStep(reqs: seq<Requirement>, i: nat, typ: string)
    requires i < |reqs|
    ensures Globals(reqs[..i + 1], typ) == if reqs[i].typ != typ then Globals(reqs[..i], typ) + [reqs[i]] else Globals(reqs[..i], typ)
  {
    assert reqs[..i + 1][..i] == reqs[..i];
  }

  lemma DecideOne(e: RBAC, scope: Tenant.ID, sub: Subject, q: Requirement, res: Resource)
    ensures Decide(e, scope, sub, [q], res)
         == match EffectiveRank(e, scope, sub, Target(q, res))
            case Err(x) => Err(x)
            case Ok(rank) => Ok(rank >= Rank(e.h, q.typ, q.min))
  {
  }

  /** Is some global alternative met? The ones behind a met one are not looked up. */
  method Unbounded(e: RBAC, scope: Tenant.ID, sub: Subject, reqs: seq<Requirement>, typ: string) returns (r: Result<bool, Error>)
    ensures r == Decide(e, scope, sub, Globals(reqs, typ), Resource(typ, ""))
  {
    ghost var any := Resource(typ, "");
    var unbounded := false;
    for i := 0 to |reqs|
      invariant Decide(e, scope, sub, Globals(reqs[..i], typ), any) == Ok(unbounded)
    {
      GlobalsStep(reqs, i, typ);
      if reqs[i].typ != typ {
        DecideAppend(e, scope, sub, Globals(reqs[..i], typ), [reqs[i]], any);
        DecideOne(e, scope, sub, reqs[i], any);
        if !unbounded {
          var rank := Effective(e, scope, sub, Resource(reqs[i].typ, ""));
          if rank.Err? {
            DecideGlobalsPrefix(e, scope, sub, reqs, i + 1, typ);
            return Err(rank.error);
          }
          unbounded := rank.value >= Rank(e.h, reqs[i].typ, reqs[i].min);
        }
      }
    }
    assert reqs[..|reqs|] == reqs;
    r := Ok(unbounded);
  }

  /** An outcome reached on a prefix is the outcome of the whole list. */
  lemma {:induction false} DecideGlobalsPrefix(e: RBAC, scope: Tenant.ID, sub: Subject, reqs: seq<Requirement>, i: nat, typ: string)
    requires i <= |reqs| && Decide(e, scope, sub, Globals(reqs[..i], typ), Resource(typ, "")) != Ok(false)
    ensures Decide(e, scope, sub, Globals(reqs, typ), Resource(typ, "")) == Decide(e, scope, sub, Globals(reqs[..i], typ), Resource(typ, ""))
    decreases |reqs| - i
  {
    if i == |reqs| {
      assert reqs[..i] == reqs;
    } else {
      GlobalsStep(reqs, i, typ);
      DecideAppend(e, scope, sub, Globals(reqs[..i], typ), [reqs[i]], Resource(typ, ""));
      DecideGlobalsPrefix(e, scope, sub, reqs, i + 1, typ);
    }
  }

  /** The answer to ListResources, given what the store reports for the subject. */
  ghost predicate ResourcesListed(e: RBAC, scope: Tenant.ID, sub: Subject, act: Action, typ: string,
                                  r: Result<(seq<Resource>, bool), Error>)
  {
    if !Gate(scope, sub) then r == Err(TenantRequired)
    else if act !in e.p then r == Err(UnknownAction)
    else
      var reqs := e.p[act];
      match Decide(e, scope, sub, Globals(reqs, typ), Resource(typ, ""))
      case Err(x) => r == Err(x)
      case Ok(unbounded) =>
        if forall q :: q in reqs ==> q.typ != typ then r == Ok(([], unbounded))
        else
          match e.store.bindingsForSubject(scope, sub, typ)
          case Err(_) => r == Err(StoreFailed)
          case Ok(bs) =>
            && r.Ok? && r.value.1 == unbounded && Increasing(r.value.0, ByID)
            && forall res :: res in r.value.0 <==> exists b :: b in bs && b.resource == res && Lists(e, reqs, scope, sub, typ, b)
  }

  method ListResources(e: RBAC, scope: Tenant.ID, sub: Subject, act: Action, typ: string)
    returns (r: Result<(seq<Resource>, bool), Error>)
    requires e.Valid()
    ensures ResourcesListed(e, scope, sub, act, typ, r)
  {
    if !Gate(scope, sub) {
      return Err(TenantRequired);
    }
    if act !in e.p {
      return Err(UnknownAction);
    }
    var reqs := e.p[act];
    var unbounded := Unbounded(e, scope, sub, reqs, typ);
    if unbounded.Err? {
      return Err(unbounded.error);
    }
    var lowest := Lowest(e, reqs, typ);
    if lowest == 0 {
      return Ok(([], unbounded.value));
    }
    var bs := e.store.bindingsForSubject(scope, sub, typ);
    if bs.Err? {
      return Err(StoreFailed);
    }
    var out := Collect(e, scope, sub, reqs, typ, lowest, bs.value);
    StringLessIsStrict();
    out := Sort(out, ByID);
    r := Ok((out, unbounded.value));
  }

  /** The deduplicating scan over the subject's bindings. */
  method Collect(e: RBAC, scope: Tenant.ID, sub: Subject, reqs: seq<Requirement>, typ: string, lowest: nat, bs: seq<Binding>)
    returns (out: seq<Resource>)
    requires lowest > 0 && IsLowest(e, reqs, typ, lowest)
    ensures Comparable(out, ByID)
    ensures forall res :: res in out <==> exists b :: b in bs && b.resource == res && Lists(e, reqs, scope, sub, typ, b)
  {
    StringLessIsStrict();
    var seen: set<Resource> := {};
    out := [];
    for i := 0 to |bs|
      invariant forall res :: res in seen <==> res in out
      invariant forall res :: res in out ==> res.typ == typ
      invariant Comparable(out, ByID)
      invariant forall res :: res in out <==> exists b :: b in bs[..i] && b.resource == res && Lists(e, reqs, scope, sub, typ, b)
    {
      var b := bs[i];
      assert bs[..i + 1] == bs[..i] + [b];
      if b.tenant != scope || b.subject != sub || b.resource.typ != typ || b.resource.id == "" {
        continue;
      }
      assert Rank(e.h, typ, b.role) >= lowest <==> Lists(e, reqs, scope, sub, typ, b);
      if Rank(e.h, typ, b.role) >= lowest && b.resource !in seen {
        forall j | 0 <= j < |out| ensures ByID(out[j], b.resource) || ByID(b.resource, out[j]) {
          assert out[j] in out && out[j].id != b.resource.id;
        }
        seen := seen + {b.resource};
        out := out + [b.resource];
      }
    }
    assert bs[..|bs|] == bs;
  }

  // ----- ListSubjects -----

  type HomeSubject = s: Subject | s.tenant.Valid() witness Subject(Tenant.Single, "", "")

  /** sortSubjects: by type, id, home tenant. */
  predicate SubjectLess(a: HomeSubject, b: HomeSubject)
  {
    if a.typ != b.typ then StringLess(a.typ, b.typ)
    else if a.id != b.id then StringLess(a.id, b.id)
    else StringLess(a.tenant.String(), b.tenant.String())
  }

  /** The sort key leaves no ties: a set tenant is told apart by its stored form. */
  lemma SubjectLessIsStrict()
    ensures StrictPartialOrder(SubjectLess)
    ensures forall a: HomeSubject, b: HomeSubject :: a != b ==> SubjectLess(a, b) || SubjectLess(b, a)
  {
    StringLessIsStrict();
  }

  ghost predicate Qualifies(e: RBAC, scope: Tenant.ID, q: Requirement, res: Resource, b: Binding)
  {
    OnResource(b, scope, Target(q, res)) && Rank(e.h, q.typ, b.role) >= Rank(e.h, q.typ, q.min)
  }

  function OnTarget(e: RBAC, scope: Tenant.ID, q: Requirement, res: Resource): Result<seq<Binding>, Error>
  {
    e.store.bindingsOnResource(scope, Target(q, res))
  }

  ghost predicate Homeless(e: RBAC, scope: Tenant.ID, q: Requirement, res: Resource, bs: seq<Binding>)
  {
    exists b :: b in bs && Qualifies(e, scope, q, res, b) && !b.subject.tenant.Valid()
  }

  /** The first requirement that the store fails on, or for which it reports a
      qualifying subject that Check would refuse to answer about. */
  ghost function FirstError(e: RBAC, scope: Tenant.ID, reqs: seq<Requirement>, res: Resource): Option<Error>
  {
    if reqs == [] then None
    else
      match OnTarget(e, scope, reqs[0], res)
      case Err(_) => Some(StoreFailed)
      case Ok(bs) =>
        if Homeless(e, scope, reqs[0], res, bs) then Some(TenantRequired)
        else FirstError(e, scope, reqs[1..], res)
  }

  /** sub qualifies through this requirement. */
  ghost predicate Holds(e: RBAC, scope: Tenant.ID, q: Requirement, res: Resource, sub: Subject)
  {
    OnTarget(e, scope, q, res).Ok?
    && exists b :: b in OnTarget(e, scope, q, res).value && b.subject == sub && Qualifies(e, scope, q, res, b)
  }

  ghost predicate HoldsAny(e: RBAC, scope: Tenant.ID, reqs: seq<Requirement>, res: Resource, sub: Subject)
  {
    exists q :: q in reqs && Holds(e, scope, q, res, sub)
  }

  lemma HoldsAnyStep(e: RBAC, scope: Tenant.ID, reqs: seq<Requirement>, i: nat, res: Resource)
    requires i < |reqs|
    ensures forall sub :: HoldsAny(e, scope, reqs[..i + 1], res, sub)
                     <==> HoldsAny(e, scope, reqs[..i], res, sub) || Holds(e, scope, reqs[i], res, sub)
  {
  }

  ghost predicate SubjectsListed(e: RBAC, scope: Tenant.ID, act: Action, res: Resource, r: Result<(seq<HomeSubject>, bool), Error>)
  {
    if !scope.Valid() then r == Err(TenantRequired)
    else if act !in e.p then r == Err(UnknownAction)
    else
      match FirstError(e, scope, e.p[act], res)
      case Some(x) => r == Err(x)
      case None =>
        && r.Ok? && r.value.1 == false && Increasing(r.value.0, SubjectLess)
        && forall sub: HomeSubject :: sub in r.value.0 <==> HoldsAny(e, scope, e.p[act], res, sub)
  }

  /** The scan for one requirement, adding to what the earlier ones found. */
  method CollectSubjects(e: RBAC, scope: Tenant.ID, q: Requirement, res: Resource, bs: seq<Binding>, found: seq<HomeSubject>)
    returns (r: Result<seq<HomeSubject>, Error>)
    requires Comparable(found, SubjectLess)
    ensures r == Err(TenantRequired) <==> Homeless(e, scope, q, res, bs)
    ensures r.Err? ==> r == Err(TenantRequired)
    ensures r.Ok? ==> Comparable(r.value, SubjectLess)
    ensures r.Ok? ==> forall sub: HomeSubject :: sub in r.value <==>
      sub in found || exists b :: b in bs && b.subject == sub && Qualifies(e, scope, q, res, b)
  {
    SubjectLessIsStrict();
    var out := found;
    for i := 0 to |bs|
      invariant Comparable(out, SubjectLess)
      invariant !Homeless(e, scope, q, res, bs[..i])
      invariant forall sub: HomeSubject :: sub in out <==>
        sub in found || exists b :: b in bs[..i] && b.subject == sub && Qualifies(e, scope, q, res, b)
    {
      var b := bs[i];
      assert bs[..i + 1] == bs[..i] + [b];
      if b.tenant != scope || b.resource != Target(q, res) || Rank(e.h, q.typ, b.role) < Rank(e.h, q.typ, q.min) {
        continue;
      }
      assert Qualifies(e, scope, q, res, b);
      if b.subject in out {
        continue;
      }
      if !b.subject.tenant.Valid() {
        return Err(TenantRequired);
      }
      var s: HomeSubject := b.subject;
      forall j | 0 <= j < |out| ensures SubjectLess(out[j], s) || SubjectLess(s, out[j]) {
        assert out[j] in out && out[j] != s;
      }
      out := out + [s];
    }
    assert bs[..|bs|] == bs;
    r := Ok(out);
  }

  method ListSubjects(e: RBAC, scope: Tenant.ID, act: Action, res: Resource) returns (r: Result<(seq<HomeSubject>, bool), Error>)
    ensures SubjectsListed(e, scope, act, res, r)
  {
    if !scope.Valid() {
      return Err(TenantRequired);
    }
    if act !in e.p {
      return Err(UnknownAction);
    }
    var reqs := e.p[act];
    var out: seq<HomeSubject> := [];
    for i := 0 to |reqs|
      invariant FirstError(e, scope, reqs, res) == FirstError(e, scope, reqs[i..], res)
      invariant Comparable(out, SubjectLess)
      invariant forall sub: HomeSubject :: sub in out <==> HoldsAny(e, scope, reqs[..i], res, sub)
    {
      assert reqs[i..][1..] == reqs[i + 1..];
      HoldsAnyStep(e, scope, reqs, i, res);
      var bs := e.store.bindingsOnResource(scope, Target(reqs[i], res));
      if bs.Err? {
        return Err(StoreFailed);
      }
      var more := CollectSubjects(e, scope, reqs[i], res, bs.value, out);
      if more.Err? {
        return Err(more.error);
      }
      assert forall sub: HomeSubject :: sub in more.value <==> sub in out || Holds(e, scope, reqs[i], res, sub);
      out := more.value;
    }
    assert reqs[..|reqs|] == reqs;
    SubjectLessIsStrict();
    out := Sort(out, SubjectLess);
    r := Ok((out, false));
  }

  // ----- the reverse queries agree with Check -----

  /** Over the reference store, Check is exactly whether some requirement is met by a stored binding. */
  lemma CheckOnMemStore(e: RBAC, bs: seq<Binding>, scope: Tenant.ID, sub: Subject, act: Action, res: Resource)
    requires e.Valid() && e.store == View(bs) && Gate(scope, sub)
    ensures CheckOutcome(e, scope, sub, act, res) == Ok(act in e.p && MeetsAny(e.h, bs, scope, sub, e.p[act], res))
  {
    if act in e.p {
      forall t: Resource ensures e.store.bindingsFor(scope, sub, t) == Ok(Filter(bs, b => Exact(b, scope, sub, t))) {
      }
      DecideOnBindings(e, bs, scope, sub, e.p[act], res);
    }
  }

  /** The decision in the terms of the configuration alone: allowed exactly when for some requirement of
      the action a stored binding, of exactly this scope and subject and on the instance or on the
      requirement's singleton, has a role at the required one or above it in the type's ladder. */
  lemma CheckReadsLadders(e: RBAC, bs: seq<Binding>, scope: Tenant.ID, sub: Subject, act: Action, res: Resource)
    requires e.Valid() && e.store == View(bs) && scope.Valid() && sub.tenant.Valid()
    ensures CheckOutcome(e, scope, sub, act, res).Ok?
    ensures CheckOutcome(e, scope, sub, act, res) == Ok(true)
       <==> act in e.p && exists q, b, i, j ::
              && q in e.p[act] && b in bs && b.tenant == scope && b.subject == sub
              && b.resource == (if q.typ == res.typ then res else Resource(q.typ, ""))
              && q.typ in e.h && 0 <= i <= j < |e.h[q.typ]| && e.h[q.typ][i] == q.min && e.h[q.typ][j] == b.role
  {
    CheckOnMemStore(e, bs, scope, sub, act, res);
    if act in e.p {
      forall q | q in e.p[act] ensures Meets(e.h, bs, scope, sub, q, res) <==> Granted(e, bs, scope, sub, q, res) {
        MeetsIff(e.h, e.p, bs, scope, sub, act, q, res);
      }
      assert MeetsAny(e.h, bs, scope, sub, e.p[act], res) <==> exists q :: q in e.p[act] && Granted(e, bs, scope, sub, q, res);
      GrantedSpelledOut(e, bs, scope, sub, act, res);
    }
  }

  /** What the store answers about requirement i. */
  function Answer(e: RBAC, scope: Tenant.ID, sub: Subject, reqs: seq<Requirement>, i: nat, res: Resource): Result<seq<Binding>, Error>
    requires i < |reqs|
  {
    e.store.bindingsFor(scope, sub, if reqs[i].typ == res.typ then res else Resource(reqs[i].typ, ""))
  }

  /** The store fails on requirement i, and answered the ones before it without a binding that meets them. */
  ghost predicate FailsAt(e: RBAC, scope: Tenant.ID, sub: Subject, reqs: seq<Requirement>, i: nat, res: Resource)
    requires i < |reqs|
  {
    && Answer(e, scope, sub, reqs, i, res).Err?
    && forall j :: 0 <= j < i ==>
         Answer(e, scope, sub, reqs, j, res).Ok? && !Granted(e, Answer(e, scope, sub, reqs, j, res).value, scope, sub, reqs[j], res)
  }

  /** Over any store, failing and leaking ones included: refused for want of a tenant, denied for an
      unknown action, or failed exactly where a failing lookup comes before anything was met. */
  lemma CheckFailsExactly(e: RBAC, scope: Tenant.ID, sub: Subject, act: Action, res: Resource)
    requires e.Valid()
    ensures CheckOutcome(e, scope, sub, act, res) == Err(TenantRequired) <==> !scope.Valid() || !sub.tenant.Valid()
    ensures scope.Valid() && sub.tenant.Valid() && act !in e.p ==> CheckOutcome(e, scope, sub, act, res) == Ok(false)
    ensures CheckOutcome(e, scope, sub, act, res) == Err(StoreFailed)
       <==> scope.Valid() && sub.tenant.Valid() && act in e.p && exists i :: 0 <= i < |e.p[act]| && FailsAt(e, scope, sub, e.p[act], i, res)
    ensures CheckOutcome(e, scope, sub, act, res).Err? ==> CheckOutcome(e, scope, sub, act, res).error in {TenantRequired, StoreFailed}
  {
    if act in e.p { DecideFails(e, scope, sub, act, e.p[act], res); }
  }

  lemma {:induction false} DecideFails(e: RBAC, scope: Tenant.ID, sub: Subject, act: Action, reqs: seq<Requirement>, res: Resource)
    requires e.Valid() && act in e.p && forall q :: q in reqs ==> q in e.p[act]
    ensures Decide(e, scope, sub, reqs, res) == Err(StoreFailed) <==> exists i :: 0 <= i < |reqs| && FailsAt(e, scope, sub, reqs, i, res)
    ensures Decide(e, scope, sub, reqs, res).Err? ==> Decide(e, scope, sub, reqs, res) == Err(StoreFailed)
  {
    if reqs != [] {
      var rest, q := reqs[1..], reqs[0];
      assert q in reqs;
      assert Answer(e, scope, sub, reqs, 0, res) == e.store.bindingsFor(scope, sub, Target(q, res));
      DecideFails(e, scope, sub, act, rest, res);
      if Answer(e, scope, sub, reqs, 0, res).Err? {
        assert FailsAt(e, scope, sub, reqs, 0, res);
      } else {
        var bs := Answer(e, scope, sub, reqs, 0, res).value;
        BestRankIsReached(e.h, bs, scope, sub, Target(q, res), Rank(e.h, q.typ, q.min));
        MeetsIff(e.h, e.p, bs, scope, sub, act, q, res);
        FailsLater(e, scope, sub, reqs, res);
      }
    }
  }

  lemma FailsLater(e: RBAC, scope: Tenant.ID, sub: Subject, reqs: seq<Requirement>, res: Resource)
    requires reqs != [] && Answer(e, scope, sub, reqs, 0, res).Ok?
    ensures (exists i :: 0 <= i < |reqs| && FailsAt(e, scope, sub, reqs, i, res))
       <==> && !Granted(e, Answer(e, scope, sub, reqs, 0, res).value, scope, sub, reqs[0], res)
            && exists i :: 0 <= i < |reqs[1..]| && FailsAt(e, scope, sub, reqs[1..], i, res)
  {
    var rest := reqs[1..];
    forall i | 0 <= i < |rest| ensures Answer(e, scope, sub, rest, i, res) == Answer(e, scope, sub, reqs, i + 1, res) {
    }
    if i :| 0 <= i < |reqs| && FailsAt(e, scope, sub, reqs, i, res) {
      forall j | 0 <= j < i - 1
        ensures Answer(e, scope, sub, rest, j, res).Ok? && !Granted(e, Answer(e, scope, sub, rest, j, res).value, scope, sub, rest[j], res)
      {
        assert Answer(e, scope, sub, reqs, j + 1, res).Ok?;
      }
      assert FailsAt(e, scope, sub, rest, i - 1, res);
    }
    if i :| 0 <= i < |rest| && FailsAt(e, scope, sub, rest, i, res) {
      if !Granted(e, Answer(e, scope, sub, reqs, 0, res).value, scope, sub, reqs[0], res) {
        forall j | 0 <= j < i + 1
          ensures Answer(e, scope, sub, reqs, j, res).Ok? && !Granted(e, Answer(e, scope, sub, reqs, j, res).value, scope, sub, reqs[j], res)
        {
          if j > 0 { assert Answer(e, scope, sub, rest, j - 1, res).Ok?; }
        }
        assert FailsAt(e, scope, sub, reqs, i + 1, res);
      }
    }
  }

  ghost predicate Granted(e: RBAC, bs: seq<Binding>, scope: Tenant.ID, sub: Subject, q: Requirement, res: Resource)
  {
    exists b :: b in bs && b.tenant == scope && b.subject == sub
            && b.resource == (if q.typ == res.typ then res else Resource(q.typ, ""))
            && q.typ in e.h && AtLeast(e.h[q.typ], q.min, b.role)
  }

  lemma GrantedSpelledOut(e: RBAC, bs: seq<Binding>, scope: Tenant.ID, sub: Subject, act: Action, res: Resource)
    requires act in e.p
    ensures (exists q :: q in e.p[act] && Granted(e, bs, scope, sub, q, res))
       <==> exists q, b, i, j ::
              && q in e.p[act] && b in bs && b.tenant == scope && b.subject == sub
              && b.resource == (if q.typ == res.typ then res else Resource(q.typ, ""))
              && q.typ in e.h && 0 <= i <= j < |e.h[q.typ]| && e.h[q.typ][i] == q.min && e.h[q.typ][j] == b.role
  {
  }

  /** ListResources against Check, one concrete resource at a time. */
  lemma ListResourcesAgrees(e: RBAC, bs: seq<Binding>, scope: Tenant.ID, sub: Subject, act: Action, res: Resource,
                            r: Result<(seq<Resource>, bool), Error>)
    requires e.Valid() && e.store == View(bs) && Gate(scope, sub) && act in e.p && res.id != ""
    requires ResourcesListed(e, scope, sub, act, res.typ, r)
    ensures r.Ok? && CheckOutcome(e, scope, sub, act, res) == Ok(r.value.1 || res in r.value.0)
  {
    var reqs, typ := e.p[act], res.typ;
    CheckOnMemStore(e, bs, scope, sub, act, res);
    GlobalsDecide(e, bs, scope, sub, reqs, typ);
    var global := MeetsAny(e.h, bs, scope, sub, Globals(reqs, typ), Resource(typ, ""));
    assert r.Ok? && r.value.1 == global;
    assert MeetsAny(e.h, bs, scope, sub, reqs, res) <==> global || Listed(e, bs, scope, sub, reqs, res) by {
      MetSomewhere(e, bs, scope, sub, reqs, res);
    }
    if forall q :: q in reqs ==> q.typ != typ {
      assert !Listed(e, bs, scope, sub, reqs, res);
    } else {
      forall b ensures b in e.store.bindingsForSubject(scope, sub, typ).value && Lists(e, reqs, scope, sub, typ, b)
                  <==> b in bs && Lists(e, reqs, scope, sub, typ, b) {
      }
    }
  }

  /** Some stored binding puts the resource on the list. */
  ghost predicate Listed(e: RBAC, bs: seq<Binding>, scope: Tenant.ID, sub: Subject, reqs: seq<Requirement>, res: Resource)
  {
    exists b :: b in bs && b.resource == res && Lists(e, reqs, scope, sub, res.typ, b)
  }

  /** A requirement is met on the instance itself or as a global alternative. */
  lemma MetSomewhere(e: RBAC, bs: seq<Binding>, scope: Tenant.ID, sub: Subject, reqs: seq<Requirement>, res: Resource)
    requires res.id != ""
    ensures MeetsAny(e.h, bs, scope, sub, reqs, res)
       <==> MeetsAny(e.h, bs, scope, sub, Globals(reqs, res.typ), Resource(res.typ, "")) || Listed(e, bs, scope, sub, reqs, res)
  {
  }

  lemma GlobalsDecide(e: RBAC, bs: seq<Binding>, scope: Tenant.ID, sub: Subject, reqs: seq<Requirement>, typ: string)
    requires e.store == View(bs) && Gate(scope, sub)
    requires forall q :: q in reqs ==> ValidRequirement(e.h, q)
    ensures Decide(e, scope, sub, Globals(reqs, typ), Resource(typ, ""))
         == Ok(MeetsAny(e.h, bs, scope, sub, Globals(reqs, typ), Resource(typ, "")))
  {
    forall t: Resource ensures e.store.bindingsFor(scope, sub, t) == Ok(Filter(bs, b => Exact(b, scope, sub, t))) {
    }
    DecideOnBindings(e, bs, scope, sub, Globals(reqs, typ), Resource(typ, ""));
  }

  /** ListSubjects against Check, one subject at a time; every stored binding
      went through Grant, so none is without a home tenant. */
  lemma ListSubjectsAgrees(e: RBAC, bs: seq<Binding>, scope: Tenant.ID, sub: Subject, act: Action, res: Resource,
                           r: Result<(seq<HomeSubject>, bool), Error>)
    requires e.Valid() && e.store == View(bs) && Kept(bs) && Gate(scope, sub) && act in e.p
    requires SubjectsListed(e, scope, act, res, r)
    ensures r.Ok? && !r.value.1 && CheckOutcome(e, scope, sub, act, res) == Ok(sub in r.value.0)
  {
    CheckOnMemStore(e, bs, scope, sub, act, res);
    NoFirstError(e, bs, scope, e.p[act], res);
    var home: HomeSubject := sub;
    assert home in r.value.0 <==> HoldsAny(e, scope, e.p[act], res, sub);
    forall q | q in e.p[act] ensures Holds(e, scope, q, res, sub) <==> Meets(e.h, bs, scope, sub, q, res) {
      if Holds(e, scope, q, res, sub) {
        var b :| b in OnTarget(e, scope, q, res).value && b.subject == sub && Qualifies(e, scope, q, res, b);
        assert b in bs;
      }
      if Meets(e.h, bs, scope, sub, q, res) {
        var b :| b in bs && Exact(b, scope, sub, Target(q, res)) && Rank(e.h, q.typ, b.role) >= Rank(e.h, q.typ, q.min);
        assert b in OnTarget(e, scope, q, res).value && Qualifies(e, scope, q, res, b);
      }
    }
  }

  lemma {:induction false} NoFirstError(e: RBAC, bs: seq<Binding>, scope: Tenant.ID, reqs: seq<Requirement>, res: Resource)
    requires e.store == View(bs) && Kept(bs) && scope.Valid()
    ensures FirstError(e, scope, reqs, res).None?
  {
    if reqs != [] {
      assert OnTarget(e, scope, reqs[0], res).Ok?;
      NoFirstError(e, bs, scope, reqs[1..], res);
    }
  }

  /** Bindings of another scope never answer: two stores that hold the same
      bindings of this scope decide alike. */
  lemma ScopesAreSeparate(e: RBAC, e': RBAC, bs: seq<Binding>, bs': seq<Binding>, scope: Tenant.ID, sub: Subject, act: Action, res: Resource)
    requires e.Valid() && e.store == View(bs) && e' == e.(store := View(bs')) && Gate(scope, sub)
    requires forall b: Binding :: b.tenant == scope && b.subject == sub ==> (b in bs <==> b in bs')
    ensures CheckOutcome(e, scope, sub, act, res) == CheckOutcome(e', scope, sub, act, res)
  {
    CheckOnMemStore(e, bs, scope, sub, act, res);
    CheckOnMemStore(e', bs', scope, sub, act, res);
    if act in e.p {
      forall q | q in e.p[act] ensures Meets(e.h, bs, scope, sub, q, res) <==> Meets(e.h, bs', scope, sub, q, res) {
        if Meets(e.h, bs, scope, sub, q, res) {
          var b :| b in bs && Exact(b, scope, sub, Target(q, res)) && Rank(e.h, q.typ, b.role) >= Rank(e.h, q.typ, q.min);
          assert b in bs';
        }
        if Meets(e.h, bs', scope, sub, q, res) {
          var b :| b in bs' && Exact(b, scope, sub, Target(q, res)) && Rank(e.h, q.typ, b.role) >= Rank(e.h, q.typ, q.min);
          assert b in bs;
        }
      }
    }
  }
}
