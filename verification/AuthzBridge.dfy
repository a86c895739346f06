/** authz/rbacpermissionstore.go and authz/permissionset.go: the set engine run
    over the rank model, against the rank engine itself. */
module AuthzBridge {
  import opened Common
  import opened Authz
  import opened AuthzRBAC
  import Tenant

  datatype PermissionSetResult = PermissionSetResult(keys: set<string>, superuser: bool) {
    /** Superuser comes from the flag only; a key is just a key. */
    predicate Allows(act: Action)
    {
      superuser || act in keys
    }
  }

  /** What is remembered is what the store would answer. */
  ghost predicate MemoOk(e: RBAC, scope: Tenant.ID, sub: Subject, ranks: map<Resource, nat>)
  {
    forall t :: t in ranks ==> EffectiveRank(e, scope, sub, t) == Ok(ranks[t])
  }

  /** effRank */
  method MemoRank(e: RBAC, scope: Tenant.ID, sub: Subject, target: Resource, ranks: map<Resource, nat>)
    returns (r: Result<nat, Error>, ranks': map<Resource, nat>)
    requires MemoOk(e, scope, sub, ranks)
    ensures r == EffectiveRank(e, scope, sub, target) && MemoOk(e, scope, sub, ranks')
  {
    ranks' := ranks;
    if target in ranks {
      return Ok(ranks[target]), ranks;
    }
    r := Effective(e, scope, sub, target);
    if r.Ok? {
      ranks' := ranks[target := r.value];
    }
  }

  /** The body of the loop over the policy: one action's requirements. */
  method MemoDecide(e: RBAC, scope: Tenant.ID, sub: Subject, reqs: seq<Requirement>, res: Resource, ranks: map<Resource, nat>)
    returns (r: Result<bool, Error>, ranks': map<Resource, nat>)
    requires MemoOk(e, scope, sub, ranks)
    ensures r == Decide(e, scope, sub, reqs, res) && MemoOk(e, scope, sub, ranks')
  {
    ranks' := ranks;
    for i := 0 to |reqs|
      invariant MemoOk(e, scope, sub, ranks')
      invariant Decide(e, scope, sub, reqs, res) == Decide(e, scope, sub, reqs[i..], res)
    {
      var rank;
      rank, ranks' := MemoRank(e, scope, sub, Target(reqs[i], res), ranks');
      if rank.Err? {
        return Err(rank.error), ranks';
      }
      if rank.value >= Rank(e.h, reqs[i].typ, reqs[i].min) {
        return Ok(true), ranks';
      }
      assert reqs[i..][1..] == reqs[i + 1..];
    }
    r := Ok(false);
  }

  /** Some action in the policy cannot be evaluated for this subject and resource. */
  ghost predicate SomeActionFails(e: RBAC, scope: Tenant.ID, sub: Subject, res: Resource)
  {
    exists a :: a in e.p && Decide(e, scope, sub, e.p[a], res).Err?
  }

  function AllowedActions(e: RBAC, scope: Tenant.ID, sub: Subject, res: Resource): set<Action>
  {
    set a | a in e.p && Decide(e, scope, sub, e.p[a], res) == Ok(true)
  }

  /** PermissionsFor: the policy is visited in whatever order the map gives it,
      with one memo across all actions, and neither shows in the answer. */
  method PermissionsFor(e: RBAC, scope: Tenant.ID, sub: Subject, res: Resource) returns (r: Result<PermissionSetResult, Error>)
    ensures !Gate(scope, sub) ==> r == Err(TenantRequired)
    ensures Gate(scope, sub) ==>
      r == if SomeActionFails(e, scope, sub, res) then Err(StoreFailed)
           else Ok(PermissionSetResult(AllowedActions(e, scope, sub, res), false))
  {
    if !Gate(scope, sub) {
      return Err(TenantRequired);
    }
    var ranks: map<Resource, nat> := map[];
    var keys: set<string> := {};
    var left := e.p.Keys;
    while left != {}
      invariant left <= e.p.Keys && MemoOk(e, scope, sub, ranks)
      invariant forall a :: a in e.p && a !in left ==> Decide(e, scope, sub, e.p[a], res).Ok?
      invariant forall a :: a in keys <==> a in e.p && a !in left && Decide(e, scope, sub, e.p[a], res) == Ok(true)
      decreases |left|
    {
      var act :| act in left;
      left := left - {act};
      var d;
      d, ranks := MemoDecide(e, scope, sub, e.p[act], res, ranks);
      if d.Err? {
        OnlyStoreFails(e, scope, sub, e.p[act], res);
        return Err(d.error);
      }
      if d.value {
        keys := keys + {act};
      }
    }
    assert keys == AllowedActions(e, scope, sub, res);
    r := Ok(PermissionSetResult(keys, false));
  }

  lemma {:induction false} OnlyStoreFails(e: RBAC, scope: Tenant.ID, sub: Subject, reqs: seq<Requirement>, res: Resource)
    requires Decide(e, scope, sub, reqs, res).Err?
    ensures Decide(e, scope, sub, reqs, res) == Err(StoreFailed)
  {
    if EffectiveRank(e, scope, sub, Target(reqs[0], res)).Ok? {
      OnlyStoreFails(e, scope, sub, reqs[1..], res);
    }
  }

  /** Where the two engines part: the set engine evaluates the whole policy, so a
      store failure met by any other action fails this question too. */
  ghost predicate Parts(e: RBAC, scope: Tenant.ID, sub: Subject, act: Action, res: Resource)
  {
    && Gate(scope, sub) && act != ""
    && SomeActionFails(e, scope, sub, res)
    && CheckOutcome(e, scope, sub, act, res).Ok?
  }

  lemma AllowedIsDecided(e: RBAC, scope: Tenant.ID, sub: Subject, act: Action, res: Resource)
    requires Gate(scope, sub) && !SomeActionFails(e, scope, sub, res)
    ensures CheckOutcome(e, scope, sub, act, res) == Ok(act in AllowedActions(e, scope, sub, res))
  {
    if act in e.p {
      var d := Decide(e, scope, sub, e.p[act], res);
      assert d == Ok(d.value);
      if d.value {
        assert act in AllowedActions(e, scope, sub, res);
      }
    }
  }

  /** PermissionSet.Check over the bridge decides as RBAC.Check does, in every
      case but one, and in that one it refuses to answer. */
  method PermissionSetCheck(e: RBAC, scope: Tenant.ID, sub: Subject, act: Action, res: Resource) returns (r: Result<bool, Error>)
    requires e.Valid()
    ensures r == if Parts(e, scope, sub, act, res) then Err(StoreFailed) else CheckOutcome(e, scope, sub, act, res)
  {
    if !Gate(scope, sub) {
      return Err(TenantRequired);
    }
    if act == "" {
      return Ok(false);
    }
    var s := PermissionsFor(e, scope, sub, res);
    if act in e.p && CheckOutcome(e, scope, sub, act, res).Err? {
      OnlyStoreFails(e, scope, sub, e.p[act], res);
    }
    if s.Err? {
      return Err(StoreFailed);
    }
    AllowedIsDecided(e, scope, sub, act, res);
    r := Ok(s.value.Allows(act));
  }

  /** The engines are interchangeable exactly for the questions on which they do
      not part: never a different verdict, and a different error only when the
      store fails on some action of the policy other than the one asked about. */
  lemma EnginesAgree(e: RBAC, scope: Tenant.ID, sub: Subject, act: Action, res: Resource, r: Result<bool, Error>)
    requires r == if Parts(e, scope, sub, act, res) then Err(StoreFailed) else CheckOutcome(e, scope, sub, act, res)
    ensures r.Ok? ==> r == CheckOutcome(e, scope, sub, act, res)
    ensures r == Ok(true) ==> CheckOutcome(e, scope, sub, act, res) == Ok(true)
    ensures r != CheckOutcome(e, scope, sub, act, res) <==>
      && Gate(scope, sub) && act != "" && (act in e.p ==> Decide(e, scope, sub, e.p[act], res).Ok?)
      && exists a :: a in e.p && a != act && Decide(e, scope, sub, e.p[a], res).Err?
  {
  }

  /** A store that cannot answer about one type: RBAC allows reading a document,
      the set engine over the same inputs refuses to decide. */
  lemma PartsSomewhere() returns (e: RBAC, sub: Subject, res: Resource)
    ensures e.Valid() && CheckOutcome(e, Tenant.Single, sub, "doc.read", res) == Ok(true)
    ensures Parts(e, Tenant.Single, sub, "doc.read", res)
  {
    sub := Subject(Tenant.Single, "user", "u-1");
    res := Resource("doc", "d-1");
    var b := Binding(Tenant.Single, sub, res, "viewer");
    var store := Store(
      (scope: Tenant.ID, s: Subject, t: Resource) => if t.typ == "doc" then Ok([b]) else Err(StoreFailed),
      (scope: Tenant.ID, s: Subject, typ: string) => Err(StoreFailed),
      (scope: Tenant.ID, t: Resource) => Err(StoreFailed));
    var read, admin := Requirement("doc", "viewer"), Requirement("system", "root");
    var p: Policy := map["doc.read" := [read], "system.stop" := [admin]];
    e := RBAC(store, map["doc" := ["viewer"], "system" := ["root"]], p);
    assert e.p["doc.read"] == [read] && e.p["system.stop"] == [admin];
    assert Position(["viewer"], "viewer") == 1 && Position(["root"], "root") == 1;
    assert BestRank(e.h, [], Tenant.Single, sub, res) == 0;
    assert [b][..0] == [];
    assert BestRank(e.h, [b], Tenant.Single, sub, res) == 1;
    assert EffectiveRank(e, Tenant.Single, sub, Target(read, res)) == Ok(1);
    assert Decide(e, Tenant.Single, sub, [read], res) == Ok(true);
    assert Decide(e, Tenant.Single, sub, [admin], res).Err?;
  }

  method PermissionSetCheckBulk(e: RBAC, scope: Tenant.ID, reqs: seq<CheckRequest>) returns (r: Result<seq<bool>, Error>)
    requires e.Valid()
    ensures r.Ok? ==> |r.value| == |reqs| && forall i :: 0 <= i < |reqs| ==> Ask(e, scope, reqs[i]) == Ok(r.value[i])
    ensures r.Ok? <==> scope.Valid() && forall i :: 0 <= i < |reqs| ==>
      Ask(e, scope, reqs[i]).Ok? && !Parts(e, scope, reqs[i].subject, reqs[i].action, reqs[i].resource)
  {
    if !scope.Valid() {
      return Err(TenantRequired);
    }
    var out: seq<bool> := [];
    for i := 0 to |reqs|
      invariant |out| == i && forall j :: 0 <= j < i ==>
        Ask(e, scope, reqs[j]) == Ok(out[j]) && !Parts(e, scope, reqs[j].subject, reqs[j].action, reqs[j].resource)
    {
      var d := PermissionSetCheck(e, scope, reqs[i].subject, reqs[i].action, reqs[i].resource);
      if d.Err? {
        return Err(d.error);
      }
      out := out + [d.value];
    }
    r := Ok(out);
  }

  // ----- the delegated reverse queries -----

  /** PermissionSet.ListResources over ResourcesWithPermission: filtered, deduplicated and
      sorted once more, and still the rank engine's own answer. */
  method PermissionSetListResources(e: RBAC, scope: Tenant.ID, sub: Subject, act: Action, typ: string)
    returns (r: Result<(seq<Resource>, bool), Error>)
    requires e.Valid()
    ensures Gate(scope, sub) && act == "" ==> r == Ok(([], false))
    ensures !(Gate(scope, sub) && act == "") ==> ResourcesListed(e, scope, sub, act, typ, r)
  {
    if !Gate(scope, sub) {
      return Err(TenantRequired);
    }
    if act == "" {
      return Ok(([], false));
    }
    var listed := ListResources(e, scope, sub, act, typ);
    if listed.Err? {
      return listed;
    }
    var rs := listed.value.0;
    StringLessIsStrict();
    ListedAreConcrete(e, scope, sub, act, typ, listed);
    var seen: set<Resource> := {};
    var out: seq<Resource> := [];
    for i := 0 to |rs|
      invariant out == rs[..i] && forall x :: x in seen <==> x in out
    {
      assert rs[i] in rs;
      if rs[i].typ != typ || rs[i].id == "" || rs[i] in seen {
        continue;
      }
      seen := seen + {rs[i]};
      out := out + [rs[i]];
    }
    assert out == rs;
    var sorted := Sort(out, ByID);
    SameElementsSameList(sorted, rs, ByID);
    r := Ok((sorted, listed.value.1));
  }

  lemma ListedAreConcrete(e: RBAC, scope: Tenant.ID, sub: Subject, act: Action, typ: string, r: Result<(seq<Resource>, bool), Error>)
    requires ResourcesListed(e, scope, sub, act, typ, r) && r.Ok?
    ensures Increasing(r.value.0, ByID) && forall res :: res in r.value.0 ==> res.typ == typ && res.id != ""
  {
  }

  /** PermissionSet.ListSubjects over SubjectsWithPermission. */
  method PermissionSetListSubjects(e: RBAC, scope: Tenant.ID, act: Action, res: Resource) returns (r: Result<(seq<HomeSubject>, bool), Error>)
    ensures scope.Valid() && act == "" ==> r == Ok(([], false))
    ensures !(scope.Valid() && act == "") ==> SubjectsListed(e, scope, act, res, r)
  {
    if !scope.Valid() {
      return Err(TenantRequired);
    }
    if act == "" {
      return Ok(([], false));
    }
    var listed := ListSubjects(e, scope, act, res);
    if listed.Err? {
      return listed;
    }
    var subs := listed.value.0;
    var seen: set<HomeSubject> := {};
    var out: seq<HomeSubject> := [];
    SubjectLessIsStrict();
    for i := 0 to |subs|
      invariant out == subs[..i] && forall x :: x in seen <==> x in out
    {
      if subs[i] in seen {
        continue;
      }
      seen := seen + {subs[i]};
      out := out + [subs[i]];
    }
    assert out == subs;
    var sorted := Sort(out, SubjectLess);
    SameElementsSameList(sorted, subs, SubjectLess);
    r := Ok((sorted, false));
  }
}
