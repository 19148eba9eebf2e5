/**
 The dependency resolver: a depth-first emission with a stack of packages being
 visited. `Emit`, `EmitAll` and `Resolve` say what one call computes, `Emission` is
 the state the recursion mutates, and the theorems say what a resolution means in
 terms of dependency paths alone.
 */
module Resolver {
  import opened Wrappers

  datatype PackageMeta = PackageMeta(id: string, version: string, depends: seq<string>)

  datatype ResolveError =
    | MissingDependency(package: string, missing: string)
    | DependencyCycle(chain: seq<string>)

  type ById = m: map<string, PackageMeta> | forall k | k in m :: m[k].id == k

  const REQUEST := "<request>"

  /** For a repeated id the last index entry wins. */
  function Lookup(index: seq<PackageMeta>): (m: ById)
    ensures m.Keys == Ids(index)
    ensures forall k | k in m :: m[k] in index
  {
    if index == [] then map[]
    else
      var last := index[|index| - 1];
      assert index == index[..|index| - 1] + [last];
      Lookup(index[..|index| - 1])[last.id := last]
  }

  lemma {:induction false} LastEntryWins(index: seq<PackageMeta>, i: nat)
    requires i < |index| && forall j | i < j < |index| :: index[j].id != index[i].id
    ensures index[i].id in Lookup(index) && Lookup(index)[index[i].id] == index[i]
  {
    if i < |index| - 1 { LastEntryWins(index[..|index| - 1], i); }
  }

  function Ids(plan: seq<PackageMeta>): set<string> { set p | p in plan :: p.id }

  function Elements(s: seq<string>): set<string> { set x | x in s }

  // ---------------------------------------------------------------- what is computed

  function Emit(m: ById, visiting: seq<string>, plan: seq<PackageMeta>, id: string)
    : Result<seq<PackageMeta>, ResolveError>
    decreases |m.Keys - Elements(visiting)|, 0
  {
    if id in Ids(plan) then Ok(plan)
    else if id in visiting then Err(DependencyCycle(visiting + [id]))
    else if id !in m then Err(MissingDependency(if visiting == [] then "" else visiting[|visiting| - 1], id))
    else
      Deeper(m, visiting, id);
      match EmitAll(m, visiting + [id], plan, m[id].depends)
      case Err(e) => Err(e)
      case Ok(p) => Ok(p + [m[id]])
  }

  function EmitAll(m: ById, visiting: seq<string>, plan: seq<PackageMeta>, ids: seq<string>)
    : Result<seq<PackageMeta>, ResolveError>
    decreases |m.Keys - Elements(visiting)|, |ids| + 1
  {
    if ids == [] then Ok(plan)
    else match Emit(m, visiting, plan, ids[0])
      case Err(e) => Err(e)
      case Ok(p) => EmitAll(m, visiting, p, ids[1..])
  }

  /** The recursion ends because the visited path only ever gains known ids it does not hold yet. */
  lemma Deeper(m: ById, visiting: seq<string>, id: string)
    requires id in m && id !in visiting
    ensures |m.Keys - Elements(visiting + [id])| < |m.Keys - Elements(visiting)|
  {
    var before, after := m.Keys - Elements(visiting), m.Keys - Elements(visiting + [id]);
    assert id in visiting + [id];
    assert forall x | x in visiting :: x in visiting + [id];
    assert after <= before - {id};
    SubsetIsSmaller(after, before - {id});
  }

  lemma SubsetIsSmaller<T>(s: set<T>, t: set<T>)
    requires s <= t
    ensures |s| <= |t|
  {
    assert |t| == |s| + |t - s| by { assert t == s + (t - s); }
  }

  function FirstUnknown(m: ById, requested: seq<string>): Option<string> {
    if requested == [] then None
    else if requested[0] !in m then Some(requested[0])
    else FirstUnknown(m, requested[1..])
  }

  function Resolve(index: seq<PackageMeta>, requested: seq<string>): Result<seq<PackageMeta>, ResolveError> {
    var m := Lookup(index);
    match FirstUnknown(m, requested)
    case Some(r) => Err(MissingDependency(REQUEST, r))
    case None => EmitAll(m, [], [], requested)
  }

  // ---------------------------------------------------------------- the procedure

  class Emission {
    var plan: seq<PackageMeta>
    var placed: set<string>
    var visiting: seq<string>

    constructor ()
      ensures plan == [] && placed == {} && visiting == []
    {
      plan, placed, visiting := [], {}, [];
    }

    ghost predicate Valid() reads this { placed == Ids(plan) }

    method EmitPackage(id: string, byId: ById) returns (r: Option<ResolveError>)
      requires Valid()
      modifies this
      ensures Valid()
      ensures match Emit(byId, old(visiting), old(plan), id)
        case Ok(p) => r == None && plan == p && visiting == old(visiting)
        case Err(e) => r == Some(e)
      decreases |byId.Keys - Elements(visiting)|, 0
    {
      if id in placed { return None; }
      if id in visiting { return Some(DependencyCycle(visiting + [id])); }
      if id !in byId {
        return Some(MissingDependency(if visiting == [] then "" else visiting[|visiting| - 1], id));
      }
      var meta := byId[id];
      Deeper(byId, visiting, id);
      visiting := visiting + [id];
      r := EmitDependencies(meta.depends, byId);
      if r == None { Place(meta); }
    }

    method EmitDependencies(ids: seq<string>, byId: ById) returns (r: Option<ResolveError>)
      requires Valid()
      modifies this
      ensures Valid()
      ensures match EmitAll(byId, old(visiting), old(plan), ids)
        case Ok(p) => r == None && plan == p && visiting == old(visiting)
        case Err(e) => r == Some(e)
      decreases |byId.Keys - Elements(visiting)|, 1
    {
      for i := 0 to |ids|
        invariant Valid() && visiting == old(visiting)
        invariant EmitAll(byId, visiting, old(plan), ids) == EmitAll(byId, visiting, plan, ids[i..])
      {
        r := EmitPackage(ids[i], byId);
        if r.Some? { return; }
        assert ids[i..][1..] == ids[i + 1..];
      }
      r := None;
    }

    /** The package is no longer being visited, but placed. */
    method Place(meta: PackageMeta)
      requires Valid() && visiting != []
      modifies this
      ensures Valid() && plan == old(plan) + [meta] && visiting == old(visiting)[..|old(visiting)| - 1]
    {
      visiting := visiting[..|visiting| - 1];
      placed := placed + {meta.id};
      IdsAppend(plan, meta);
      plan := plan + [meta];
    }
  }

  method ResolvePlan(index: seq<PackageMeta>, requested: seq<string>)
    returns (r: Result<seq<PackageMeta>, ResolveError>)
    ensures r == Resolve(index, requested)
    ensures r.Ok? <==> !MissingReachable(Lookup(index), requested) && !CycleReachable(Lookup(index), requested)
    ensures r.Ok? ==> IsPlanFor(Lookup(index), requested, r.value)
    ensures r.Err? ==> IsWitness(Lookup(index), requested, r.error)
  {
    r := ResolveAll(index, requested);
    OkExactlyWhenSound(index, requested);
  }

  method ResolveAll(index: seq<PackageMeta>, requested: seq<string>)
    returns (r: Result<seq<PackageMeta>, ResolveError>)
    ensures r == Resolve(index, requested)
  {
    var byId := Lookup(index);
    for i := 0 to |requested|
      invariant FirstUnknown(byId, requested) == FirstUnknown(byId, requested[i..])
    {
      if requested[i] !in byId { return Err(MissingDependency(REQUEST, requested[i])); }
      assert requested[i..][1..] == requested[i + 1..];
    }
    var state := new Emission();
    for i := 0 to |requested|
      invariant state.Valid() && state.visiting == [] && fresh(state)
      invariant EmitAll(byId, [], [], requested) == EmitAll(byId, [], state.plan, requested[i..])
    {
      var e := state.EmitPackage(requested[i], byId);
      if e.Some? { return Err(e.value); }
      assert requested[i..][1..] == requested[i + 1..];
    }
    return Ok(state.plan);
  }

  // ---------------------------------------------------------------- dependency paths

  function Last(p: seq<string>): string
    requires p != []
  {
    p[|p| - 1]
  }

  ghost predicate IsPath(m: ById, p: seq<string>) {
    forall i | 0 <= i < |p| - 1 :: p[i] in m && p[i + 1] in m[p[i]].depends
  }

  ghost predicate IsPathFrom(m: ById, requested: seq<string>, p: seq<string>) {
    p != [] && p[0] in requested && IsPath(m, p)
  }

  ghost predicate Reachable(m: ById, requested: seq<string>, x: string) {
    exists p :: IsPathFrom(m, requested, p) && Last(p) == x
  }

  ghost predicate MissingReachable(m: ById, requested: seq<string>) {
    exists x :: Reachable(m, requested, x) && x !in m
  }

  ghost predicate EndsInCycle(p: seq<string>)
    requires p != []
  {
    Last(p) in p[..|p| - 1]
  }

  ghost predicate CycleReachable(m: ById, requested: seq<string>) {
    exists p :: IsPathFrom(m, requested, p) && EndsInCycle(p)
  }

  /** What an error asserts about the index, true of it. */
  ghost predicate IsWitness(m: ById, requested: seq<string>, e: ResolveError) {
    match e
    case MissingDependency(package, missing) =>
      && missing !in m
      && ((package == REQUEST && missing in requested)
          || (package in m && Reachable(m, requested, package) && missing in m[package].depends))
    case DependencyCycle(chain) => IsPathFrom(m, requested, chain) && EndsInCycle(chain)
  }

  /** Each package once, as the index has it, after everything it depends on. */
  ghost predicate IsOrdered(m: ById, plan: seq<PackageMeta>) {
    forall i | 0 <= i < |plan| ::
      && plan[i].id in m && m[plan[i].id] == plan[i]
      && plan[i].id !in Ids(plan[..i])
      && forall d | d in plan[i].depends :: d in Ids(plan[..i])
  }

  ghost predicate AllReachable(m: ById, requested: seq<string>, plan: seq<PackageMeta>) {
    forall p | p in plan :: Reachable(m, requested, p.id)
  }

  ghost predicate IsPlanFor(m: ById, requested: seq<string>, plan: seq<PackageMeta>) {
    IsOrdered(m, plan) && forall x :: x in Ids(plan) <==> Reachable(m, requested, x)
  }

  // ---------------------------------------------------------------- soundness of the emission

  ghost predicate GoodEmission(m: ById, requested: seq<string>, visiting: seq<string>, plan: seq<PackageMeta>,
                               r: Result<seq<PackageMeta>, ResolveError>)
  {
    match r
    case Err(e) => IsWitness(m, requested, e)
    case Ok(p) =>
      && plan <= p && IsOrdered(m, p) && AllReachable(m, requested, p)
      && forall x | x in Ids(p) && x !in Ids(plan) :: x !in visiting
  }

  lemma ExtendPath(m: ById, requested: seq<string>, visiting: seq<string>, id: string, d: string)
    requires IsPathFrom(m, requested, visiting + [id]) && id in m && d in m[id].depends
    ensures IsPathFrom(m, requested, visiting + [id] + [d])
  {
    var p, q := visiting + [id], visiting + [id] + [d];
    forall i | 0 <= i < |q| - 1 ensures q[i] in m && q[i + 1] in m[q[i]].depends {
      if i < |p| - 1 { assert q[i] == p[i] && q[i + 1] == p[i + 1]; }
    }
  }

  lemma PartOfPath(m: ById, p: seq<string>, i: nat, j: nat)
    requires IsPath(m, p) && i <= j <= |p|
    ensures IsPath(m, p[i..j])
  {
    var q := p[i..j];
    forall k | 0 <= k < |q| - 1 ensures q[k] in m && q[k + 1] in m[q[k]].depends {
      assert q[k] == p[i + k] && q[k + 1] == p[i + k + 1];
    }
  }

  lemma PlaceLast(m: ById, plan: seq<PackageMeta>, id: string)
    requires IsOrdered(m, plan) && id in m && id !in Ids(plan)
    requires forall d | d in m[id].depends :: d in Ids(plan)
    ensures IsOrdered(m, plan + [m[id]])
  {
    var p := plan + [m[id]];
    forall i | 0 <= i < |p|
      ensures p[i].id in m && m[p[i].id] == p[i] && p[i].id !in Ids(p[..i])
      ensures forall d | d in p[i].depends :: d in Ids(p[..i])
    {
      assert p[..i] == plan[..i];
      assert i == |plan| ==> plan[..i] == plan;
    }
  }

  lemma IdsOfPrefix(plan: seq<PackageMeta>, p: seq<PackageMeta>)
    requires plan <= p
    ensures Ids(plan) <= Ids(p)
  {
    forall q | q in plan ensures q in p {
      var i :| 0 <= i < |plan| && plan[i] == q;
      assert p[i] == q;
    }
  }

  lemma {:induction false} EmitIsSound(m: ById, requested: seq<string>, visiting: seq<string>, plan: seq<PackageMeta>,
      id: string)
    requires IsOrdered(m, plan) && AllReachable(m, requested, plan)
    requires IsPathFrom(m, requested, visiting + [id]) && (visiting == [] ==> id in m)
    ensures GoodEmission(m, requested, visiting, plan, Emit(m, visiting, plan, id))
    ensures Emit(m, visiting, plan, id).Ok? ==> id in Ids(Emit(m, visiting, plan, id).value)
    decreases |m.Keys - Elements(visiting)|, 0
  {
    var path := visiting + [id];
    if id in Ids(plan) {
    } else if id in visiting {
      assert path[..|path| - 1] == visiting;
    } else if id !in m {
      MissingIsWitnessed(m, requested, visiting, id);
    } else {
      Deeper(m, visiting, id);
      forall d | d in m[id].depends ensures IsPathFrom(m, requested, path + [d]) {
        ExtendPath(m, requested, visiting, id, d);
      }
      EmitAllIsSound(m, requested, path, plan, m[id].depends);
      var r := EmitAll(m, path, plan, m[id].depends);
      if r.Ok? {
        DependenciesThenPackage(m, requested, visiting, plan, id, r.value);
      }
    }
  }

  lemma ReachedByPath(m: ById, requested: seq<string>, plan: seq<PackageMeta>, visiting: seq<string>, id: string)
    requires AllReachable(m, requested, plan) && id in m && IsPathFrom(m, requested, visiting + [id])
    ensures AllReachable(m, requested, plan + [m[id]])
  {
    assert Last(visiting + [id]) == id;
  }

  lemma DependenciesThenPackage(m: ById, requested: seq<string>, visiting: seq<string>, plan: seq<PackageMeta>,
                                id: string, deps: seq<PackageMeta>)
    requires id in m && id !in Ids(plan) && id !in visiting && IsPathFrom(m, requested, visiting + [id])
    requires GoodEmission(m, requested, visiting + [id], plan, Ok(deps))
    requires forall d | d in m[id].depends :: d in Ids(deps)
    ensures GoodEmission(m, requested, visiting, plan, Ok(deps + [m[id]]))
    ensures id in Ids(deps + [m[id]])
  {
    var path, all := visiting + [id], deps + [m[id]];
    assert id in path && forall x | x in visiting :: x in path;
    assert IsOrdered(m, all) by { PlaceLast(m, deps, id); }
    assert AllReachable(m, requested, all) by { ReachedByPath(m, requested, deps, visiting, id); }
    assert plan <= all;
    IdsAppend(deps, m[id]);
  }

  lemma IdsAppend(plan: seq<PackageMeta>, p: PackageMeta)
    ensures Ids(plan + [p]) == Ids(plan) + {p.id}
  {
    var q := plan + [p];
    assert q[|plan|] == p;
    assert forall x | x in plan :: x in q;
  }

  lemma MissingIsWitnessed(m: ById, requested: seq<string>, visiting: seq<string>, id: string)
    requires visiting != [] && IsPathFrom(m, requested, visiting + [id]) && id !in m
    ensures IsWitness(m, requested, MissingDependency(Last(visiting), id))
  {
    var path := visiting + [id];
    var k := |visiting| - 1;
    assert path[k] == visiting[k] && path[k + 1] == id;
    PartOfPath(m, path, 0, |visiting|);
    assert path[0..|visiting|] == visiting;
    assert IsPathFrom(m, requested, visiting);
  }

  lemma {:induction false} EmitAllIsSound(m: ById, requested: seq<string>, visiting: seq<string>,
      plan: seq<PackageMeta>, ids: seq<string>)
    requires IsOrdered(m, plan) && AllReachable(m, requested, plan)
    requires forall d | d in ids :: IsPathFrom(m, requested, visiting + [d])
    requires visiting == [] ==> forall d | d in ids :: d in m
    ensures GoodEmission(m, requested, visiting, plan, EmitAll(m, visiting, plan, ids))
    ensures EmitAll(m, visiting, plan, ids).Ok? ==>
      forall d | d in ids :: d in Ids(EmitAll(m, visiting, plan, ids).value)
    decreases |m.Keys - Elements(visiting)|, |ids| + 1
  {
    if ids != [] {
      EmitIsSound(m, requested, visiting, plan, ids[0]);
      var first := Emit(m, visiting, plan, ids[0]);
      if first.Ok? {
        EmitAllIsSound(m, requested, visiting, first.value, ids[1..]);
        var rest := EmitAll(m, visiting, first.value, ids[1..]);
        if rest.Ok? {
          IdsOfPrefix(first.value, rest.value);
          assert forall d | d in ids :: d == ids[0] || d in ids[1..];
        }
      }
    }
  }

  // ---------------------------------------------------------------- theorems

  /** The error about a request is about the first one that the index does not have. */
  lemma {:induction false} FirstUnknownIsFirst(m: ById, requested: seq<string>, i: nat)
    requires i < |requested| && requested[i] !in m && forall j | 0 <= j < i :: requested[j] in m
    ensures FirstUnknown(m, requested) == Some(requested[i])
  {
    if i > 0 { FirstUnknownIsFirst(m, requested[1..], i - 1); }
  }

  lemma {:induction false} FirstUnknownIsUnknown(m: ById, requested: seq<string>)
    ensures match FirstUnknown(m, requested)
      case Some(r) => r in requested && r !in m
      case None => forall r | r in requested :: r in m
  {
    if requested != [] {
      FirstUnknownIsUnknown(m, requested[1..]);
      assert requested == [requested[0]] + requested[1..];
    }
  }

  lemma ResolveIsSound(index: seq<PackageMeta>, requested: seq<string>)
    ensures var m, r := Lookup(index), Resolve(index, requested);
      && GoodEmission(m, requested, [], [], r)
      && (r.Ok? ==> forall x | x in requested :: x in Ids(r.value))
  {
    var m := Lookup(index);
    FirstUnknownIsUnknown(m, requested);
    if FirstUnknown(m, requested) == None {
      assert forall x | x in requested :: IsPathFrom(m, requested, [] + [x]);
      EmitAllIsSound(m, requested, [], [], requested);
    }
  }

  lemma {:induction false} PathStaysInPlan(m: ById, plan: seq<PackageMeta>, p: seq<string>)
    requires IsOrdered(m, plan) && p != [] && IsPath(m, p) && p[0] in Ids(plan)
    ensures forall i | 0 <= i < |p| :: p[i] in Ids(plan)
  {
    if |p| > 1 {
      var k :| 0 <= k < |plan| && plan[k].id == p[0];
      assert p[0 + 1] in Ids(plan[..k]);
      IdsOfPrefix(plan[..k], plan);
      PartOfPath(m, p, 1, |p|);
      assert p[1..|p|] == p[1..];
      PathStaysInPlan(m, plan, p[1..]);
      assert forall i | 1 <= i < |p| :: p[i] == p[1..][i - 1];
    }
  }

  /** Along a dependency path the plan is left behind towards its front. */
  lemma {:induction false} PathDescends(m: ById, plan: seq<PackageMeta>, p: seq<string>, k: nat)
    requires IsOrdered(m, plan) && k < |plan| && p != [] && IsPath(m, p) && p[0] == plan[k].id
    ensures forall i | 0 < i < |p| :: p[i] in Ids(plan[..k])
    decreases |p|
  {
    if |p| > 1 {
      assert p[0 + 1] in Ids(plan[..k]);
      var j :| 0 <= j < k && plan[..k][j].id == p[1];
      PartOfPath(m, p, 1, |p|);
      assert p[1..|p|] == p[1..];
      PathDescends(m, plan, p[1..], j);
      assert plan[..j] <= plan[..k];
      IdsOfPrefix(plan[..j], plan[..k]);
      assert forall i | 1 < i < |p| :: p[i] == p[1..][i - 1];
    }
  }

  lemma OrderedPlanHasNoCycle(m: ById, requested: seq<string>, plan: seq<PackageMeta>, p: seq<string>)
    requires IsOrdered(m, plan) && (forall x | x in requested :: x in Ids(plan))
    requires IsPathFrom(m, requested, p)
    ensures !EndsInCycle(p)
  {
    PathStaysInPlan(m, plan, p);
    if EndsInCycle(p) {
      var i :| 0 <= i < |p| - 1 && p[..|p| - 1][i] == Last(p);
      var q := p[i..];
      PartOfPath(m, p, i, |p|);
      assert p[i..|p|] == q && q[|q| - 1] == q[0];
      var k :| 0 <= k < |plan| && plan[k].id == q[0];
      PathDescends(m, plan, q, k);
    }
  }

  lemma PlanIsTheReachablePart(index: seq<PackageMeta>, requested: seq<string>)
    requires Resolve(index, requested).Ok?
    ensures IsPlanFor(Lookup(index), requested, Resolve(index, requested).value)
  {
    ResolveIsSound(index, requested);
    var m, plan := Lookup(index), Resolve(index, requested).value;
    forall x ensures x in Ids(plan) <==> Reachable(m, requested, x) {
      if Reachable(m, requested, x) {
        var p :| IsPathFrom(m, requested, p) && Last(p) == x;
        PathStaysInPlan(m, plan, p);
      }
    }
  }

  /** Resolution succeeds exactly when no reachable id is missing and no reachable path closes a cycle. */
  lemma OkExactlyWhenSound(index: seq<PackageMeta>, requested: seq<string>)
    ensures var m, r := Lookup(index), Resolve(index, requested);
      && (r.Ok? <==> !MissingReachable(m, requested) && !CycleReachable(m, requested))
      && (r.Ok? ==> IsPlanFor(m, requested, r.value))
      && (r.Err? ==> IsWitness(m, requested, r.error))
  {
    var m, r := Lookup(index), Resolve(index, requested);
    ResolveIsSound(index, requested);
    if r.Ok? {
      PlanIsTheReachablePart(index, requested);
      assert forall x | x in Ids(r.value) :: x in m;
      forall p | IsPathFrom(m, requested, p) ensures !EndsInCycle(p) {
        OrderedPlanHasNoCycle(m, requested, r.value, p);
      }
    } else {
      WitnessRefutes(m, requested, r.error);
    }
  }

  lemma WitnessRefutes(m: ById, requested: seq<string>, e: ResolveError)
    requires IsWitness(m, requested, e)
    ensures if e.DependencyCycle? then CycleReachable(m, requested) else MissingReachable(m, requested)
  {
    if e.MissingDependency? {
      var missing := e.missing;
      if missing in requested {
        assert IsPathFrom(m, requested, [missing]) && Last([missing]) == missing;
      } else {
        var p :| IsPathFrom(m, requested, p) && Last(p) == e.package;
        assert p == p[..|p| - 1] + [e.package];
        ExtendPath(m, requested, p[..|p| - 1], e.package, missing);
        assert Last(p[..|p| - 1] + [e.package] + [missing]) == missing;
      }
      assert Reachable(m, requested, missing);
    }
  }

  /** Entries of an index never disagree about an id. */
  ghost predicate IdsAgree(index: seq<PackageMeta>) {
    forall p, q | p in index && q in index && p.id == q.id :: p == q
  }

  /** The plan does not depend on the order, or on repetitions, of such an index. */
  lemma IndexOrderIsIrrelevant(index1: seq<PackageMeta>, index2: seq<PackageMeta>, requested: seq<string>)
    requires IdsAgree(index1)
    requires forall p :: p in index1 <==> p in index2
    ensures Resolve(index1, requested) == Resolve(index2, requested)
  {
    var m1, m2 := Lookup(index1), Lookup(index2);
    assert m1.Keys == m2.Keys;
    assert forall k | k in m1 :: m1[k] == m2[k];
    assert m1 == m2;
  }

  // ---- the order of requested packages: the last step is one, but they need not all come last

  lemma {:induction false} LastEmittedIsRequested(
    m: ById, plan: seq<PackageMeta>, ids: seq<string>, requested: seq<string>, p: seq<PackageMeta>)
    requires plan == [] || plan[|plan| - 1].id in requested
    requires EmitAll(m, [], plan, ids) == Ok(p) && forall x | x in ids :: x in requested
    ensures p == [] || p[|p| - 1].id in requested
    decreases |ids|
  {
    if ids != [] {
      LastEmittedIsRequested(m, Emit(m, [], plan, ids[0]).value, ids[1..], requested, p);
    }
  }

  lemma NotEmpty(plan: seq<PackageMeta>, id: string)
    requires id in Ids(plan)
    ensures plan != []
  {
  }

  lemma OkIsEmission(index: seq<PackageMeta>, requested: seq<string>, plan: seq<PackageMeta>)
    requires Resolve(index, requested) == Ok(plan)
    ensures EmitAll(Lookup(index), [], [], requested) == Ok(plan)
  {
  }

  lemma LastStepIsRequested(index: seq<PackageMeta>, requested: seq<string>, plan: seq<PackageMeta>)
    requires Resolve(index, requested) == Ok(plan) && requested != []
    ensures plan != [] && plan[|plan| - 1].id in requested
  {
    assert plan != [] by {
      ResolveIsSound(index, requested);
      NotEmpty(plan, requested[0]);
    }
    OkIsEmission(index, requested, plan);
    LastEmittedIsRequested(Lookup(index), [], requested, requested, plan);
  }

  // ---- when they do

  /** No unrequested step comes after a requested one. */
  ghost predicate RequestedLast(plan: seq<PackageMeta>, requested: seq<string>) {
    forall i, j | 0 <= i < j < |plan| && plan[i].id in requested :: plan[j].id in requested
  }

  /** Whatever is needed without being requested is needed by each request. */
  ghost predicate SharedByAll(m: ById, requested: seq<string>) {
    forall x, r | Reachable(m, requested, x) && x !in requested && r in requested :: Reachable(m, [r], x)
  }

  lemma OncePerPlan(m: ById, plan: seq<PackageMeta>, i: nat, j: nat)
    requires IsOrdered(m, plan) && i < j < |plan|
    ensures plan[i].id != plan[j].id
  {
    assert plan[..j][i] == plan[i];
  }

  lemma OnePlaceEach(m: ById, plan: seq<PackageMeta>, i: nat, j: nat)
    requires IsOrdered(m, plan) && i < |plan| && j < |plan|
    ensures plan[i].id == plan[j].id ==> i == j
  {
    if i < j { OncePerPlan(m, plan, i, j); }
    if j < i { OncePerPlan(m, plan, j, i); }
  }

  lemma NeededComesBefore(m: ById, plan: seq<PackageMeta>, i: nat, j: nat)
    requires IsOrdered(m, plan) && i < |plan| && j < |plan| && i != j && Reachable(m, [plan[i].id], plan[j].id)
    ensures j < i
  {
    var p :| IsPathFrom(m, [plan[i].id], p) && Last(p) == plan[j].id;
    PathDescends(m, plan, p, i);
    OnePlaceEach(m, plan, i, j);
    if |p| > 1 {
      var k :| 0 <= k < i && plan[..i][k].id == plan[j].id;
      OnePlaceEach(m, plan, k, j);
    }
  }

  lemma SharedMeansLast(m: ById, requested: seq<string>, plan: seq<PackageMeta>)
    requires IsOrdered(m, plan) && AllReachable(m, requested, plan) && SharedByAll(m, requested)
    ensures RequestedLast(plan, requested)
  {
    forall i, j | 0 <= i < j < |plan| && plan[i].id in requested ensures plan[j].id in requested {
      if plan[j].id !in requested {
        assert plan[j] in plan;
        NeededComesBefore(m, plan, i, j);
      }
    }
  }

  /** The first request is emitted with everything it needs, before the rest. */
  lemma FirstIsEmittedFirst(index: seq<PackageMeta>, r: string, rest: seq<string>, plan: seq<PackageMeta>)
    returns (first: seq<PackageMeta>)
    requires Resolve(index, [r] + rest) == Ok(plan)
    ensures first <= plan && AllReachable(Lookup(index), [r], first) && r in Ids(first)
  {
    var m, requested := Lookup(index), [r] + rest;
    OkIsEmission(index, requested, plan);
    FirstUnknownIsUnknown(m, requested);
    assert requested[0] == r && requested[1..] == rest && r in m;
    first := Emit(m, [], [], r).value;
    assert [] + [r] == [r] && IsPathFrom(m, [r], [r]);
    EmitIsSound(m, [r], [], [], r);
    RestOnlyAppends(m, requested, first, rest, plan);
  }

  /** After the first request only requests may follow. */
  lemma LastMeansNeededByFirst(index: seq<PackageMeta>, r: string, rest: seq<string>, plan: seq<PackageMeta>, x: string)
    requires Resolve(index, [r] + rest) == Ok(plan) && RequestedLast(plan, [r] + rest)
    requires x in Ids(plan) && x !in [r] + rest
    ensures Reachable(Lookup(index), [r], x)
  {
    var first := FirstIsEmittedFirst(index, r, rest, plan);
    var k :| 0 <= k < |plan| && plan[k].id == x;
    var i :| 0 <= i < |first| && first[i].id == r;
    assert plan[i] == first[i] && r in [r] + rest;
    assert plan[k] == first[k] && first[k] in first;
  }

  lemma RestOnlyAppends(m: ById, requested: seq<string>, first: seq<PackageMeta>, rest: seq<string>,
      plan: seq<PackageMeta>)
    requires IsOrdered(m, first) && requested != [] && rest == requested[1..] && (forall x | x in requested :: x in m)
    requires AllReachable(m, [requested[0]], first) && EmitAll(m, [], first, rest) == Ok(plan)
    ensures first <= plan
  {
    forall p | p in first ensures Reachable(m, requested, p.id) {
      var path :| IsPathFrom(m, [requested[0]], path) && Last(path) == p.id;
      assert IsPathFrom(m, requested, path);
    }
    assert forall x | x in rest :: IsPathFrom(m, requested, [] + [x]);
    EmitAllIsSound(m, requested, [], first, rest);
  }

  lemma ReachableIgnoresOrder(m: ById, requested: seq<string>, order: seq<string>)
    requires Elements(order) == Elements(requested)
    ensures forall x :: Reachable(m, requested, x) <==> Reachable(m, order, x)
    ensures CycleReachable(m, requested) <==> CycleReachable(m, order)
  {
    assert forall r :: (r in order <==> r in Elements(order)) && (r in requested <==> r in Elements(requested));
    assert forall p :: IsPathFrom(m, requested, p) <==> IsPathFrom(m, order, p);
  }

  /** Does this order of the requests resolve to a plan that puts them last? */
  ghost predicate ComesLast(index: seq<PackageMeta>, order: seq<string>) {
    Resolve(index, order).Ok? && RequestedLast(Resolve(index, order).value, order)
  }

  lemma SharedComesLast(index: seq<PackageMeta>, requested: seq<string>, order: seq<string>)
    requires Resolve(index, requested).Ok? && SharedByAll(Lookup(index), requested)
    requires Elements(order) == Elements(requested)
    ensures ComesLast(index, order)
  {
    var m := Lookup(index);
    OkExactlyWhenSound(index, requested);
    OkExactlyWhenSound(index, order);
    ReachableIgnoresOrder(m, requested, order);
    assert forall r :: (r in order <==> r in Elements(order)) && (r in requested <==> r in Elements(requested));
    var plan := Resolve(index, order).value;
    assert AllReachable(m, order, plan) by { assert forall p | p in plan :: p.id in Ids(plan); }
    SharedMeansLast(m, order, plan);
  }

  /**
   The requested packages come last, in whatever order they are requested, exactly when each package
   that is needed without being requested is needed by every one of them.
   */
  lemma RequestedComeLastExactly(index: seq<PackageMeta>, requested: seq<string>)
    requires Resolve(index, requested).Ok?
    ensures (forall order | Elements(order) == Elements(requested) :: ComesLast(index, order)) <==>
            SharedByAll(Lookup(index), requested)
  {
    var m := Lookup(index);
    if SharedByAll(m, requested) {
      forall order | Elements(order) == Elements(requested) ensures ComesLast(index, order) {
        SharedComesLast(index, requested, order);
      }
    }
    if forall order | Elements(order) == Elements(requested) :: ComesLast(index, order) {
      forall x, r | Reachable(m, requested, x) && x !in requested && r in requested ensures Reachable(m, [r], x) {
        var order := [r] + requested;
        assert Elements(order) == Elements(requested);
        PlanIsTheReachablePart(index, order);
        ReachableIgnoresOrder(m, requested, order);
        LastMeansNeededByFirst(index, r, requested, Resolve(index, order).value, x);
      }
    }
  }

  /** A single requested package always comes last. */
  lemma SingleRequestComesLast(index: seq<PackageMeta>, r: string)
    requires Resolve(index, [r]).Ok?
    ensures ComesLast(index, [r])
  {
    SharedComesLast(index, [r], [r]);
  }

  const LIB := PackageMeta("lib", "1", [])
  const MID := PackageMeta("mid", "1", ["lib"])
  const APP := PackageMeta("app", "1", ["mid"])

  lemma EmitWithOneDependency(m: ById, visiting: seq<string>, plan: seq<PackageMeta>, id: string,
      deps: seq<PackageMeta>)
    requires id in m && id !in visiting && id !in Ids(plan) && |m[id].depends| <= 1
    requires if m[id].depends == [] then deps == plan
             else Emit(m, visiting + [id], plan, m[id].depends[0]) == Ok(deps)
    ensures Emit(m, visiting, plan, id) == Ok(deps + [m[id]])
  {
    if m[id].depends != [] {
      assert m[id].depends[1..] == [];
      assert EmitAll(m, visiting + [id], deps, []) == Ok(deps);
    }
  }

  lemma LookupAppend(index: seq<PackageMeta>, p: PackageMeta)
    ensures Lookup(index + [p]) == Lookup(index)[p.id := p]
  {
    assert (index + [p])[..|index|] == index;
  }

  lemma LookupThree(p: PackageMeta, q: PackageMeta, r: PackageMeta)
    ensures Lookup([p, q, r]) == map[p.id := p][q.id := q][r.id := r]
  {
    var none: seq<PackageMeta> := [];
    LookupAppend(none, p);
    LookupAppend(none + [p], q);
    LookupAppend(none + [p] + [q], r);
    assert none + [p] + [q] + [r] == [p, q, r];
  }

  lemma EmitApp(m: ById)
    requires m == map["lib" := LIB, "mid" := MID, "app" := APP]
    ensures Emit(m, [], [], "app") == Ok([LIB, MID, APP])
  {
    var a, b := [] + ["app"], [] + ["app"] + ["mid"];
    EmitWithOneDependency(m, b, [], "lib", []);
    assert [] + [LIB] == [LIB];
    EmitWithOneDependency(m, a, [], "mid", [LIB]);
    assert [LIB] + [MID] == [LIB, MID];
    EmitWithOneDependency(m, [], [], "app", [LIB, MID]);
    assert [LIB, MID] + [APP] == [LIB, MID, APP];
  }

  /** Requesting app and lib places mid, which nobody requested, after lib, which was. */
  lemma RequestedNeedNotComeLast()
    ensures Resolve([LIB, MID, APP], ["app", "lib"]) == Ok([LIB, MID, APP])
    ensures !ComesLast([LIB, MID, APP], ["app", "lib"])
  {
    var m, plan := Lookup([LIB, MID, APP]), [LIB, MID, APP];
    LookupThree(LIB, MID, APP);
    EmitApp(m);
    FirstUnknownIsUnknown(m, ["app", "lib"]);
    assert "lib" in Ids(plan) by { assert LIB in plan; }
    assert EmitAll(m, [], plan, []) == Ok(plan);
    assert EmitAll(m, [], plan, ["lib"]) == Ok(plan) by { assert ["lib"][1..] == []; }
    assert ["app", "lib"][1..] == ["lib"];
  }
}
