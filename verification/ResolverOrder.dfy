/** In what order a plan lists what is needed: as it is asked for, except where something forces another order. */
module ResolverOrder {
  import opened Wrappers
  import opened Resolver

  lemma PathPrepended(m: ById, id: string, p: seq<string>)
    requires id in m && p != [] && p[0] in m[id].depends && IsPath(m, p)
    ensures IsPath(m, [id] + p)
  {
    var q := [id] + p;
    forall i | 0 <= i < |q| - 1 ensures q[i] in m && q[i + 1] in m[q[i]].depends {
      if i > 0 { assert q[i] == p[i - 1] && q[i + 1] == p[i - 1 + 1]; }
    }
  }

  lemma ReachedThrough(m: ById, id: string, x: string)
    requires id in m && Reachable(m, m[id].depends, x)
    ensures Reachable(m, [id], x)
  {
    var p :| IsPathFrom(m, m[id].depends, p) && Last(p) == x;
    PathPrepended(m, id, p);
    assert IsPathFrom(m, [id], [id] + p) && Last([id] + p) == x;
  }

  lemma ReachedFromMore(m: ById, some: seq<string>, more: seq<string>, x: string)
    requires Reachable(m, some, x) && forall r | r in some :: r in more
    ensures Reachable(m, more, x)
  {
    var p :| IsPathFrom(m, some, p) && Last(p) == x;
    assert IsPathFrom(m, more, p);
  }

  /** What a call adds to the plan is the end of it, and all of it is needed by what was asked for. */
  ghost predicate Adds(m: ById, ids: seq<string>, plan: seq<PackageMeta>, r: Result<seq<PackageMeta>, ResolveError>) {
    r.Ok? ==>
      && plan <= r.value && (forall id | id in ids :: id in Ids(r.value))
      && forall x | x in Ids(r.value) && x !in Ids(plan) :: Reachable(m, ids, x)
  }

  lemma {:induction false} EmitAdds(m: ById, visiting: seq<string>, plan: seq<PackageMeta>, id: string)
    ensures Adds(m, [id], plan, Emit(m, visiting, plan, id))
    decreases |m.Keys - Elements(visiting)|, 0
  {
    if id !in Ids(plan) && id !in visiting && id in m {
      Deeper(m, visiting, id);
      var r := EmitAll(m, visiting + [id], plan, m[id].depends);
      EmitAllAdds(m, visiting + [id], plan, m[id].depends);
      if r.Ok? {
        IdsAppend(r.value, m[id]);
        assert IsPathFrom(m, [id], [id]) && Last([id]) == id;
        forall x | x in Ids(r.value) && x !in Ids(plan) ensures Reachable(m, [id], x) {
          ReachedThrough(m, id, x);
        }
      }
    }
  }

  lemma {:induction false} EmitAllAdds(m: ById, visiting: seq<string>, plan: seq<PackageMeta>, ids: seq<string>)
    ensures Adds(m, ids, plan, EmitAll(m, visiting, plan, ids))
    decreases |m.Keys - Elements(visiting)|, |ids| + 1
  {
    if ids != [] {
      EmitAdds(m, visiting, plan, ids[0]);
      var first := Emit(m, visiting, plan, ids[0]);
      if first.Ok? {
        EmitAllAdds(m, visiting, first.value, ids[1..]);
        AddsTwice(m, ids, plan, first.value, EmitAll(m, visiting, first.value, ids[1..]));
      }
    }
  }

  lemma AddsTwice(m: ById, ids: seq<string>, plan: seq<PackageMeta>, first: seq<PackageMeta>,
      r: Result<seq<PackageMeta>, ResolveError>)
    requires ids != [] && Adds(m, [ids[0]], plan, Ok(first)) && Adds(m, ids[1..], first, r)
    ensures Adds(m, ids, plan, r)
  {
    if r.Ok? {
      IdsOfPrefix(first, r.value);
      assert forall id | id in ids :: id == ids[0] || id in ids[1..];
      forall x | x in Ids(r.value) && x !in Ids(plan) ensures Reachable(m, ids, x) {
        if x in Ids(first) {
          ReachedFromMore(m, [ids[0]], ids, x);
        } else {
          ReachedFromMore(m, ids[1..], ids, x);
        }
      }
    }
  }

  lemma {:induction false} EmitAllInTwo(m: ById, visiting: seq<string>, plan: seq<PackageMeta>, ids: seq<string>,
      k: nat)
    requires k <= |ids| && EmitAll(m, visiting, plan, ids).Ok?
    ensures var half := EmitAll(m, visiting, plan, ids[..k]);
      half.Ok? && EmitAll(m, visiting, half.value, ids[k..]) == EmitAll(m, visiting, plan, ids)
    decreases k
  {
    if k > 0 {
      var first := Emit(m, visiting, plan, ids[0]).value;
      EmitAllInTwo(m, visiting, first, ids[1..], k - 1);
      assert ids[..k][1..] == ids[1..][..k - 1] && ids[k..] == ids[1..][k - 1..];
    } else {
      assert ids[..k] == [] && ids[k..] == ids;
    }
  }

  /** By some moment the one is in the plan and the other is not. */
  ghost predicate Precedes(plan: seq<PackageMeta>, x: string, y: string) {
    exists k | 0 <= k <= |plan| :: x in Ids(plan[..k]) && y !in Ids(plan[..k])
  }

  lemma PrefixWithout(half: seq<PackageMeta>, after: seq<PackageMeta>, k: nat, y: string)
    requires half <= after && y in Ids(half) && k <= |after| && y !in Ids(after[..k])
    ensures k < |half| && Ids(after[..k]) <= Ids(half)
  {
    var b :| 0 <= b < |half| && half[b].id == y;
    assert forall c | 0 <= c < k :: after[..k][c].id in Ids(after[..k]);
    assert after[b].id == y;
    IdsOfPrefix(after[..k], half);
  }

  lemma OrderIsForced(m: ById, visiting: seq<string>, plan: seq<PackageMeta>, ids: seq<string>,
      after: seq<PackageMeta>, i: nat, j: nat)
    requires EmitAll(m, visiting, plan, ids) == Ok(after) && i < j < |ids| && Precedes(after, ids[j], ids[i])
    ensures ids[j] in Ids(plan) || Reachable(m, ids[..i + 1], ids[j])
  {
    EmitAllInTwo(m, visiting, plan, ids, i + 1);
    var half := EmitAll(m, visiting, plan, ids[..i + 1]).value;
    EmitAllAdds(m, visiting, plan, ids[..i + 1]);
    EmitAllAdds(m, visiting, half, ids[i + 1..]);
    assert ids[..i + 1][i] == ids[i];
    var k :| 0 <= k <= |after| && ids[j] in Ids(after[..k]) && ids[i] !in Ids(after[..k]);
    PrefixWithout(half, after, k, ids[i]);
  }

  /**
   The dependencies of a package follow one another as they are declared. A later one comes before an earlier one
   only if it was placed before the package was reached, or something declared up to there needs it.
   */
  lemma DependenciesKeepTheirOrder(m: ById, visiting: seq<string>, plan: seq<PackageMeta>, id: string,
      after: seq<PackageMeta>, i: nat, j: nat)
    requires Emit(m, visiting, plan, id) == Ok(after) && id !in Ids(plan) && id in m
    requires i < j < |m[id].depends| && Precedes(after, m[id].depends[j], m[id].depends[i])
    ensures m[id].depends[j] in Ids(plan) || Reachable(m, m[id].depends[..i + 1], m[id].depends[j])
  {
    var ids := m[id].depends;
    Deeper(m, visiting, id);
    var deps := EmitAll(m, visiting + [id], plan, ids).value;
    EmitAllAdds(m, visiting + [id], plan, ids);
    assert after == deps + [m[id]];
    PrecedesBefore(deps, m[id], ids[j], ids[i]);
    OrderIsForced(m, visiting + [id], plan, ids, deps, i, j);
  }

  lemma PrecedesBefore(deps: seq<PackageMeta>, p: PackageMeta, x: string, y: string)
    requires Precedes(deps + [p], x, y) && y in Ids(deps)
    ensures Precedes(deps, x, y)
  {
    var k :| 0 <= k <= |deps| + 1 && x in Ids((deps + [p])[..k]) && y !in Ids((deps + [p])[..k]);
    PrefixWithout(deps, deps + [p], k, y);
    assert (deps + [p])[..k] == deps[..k];
  }

  /** Requests are placed as they are listed, but for those that requests listed before need. */
  lemma RequestsKeepTheirOrder(index: seq<PackageMeta>, requested: seq<string>, plan: seq<PackageMeta>, i: nat, j: nat)
    requires Resolve(index, requested) == Ok(plan) && i < j < |requested|
    requires Precedes(plan, requested[j], requested[i])
    ensures Reachable(Lookup(index), requested[..i + 1], requested[j])
  {
    OkIsEmission(index, requested, plan);
    OrderIsForced(Lookup(index), [], [], requested, plan, i, j);
  }
}
