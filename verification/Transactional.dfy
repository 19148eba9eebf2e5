/**
 Transactional installation: stage and activate a plan package by package; on the
 first failure remove what was activated, newest first.

 The installer behind the trait is any object whose `stage` leaves the active set
 alone, whose `activate` and `remove` are atomic, and whose answers are arbitrary:
 the k-th call fails with the text `script(k)`, if there is one.
 */
module Transactional {
  import opened Wrappers
  import opened Resolver

  datatype Call = Stage(id: string) | Activate(id: string) | Remove(id: string)

  class Installer {
    const script: nat -> Option<string>
    var calls: seq<Call>
    var active: set<string>
    /** The active set after every call, oldest first. */
    ghost var history: seq<set<string>>

    constructor (script: nat -> Option<string>, active: set<string>)
      ensures this.script == script && this.active == active && calls == [] && history == []
    {
      this.script, this.active, calls, history := script, active, [], [];
    }

    method StagePackage(id: string) returns (e: Option<string>)
      modifies this
      ensures calls == old(calls) + [Stage(id)] && e == script(|old(calls)|)
      ensures active == old(active) && history == old(history) + [active]
    {
      e := script(|calls|);
      calls, history := calls + [Stage(id)], history + [active];
    }

    method ActivatePackage(id: string) returns (e: Option<string>)
      modifies this
      ensures calls == old(calls) + [Activate(id)] && e == script(|old(calls)|)
      ensures active == old(active) + (if e == None then {id} else {}) && history == old(history) + [active]
    {
      e := script(|calls|);
      if e == None { active := active + {id}; }
      calls, history := calls + [Activate(id)], history + [active];
    }

    method RemovePackage(id: string) returns (e: Option<string>)
      modifies this
      ensures calls == old(calls) + [Remove(id)] && e == script(|old(calls)|)
      ensures active == old(active) - (if e == None then {id} else {}) && history == old(history) + [active]
    {
      e := script(|calls|);
      if e == None { active := active - {id}; }
      calls, history := calls + [Remove(id)], history + [active];
    }
  }

  datatype RollbackEntry = RolledBack(id: string) | RollbackFailed(id: string, error: string)

  datatype InstallFailure = InstallFailure(step: string, cause: string, log: seq<RollbackEntry>)

  function RemovedIds(log: seq<RollbackEntry>): set<string> {
    set e | e in log && e.RolledBack? :: e.id
  }

  function StuckIds(log: seq<RollbackEntry>): set<string> {
    set e | e in log && e.RollbackFailed? :: e.id
  }

  /** The calls that put a plan in place, and those that take it back. */
  function Forward(plan: seq<PackageMeta>): seq<Call> {
    if plan == [] then [] else
      var last := |plan| - 1;
      Forward(plan[..last]) + [Stage(plan[last].id), Activate(plan[last].id)]
  }

  function Undo(plan: seq<PackageMeta>): seq<Call> {
    if plan == [] then [] else [Remove(plan[|plan| - 1].id)] + Undo(plan[..|plan| - 1])
  }

  /** Call by call: a package is staged, then activated, then the next one's turn comes; the undo goes backwards. */
  lemma {:induction false} CallsInOrder(plan: seq<PackageMeta>)
    ensures |Forward(plan)| == 2 * |plan| && |Undo(plan)| == |plan|
    ensures forall i | 0 <= i < |plan| ::
      Forward(plan)[2 * i] == Stage(plan[i].id) && Forward(plan)[2 * i + 1] == Activate(plan[i].id)
    ensures forall j | 0 <= j < |plan| :: Undo(plan)[j] == Remove(plan[|plan| - 1 - j].id)
  {
    if plan != [] {
      var before := plan[..|plan| - 1];
      CallsInOrder(before);
      assert forall i | 0 <= i < |before| :: before[i] == plan[i];
      assert forall j | 0 < j < |plan| :: Undo(plan)[j] == Undo(before)[j - 1];
    }
  }

  ghost predicate IsStage(initial: set<string>, plan: seq<PackageMeta>, s: set<string>) {
    exists i :: 0 <= i <= |plan| && s == initial + Ids(plan[..i])
  }

  ghost predicate DistinctIds(plan: seq<PackageMeta>) {
    forall i | 0 <= i < |plan| :: plan[i].id !in Ids(plan[..i])
  }

  /** Everything the history gained after its first `from` entries is a stage of the plan. */
  ghost predicate StagesFrom(initial: set<string>, plan: seq<PackageMeta>, history: seq<set<string>>, from: nat) {
    from <= |history| && forall h | from <= h < |history| :: IsStage(initial, plan, history[h])
  }

  lemma StagesGrow(initial: set<string>, plan: seq<PackageMeta>, history: seq<set<string>>, from: nat, s: set<string>,
      i: nat)
    requires StagesFrom(initial, plan, history, from) && i <= |plan| && s == initial + Ids(plan[..i])
    ensures StagesFrom(initial, plan, history + [s], from)
  {
  }

  /** The log names the first k packages of the plan, newest first, as the answers from call `first` on say. */
  ghost predicate LogsUndo(log: seq<RollbackEntry>, plan: seq<PackageMeta>, k: nat, script: nat -> Option<string>,
      first: nat)
  {
    k <= |plan| && |log| <= k &&
    forall j | 0 <= j < |log| :: log[j].id == plan[k - 1 - j].id && log[j] == EntryFor(log[j].id, script(first + j))
  }

  lemma IdsUpTo(plan: seq<PackageMeta>, i: nat)
    requires i < |plan|
    ensures Ids(plan[..i + 1]) == Ids(plan[..i]) + {plan[i].id}
  {
    assert plan[..i + 1] == plan[..i] + [plan[i]];
    IdsAppend(plan[..i], plan[i]);
  }

  lemma LogGrows(log: seq<RollbackEntry>, e: RollbackEntry)
    ensures RemovedIds(log + [e]) == RemovedIds(log) + (if e.RolledBack? then {e.id} else {})
    ensures StuckIds(log + [e]) == StuckIds(log) + (if e.RolledBack? then {} else {e.id})
  {
    var l := log + [e];
    assert l[|log|] == e;
    assert forall x | x in log :: x in l;
  }

  /** Half-way through a rollback of a plan with distinct ids, disjoint from what was there before. */
  ghost predicate RollbackInvariant(initial: set<string>, plan: seq<PackageMeta>, k: nat,
                                    log: seq<RollbackEntry>, active: set<string>)
    requires |log| <= k <= |plan|
  {
    && active == initial + Ids(plan[..k - |log|]) + StuckIds(log)
    && StuckIds(log) !! Ids(plan[..k - |log|])
  }

  lemma RollbackStep(initial: set<string>, plan: seq<PackageMeta>, k: nat, log: seq<RollbackEntry>,
                     active: set<string>, e: RollbackEntry)
    requires |log| < k <= |plan| && DistinctIds(plan) && initial !! Ids(plan)
    requires RollbackInvariant(initial, plan, k, log, active)
    requires e.id == plan[k - 1 - |log|].id
    ensures RollbackInvariant(initial, plan, k, log + [e], active - (if e.RolledBack? then {e.id} else {}))
  {
    var i := k - 1 - |log|;
    IdsUpTo(plan, i);
    LogGrows(log, e);
    assert plan[i] in plan;
  }

  method ExecutePlan(plan: seq<PackageMeta>, installer: Installer)
    returns (r: Result<nat, InstallFailure>, ghost at: nat)
    modifies installer
    ensures r.Ok? ==>
      && r.value == |plan|
      && installer.calls == old(installer.calls) + Forward(plan)
      && installer.active == old(installer.active) + Ids(plan)
      && NoneFail(installer.script, |old(installer.calls)|, |installer.calls|)
    ensures r.Err? ==>
      && at < |plan| && r.error.step == plan[at].id
      && |r.error.log| == at
      && installer.active == old(installer.active) + Ids(plan[..at]) - RemovedIds(r.error.log)
      && FailedCalls(old(installer.calls), plan, at, installer.calls)
      && FailedAs(installer.script, |old(installer.calls)|, plan, at, r.error, |installer.calls|)
    ensures r.Err? && DistinctIds(plan) && old(installer.active) !! Ids(plan) ==>
      installer.active == old(installer.active) + StuckIds(r.error.log)
    ensures old(installer.history) <= installer.history
    ensures DistinctIds(plan) && old(installer.active) !! Ids(plan) && (r.Ok? || StuckIds(r.error.log) == {}) ==>
      StagesFrom(old(installer.active), plan, installer.history, |old(installer.history)|)
  {
    ghost var initial, before, calls := installer.active, |installer.history|, installer.calls;
    var activated: seq<string> := [];
    at := 0;
    for i := 0 to |plan|
      invariant |activated| == i && forall j | 0 <= j < i :: activated[j] == plan[j].id
      invariant installer.active == initial + Ids(plan[..i])
      invariant installer.calls == calls + Forward(plan[..i]) && |installer.calls| == |calls| + 2 * i
      invariant NoneFail(installer.script, |calls|, |installer.calls|)
      invariant old(installer.history) <= installer.history
      invariant StagesFrom(initial, plan, installer.history, before)
    {
      var id := plan[i].id;
      var e := StageThenActivate(plan, i, installer, initial, before, calls);
      if e.Some? {
        var failure := GiveUp(plan, i, e.value, activated, installer, initial, before, calls);
        return Err(failure), i;
      }
      activated := activated + [id];
    }
    assert plan[..|plan|] == plan;
    return Ok(|activated|), 0;
  }

  ghost predicate NoneFail(script: nat -> Option<string>, first: nat, end: nat) {
    forall k | first <= k < end :: script(k) == None
  }

  /**
   The first failing answer, to step `at`'s stage or activate, is the cause; the removes follow it at once, and
   the log has their answers.
   */
  ghost predicate FailedAs(script: nat -> Option<string>, first: nat, plan: seq<PackageMeta>, at: nat,
      e: InstallFailure, end: nat)
  {
    exists failing: nat ::
      && first + 2 * at <= failing <= first + 2 * at + 1
      && NoneFail(script, first, failing) && script(failing) == Some(e.cause)
      && LogsUndo(e.log, plan, at, script, failing + 1) && end == failing + 1 + at
  }

  /** The steps before `at`, and the attempt at it. */
  ghost predicate Attempted(before: seq<Call>, plan: seq<PackageMeta>, at: nat, after: seq<Call>)
    requires at < |plan|
  {
    var id := plan[at].id;
    && |before| + 2 * at + 1 <= |after| <= |before| + 2 * at + 2
    && (|| after == before + Forward(plan[..at]) + [Stage(id)]
        || after == before + Forward(plan[..at]) + [Stage(id), Activate(id)])
  }

  /** The calls of a run that failed at step `at`: the steps before it, the attempt, and the undo in reverse. */
  ghost predicate FailedCalls(before: seq<Call>, plan: seq<PackageMeta>, at: nat, after: seq<Call>)
    requires at < |plan|
  {
    exists attempted :: Attempted(before, plan, at, attempted) && after == attempted + Undo(plan[..at])
  }

  lemma ForwardStep(plan: seq<PackageMeta>, i: nat)
    requires i < |plan|
    ensures Forward(plan[..i + 1]) == Forward(plan[..i]) + [Stage(plan[i].id), Activate(plan[i].id)]
  {
    assert plan[..i + 1][..i] == plan[..i];
  }

  method StageThenActivate(plan: seq<PackageMeta>, i: nat, installer: Installer,
                           ghost initial: set<string>, ghost from: nat, ghost before: seq<Call>)
    returns (e: Option<string>)
    requires i < |plan| && installer.active == initial + Ids(plan[..i])
    requires installer.calls == before + Forward(plan[..i]) && |installer.calls| == |before| + 2 * i
    requires NoneFail(installer.script, |before|, |installer.calls|)
    requires StagesFrom(initial, plan, installer.history, from)
    modifies installer
    ensures installer.active == initial + Ids(if e == None then plan[..i + 1] else plan[..i])
    ensures Attempted(before, plan, i, installer.calls)
    ensures e == None ==>
      installer.calls == before + Forward(plan[..i + 1]) && |installer.calls| == |before| + 2 * (i + 1)
    ensures NoneFail(installer.script, |before|, |installer.calls| - 1) && e == installer.script(|installer.calls| - 1)
    ensures old(installer.history) <= installer.history && StagesFrom(initial, plan, installer.history, from)
  {
    StagesGrow(initial, plan, installer.history, from, installer.active, i);
    ForwardStep(plan, i);
    e := installer.StagePackage(plan[i].id);
    if e == None {
      ghost var history := installer.history;
      e := installer.ActivatePackage(plan[i].id);
      IdsUpTo(plan, i);
      StagesGrow(initial, plan, history, from, installer.active, if e == None then i + 1 else i);
    }
  }

  lemma UndoStep(calls: seq<Call>, plan: seq<PackageMeta>, i: nat)
    requires i < |plan|
    ensures calls + [Remove(plan[i].id)] + Undo(plan[..i]) == calls + Undo(plan[..i + 1])
  {
    assert plan[..i + 1][..i] == plan[..i];
  }

  lemma LogUndoGrows(log: seq<RollbackEntry>, plan: seq<PackageMeta>, k: nat, script: nat -> Option<string>,
      first: nat, e: RollbackEntry)
    requires LogsUndo(log, plan, k, script, first) && |log| < k
    requires e.id == plan[k - 1 - |log|].id && e == EntryFor(e.id, script(first + |log|))
    ensures LogsUndo(log + [e], plan, k, script, first)
  {
  }

  /** For a plan with distinct ids, disjoint from what was there: the invariant, and no foreign intermediate set. */
  ghost predicate UndoneSoFar(initial: set<string>, plan: seq<PackageMeta>, k: nat, log: seq<RollbackEntry>,
                              active: set<string>, history: seq<set<string>>, from: nat)
    requires |log| <= k <= |plan|
  {
    DistinctIds(plan) && initial !! Ids(plan) ==>
      && RollbackInvariant(initial, plan, k, log, active)
      && (StuckIds(log) == {} ==> StagesFrom(initial, plan, history, from))
  }

  lemma UndoneOneMore(initial: set<string>, plan: seq<PackageMeta>, k: nat, log: seq<RollbackEntry>,
                      active: set<string>, history: seq<set<string>>, from: nat, e: RollbackEntry)
    requires |log| < k <= |plan| && e.id == plan[k - 1 - |log|].id
    requires UndoneSoFar(initial, plan, k, log, active, history, from)
    ensures var after := active - (if e.RolledBack? then {e.id} else {});
      UndoneSoFar(initial, plan, k, log + [e], after, history + [after], from)
  {
    if DistinctIds(plan) && initial !! Ids(plan) {
      RollbackStep(initial, plan, k, log, active, e);
      LogGrows(log, e);
      if StuckIds(log + [e]) == {} {
        var after := active - (if e.RolledBack? then {e.id} else {});
        StagesGrow(initial, plan, history, from, after, k - 1 - |log|);
      }
    }
  }

  /** What the log says of a remove that was answered `answer`. */
  function EntryFor(id: string, answer: Option<string>): RollbackEntry {
    match answer case None => RolledBack(id) case Some(e) => RollbackFailed(id, e)
  }

  /** One remove, and what the log says of it. */
  method RemoveLogged(id: string, installer: Installer) returns (entry: RollbackEntry)
    modifies installer
    ensures entry.id == id
    ensures installer.active == old(installer.active) - (if entry.RolledBack? then {id} else {})
    ensures installer.calls == old(installer.calls) + [Remove(id)]
    ensures installer.history == old(installer.history) + [installer.active]
    ensures entry == EntryFor(id, installer.script(|old(installer.calls)|))
  {
    var e := installer.RemovePackage(id);
    entry := if e == None then RolledBack(id) else RollbackFailed(id, e.value);
  }

  /** Step `at` was refused: undo what was activated and say so. */
  method GiveUp(plan: seq<PackageMeta>, at: nat, cause: string, activated: seq<string>, installer: Installer,
                ghost initial: set<string>, ghost from: nat, ghost before: seq<Call>)
    returns (e: InstallFailure)
    requires at < |plan| && |activated| == at && forall j | 0 <= j < at :: activated[j] == plan[j].id
    requires installer.active == initial + Ids(plan[..at]) && StagesFrom(initial, plan, installer.history, from)
    requires Attempted(before, plan, at, installer.calls)
    requires NoneFail(installer.script, |before|, |installer.calls| - 1)
    requires installer.script(|installer.calls| - 1) == Some(cause)
    modifies installer
    ensures e.step == plan[at].id && |e.log| == at
    ensures installer.active == initial + Ids(plan[..at]) - RemovedIds(e.log)
    ensures FailedCalls(before, plan, at, installer.calls)
    ensures FailedAs(installer.script, |before|, plan, at, e, |installer.calls|)
    ensures DistinctIds(plan) && initial !! Ids(plan) ==> installer.active == initial + StuckIds(e.log)
    ensures old(installer.history) <= installer.history
    ensures DistinctIds(plan) && initial !! Ids(plan) && StuckIds(e.log) == {} ==>
      StagesFrom(initial, plan, installer.history, from)
  {
    ghost var failing: nat := |installer.calls| - 1;
    var log := RollBack(plan, activated, installer, initial, from);
    e := InstallFailure(plan[at].id, cause, log);
    assert LogsUndo(log, plan, at, installer.script, failing + 1);
  }

  /** The reverse loop over the activated packages. */
  method RollBack(ghost plan: seq<PackageMeta>, activated: seq<string>, installer: Installer,
                  ghost initial: set<string>, ghost from: nat)
    returns (log: seq<RollbackEntry>)
    requires |activated| <= |plan| && forall j | 0 <= j < |activated| :: activated[j] == plan[j].id
    requires installer.active == initial + Ids(plan[..|activated|])
    requires StagesFrom(initial, plan, installer.history, from)
    modifies installer
    ensures |log| == |activated| && LogsUndo(log, plan, |activated|, installer.script, |old(installer.calls)|)
    ensures installer.active == old(installer.active) - RemovedIds(log)
    ensures installer.calls == old(installer.calls) + Undo(plan[..|activated|])
    ensures |installer.calls| == |old(installer.calls)| + |activated|
    ensures DistinctIds(plan) && initial !! Ids(plan) ==> installer.active == initial + StuckIds(log)
    ensures old(installer.history) <= installer.history
    ensures DistinctIds(plan) && initial !! Ids(plan) && StuckIds(log) == {} ==>
      StagesFrom(initial, plan, installer.history, from)
  {
    log := [];
    ghost var k, first := |activated|, |installer.calls|;
    var i := |activated|;
    while i > 0
      invariant 0 <= i <= k && |log| == k - i && LogsUndo(log, plan, k, installer.script, first)
      invariant |installer.calls| == first + |log|
      invariant installer.active == old(installer.active) - RemovedIds(log)
      invariant installer.calls + Undo(plan[..i]) == old(installer.calls) + Undo(plan[..k])
      invariant UndoneSoFar(initial, plan, k, log, installer.active, installer.history, from)
      invariant old(installer.history) <= installer.history
    {
      i := i - 1;
      ghost var active, history, calls := installer.active, installer.history, installer.calls;
      var entry := RemoveLogged(activated[i], installer);
      UndoneOneMore(initial, plan, k, log, active, history, from, entry);
      LogGrows(log, entry);
      LogUndoGrows(log, plan, k, installer.script, first, entry);
      UndoStep(calls, plan, i);
      log := log + [entry];
    }
    assert plan[..0] == [];
  }

  // ---------------------------------------------------------------- dependency closure

  /** Every active package the index knows has its dependencies active. */
  ghost predicate DependencyClosed(m: ById, active: set<string>) {
    forall x | x in active && x in m :: forall d | d in m[x].depends :: d in active
  }

  lemma StagesAreClosed(m: ById, plan: seq<PackageMeta>, initial: set<string>, s: set<string>)
    requires IsOrdered(m, plan) && DependencyClosed(m, initial) && IsStage(initial, plan, s)
    ensures DependencyClosed(m, s)
  {
    var i :| 0 <= i <= |plan| && s == initial + Ids(plan[..i]);
    forall x, d | x in s && x in m && d in m[x].depends ensures d in s {
      if x !in initial {
        var j :| 0 <= j < i && plan[..i][j].id == x;
        assert plan[j].id == x && d in Ids(plan[..j]) && plan[..j] <= plan[..i];
        IdsOfPrefix(plan[..j], plan[..i]);
      }
    }
  }

  lemma RemovedIsWhatTheLogUndoes(plan: seq<PackageMeta>, at: nat, log: seq<RollbackEntry>,
      script: nat -> Option<string>, first: nat)
    requires LogsUndo(log, plan, at, script, first) && |log| == at && StuckIds(log) == {}
    ensures RemovedIds(log) == Ids(plan[..at])
  {
    forall p | p in plan[..at] ensures p.id in RemovedIds(log) {
      var i :| 0 <= i < at && plan[i] == p;
      var e := log[at - 1 - i];
      assert e in log && e.id == p.id;
      if e.RollbackFailed? { assert e.id in StuckIds(log); }
    }
    forall x | x in RemovedIds(log) ensures x in Ids(plan[..at]) {
      var j :| 0 <= j < |log| && log[j].RolledBack? && log[j].id == x;
      assert plan[at - 1 - j] in plan[..at];
    }
  }

  /** A rollback without a failing remove restores the start exactly when nothing it removed had been active before. */
  lemma RollbackRestoresExactlyFreshPlans(
    initial: set<string>, plan: seq<PackageMeta>, at: nat, log: seq<RollbackEntry>,
    script: nat -> Option<string>, first: nat)
    requires LogsUndo(log, plan, at, script, first) && |log| == at && StuckIds(log) == {}
    ensures initial + Ids(plan[..at]) - RemovedIds(log) == initial <==> initial !! Ids(plan[..at])
  {
    RemovedIsWhatTheLogUndoes(plan, at, log, script, first);
  }

  /** An installation that fails at its second package removes the first even if it had been there before. */
  method RollbackLosesAPackage(first: PackageMeta, second: PackageMeta, error: string) returns (left: set<string>)
    ensures left == {} != {first.id}
  {
    var plan := [first, second];
    var installer := new Installer(k => if k == 2 then Some(error) else None, {first.id});
    var r, at := ExecutePlan(plan, installer);
    assert installer.script(2) == Some(error);
    if r.Err? {
      assert at == 1;
      RemovedIsWhatTheLogUndoes(plan, at, r.error.log, installer.script, 3);
    }
    left := installer.active;
  }

  datatype InstallError = Unresolved(why: ResolveError) | Failed(failure: InstallFailure)

  /**
   Resolving and then executing, from a dependency-closed set disjoint from the plan:
   every intermediate active set is dependency-closed, forward and backward, unless
   a remove failed; and what a failed installation leaves behind is exactly what its
   log says could not be removed.
   */
  method InstallRequested(index: seq<PackageMeta>, requested: seq<string>, installer: Installer)
    returns (r: Result<nat, InstallError>)
    requires DependencyClosed(Lookup(index), installer.active)
    modifies installer
    ensures r.Err? && r.error.Unresolved? <==> Resolve(index, requested).Err?
    ensures Resolve(index, requested).Err? ==> installer.active == old(installer.active)
    ensures old(installer.history) <= installer.history
    ensures Resolve(index, requested).Ok? && old(installer.active) !! Ids(Resolve(index, requested).value) ==>
      var plan := Resolve(index, requested).value;
      && installer.active == old(installer.active) + (if r.Ok? then Ids(plan) else StuckIds(r.error.failure.log))
      && (r.Ok? || StuckIds(r.error.failure.log) == {} ==>
          forall h | |old(installer.history)| <= h < |installer.history| ::
            DependencyClosed(Lookup(index), installer.history[h]))
  {
    var resolved := ResolvePlan(index, requested);
    if resolved.Err? { return Err(Unresolved(resolved.error)); }
    var plan := resolved.value;
    ghost var m, initial := Lookup(index), installer.active;
    var done, at := ExecutePlan(plan, installer);
    if DistinctIds(plan) && initial !! Ids(plan) && (done.Ok? || StuckIds(done.error.log) == {}) {
      forall h | |old(installer.history)| <= h < |installer.history|
        ensures DependencyClosed(m, installer.history[h])
      {
        StagesAreClosed(m, plan, initial, installer.history[h]);
      }
    }
    r := if done.Ok? then Ok(done.value) else Err(Failed(done.error));
  }
}
