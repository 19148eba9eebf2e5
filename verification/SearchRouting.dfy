/**
 Which providers `SearchCoordinator::search` asks, and the round-robin groups they are dealt into.
 */
module SearchRouting {
  import opened Domain
  import opened Wrappers

  /** What one provider does with the query: `query` followed by `take_last_error`, or a panic. */
  datatype Outcome = Panicked | Answered(commands: seq<Command>, error: Option<string>)

  datatype Slot = Slot(id: string, outcome: Outcome)

  // ---------------------------------------------------------------- routing

  datatype FilterKind = App | File | Folder | Cmd | Plugin | Wf

  datatype Strategy = All | Routed(kinds: seq<FilterKind>)

  predicate RoutesTo(kind: FilterKind, id: string) {
    match kind
    case App => "app" <= id
    case File => "file" <= id || "recent" <= id
    case Folder => "file" <= id || "recent" <= id
    case Cmd => "workflow" <= id || "settings" <= id || "context" <= id
    case Plugin => "plugin" <= id
    case Wf => "workflow" <= id
  }

  /** The kinds of filter that reach a provider, by the start of its name; a name of no such start none reaches. */
  lemma KindsThatReach(id: string, kind: FilterKind)
    ensures RoutesTo(kind, id) <==>
      if "file" <= id || "recent" <= id then kind == File || kind == Folder
      else if "workflow" <= id then kind == Cmd || kind == Wf
      else if "settings" <= id || "context" <= id then kind == Cmd
      else if "app" <= id then kind == App
      else "plugin" <= id && kind == Plugin
  {
    StartsApart(id);
  }

  lemma StartsApart(id: string)
    ensures "app" <= id ==> id[0] == 'a'
    ensures "file" <= id ==> id[0] == 'f'
    ensures "recent" <= id ==> id[0] == 'r'
    ensures "workflow" <= id ==> id[0] == 'w'
    ensures "settings" <= id ==> id[0] == 's'
    ensures "context" <= id ==> id[0] == 'c'
    ensures "plugin" <= id ==> id[0] == 'p'
  {
  }

  predicate Routes(strategy: Strategy, id: string) {
    strategy.All? || exists kind | kind in strategy.kinds :: RoutesTo(kind, id)
  }

  ghost predicate Increasing(s: seq<nat>) { forall i, j | 0 <= i < j < |s| :: s[i] < s[j] }

  ghost predicate Initial(s: seq<nat>) { forall k | 0 <= k < |s| :: s[k] == k }

  /** The positions of the first n providers that the strategy routes to, in registration order. */
  function Selected(slots: seq<Slot>, strategy: Strategy, n: nat): (r: seq<nat>)
    requires n <= |slots|
    ensures Increasing(r) && forall k | 0 <= k < |r| :: r[k] < n
    ensures forall i | 0 <= i < n :: i in r <==> Routes(strategy, slots[i].id)
  {
    if n == 0 then []
    else
      var before := Selected(slots, strategy, n - 1);
      assert (before + [n - 1])[|before|] == n - 1 && forall i :: i in before + [n - 1] <==> i in before || i == n - 1;
      if Routes(strategy, slots[n - 1].id) then before + [n - 1] else before
  }

  lemma {:induction false} AllSelectsEverything(slots: seq<Slot>, n: nat)
    requires n <= |slots|
    ensures |Selected(slots, All, n)| == n && Initial(Selected(slots, All, n))
  {
    if n > 0 { AllSelectsEverything(slots, n - 1); }
  }

  lemma {:induction false} IncreasingIsAbove(s: seq<nat>, k: nat)
    requires Increasing(s) && k < |s|
    ensures s[k] >= k
  {
    if k > 0 { IncreasingIsAbove(s, k - 1); }
  }

  lemma {:induction false} IncreasingIsBelow(s: seq<nat>, k: nat)
    requires Increasing(s) && k < |s|
    ensures s[k] + (|s| - 1 - k) <= s[|s| - 1]
    decreases |s| - k
  {
    if k < |s| - 1 { IncreasingIsBelow(s, k + 1); }
  }

  /** The result table is as long as the selection but is indexed by provider: only a gap-free selection fits it. */
  lemma FitsExactlyWhenInitial(selected: seq<nat>)
    requires Increasing(selected)
    ensures (forall i | i in selected :: i < |selected|) <==> Initial(selected)
  {
    if forall i | i in selected :: i < |selected| {
      forall k | 0 <= k < |selected| ensures selected[k] == k {
        IncreasingIsAbove(selected, k);
        IncreasingIsBelow(selected, k);
        assert selected[|selected| - 1] in selected;
      }
    }
  }

  // ---------------------------------------------------------------- the groups

  function GroupCount(maxParallelism: nat, n: nat): (r: nat)
    requires maxParallelism > 0
    ensures 0 < r <= maxParallelism && (r <= n || r == 1) && (r == maxParallelism || r == n || (n == 0 && r == 1))
  {
    var m := if n == 0 then 1 else n;
    if maxParallelism < m then maxParallelism else m
  }

  /** The first n of the selection dealt round to `count` groups. */
  function Dealt(selected: seq<nat>, count: nat, n: nat): (r: seq<seq<nat>>)
    requires count > 0 && n <= |selected|
    ensures |r| == count
  {
    if n == 0 then seq(count, _ => [])
    else
      var r := Dealt(selected, count, n - 1);
      var g := (n - 1) % count;
      r[g := r[g] + [selected[n - 1]]]
  }

  /** The p-th of the first n is in group p modulo the number of groups, and groups are in the selection's order. */
  ghost predicate InTurn(groups: seq<seq<nat>>, selected: seq<nat>, n: nat)
    requires groups != [] && n <= |selected|
  {
    && (forall p | 0 <= p < n :: selected[p] in groups[p % |groups|])
    && (forall g | 0 <= g < |groups| :: Increasing(groups[g]))
    && forall g, k | 0 <= g < |groups| && 0 <= k < |groups[g]| && n < |selected| :: groups[g][k] < selected[n]
  }

  lemma {:induction false} DealtInTurn(selected: seq<nat>, count: nat, n: nat)
    requires count > 0 && n <= |selected| && Increasing(selected)
    ensures InTurn(Dealt(selected, count, n), selected, n)
  {
    if n > 0 {
      DealtInTurn(selected, count, n - 1);
      NextInTurn(Dealt(selected, count, n - 1), selected, n - 1, (n - 1) % count);
    }
  }

  lemma NextInTurn(groups: seq<seq<nat>>, selected: seq<nat>, n: nat, g: nat)
    requires groups != [] && n < |selected| && Increasing(selected) && InTurn(groups, selected, n)
    requires g < |groups| && g == n % |groups|
    ensures InTurn(groups[g := groups[g] + [selected[n]]], selected, n + 1)
  {
    var after := groups[g := groups[g] + [selected[n]]];
    forall p | 0 <= p < n + 1 ensures selected[p] in after[p % |groups|] {
      if p == n {
        assert after[g][|groups[g]|] == selected[p];
      } else {
        assert selected[p] in groups[p % |groups|];
      }
    }
  }

  method BuildGroups(selected: seq<nat>, maxParallelism: nat) returns (groups: seq<seq<nat>>)
    requires maxParallelism > 0
    ensures groups == Dealt(selected, GroupCount(maxParallelism, |selected|), |selected|)
    ensures 0 < |groups| <= maxParallelism
  {
    groups := seq(GroupCount(maxParallelism, |selected|), _ => []);
    for pos := 0 to |selected|
      invariant groups == Dealt(selected, GroupCount(maxParallelism, |selected|), pos)
    {
      var gi := pos % |groups|;
      groups := groups[gi := groups[gi] + [selected[pos]]];
    }
  }

  ghost predicate IsCell(groups: seq<seq<nat>>, g: int, k: int) { 0 <= g < |groups| && 0 <= k < |groups[g]| }

  ghost predicate InSomeCell(groups: seq<seq<nat>>, i: nat) { exists g, k :: IsCell(groups, g, k) && groups[g][k] == i }

  ghost predicate NoneTwice(groups: seq<seq<nat>>) {
    forall g, k, h, l | IsCell(groups, g, k) && IsCell(groups, h, l) && groups[g][k] == groups[h][l] :: g == h && k == l
  }

  /** The groups hold exactly the chosen providers, each in one place. */
  ghost predicate Deals(groups: seq<seq<nat>>, chosen: seq<nat>) {
    && (forall g, k | IsCell(groups, g, k) :: groups[g][k] in chosen)
    && (forall i | i in chosen :: InSomeCell(groups, i))
    && NoneTwice(groups)
  }

  lemma DealOne(groups: seq<seq<nat>>, chosen: seq<nat>, g: nat, i: nat)
    requires Deals(groups, chosen) && g < |groups| && i !in chosen
    ensures Deals(groups[g := groups[g] + [i]], chosen + [i])
  {
    var r := groups[g := groups[g] + [i]];
    assert IsCell(r, g, |groups[g]|) && r[g][|groups[g]|] == i;
    forall h, k | IsCell(r, h, k)
      ensures r[h][k] in chosen + [i]
      ensures (IsCell(groups, h, k) && r[h][k] == groups[h][k]) || (h == g && k == |groups[g]| && r[h][k] == i)
    {
    }
    forall j | j in chosen ensures InSomeCell(r, j) {
      var h, k :| IsCell(groups, h, k) && groups[h][k] == j;
      assert IsCell(r, h, k) && r[h][k] == j;
    }
  }

  /** Dealing loses nobody and repeats nobody. */
  lemma {:induction false} DealingPartitions(selected: seq<nat>, count: nat, n: nat)
    requires count > 0 && n <= |selected| && Increasing(selected)
    ensures Deals(Dealt(selected, count, n), selected[..n])
  {
    if n > 0 {
      DealingPartitions(selected, count, n - 1);
      DealOne(Dealt(selected, count, n - 1), selected[..n - 1], (n - 1) % count, selected[n - 1]);
      assert selected[..n] == selected[..n - 1] + [selected[n - 1]];
    }
  }
}
