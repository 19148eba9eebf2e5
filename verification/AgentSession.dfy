/** The session state machine: whitelisted transitions, a turn budget, frozen terminal states. */
module AgentSession {
  import opened Wrappers

  datatype AgentRunStatus =
    | Created | Observing | Planning | Executing | WaitingForConfirmation
    | Replanning | Completed | Failed | Cancelled | BudgetExhausted

  predicate IsTerminal(s: AgentRunStatus) {
    s == Completed || s == Failed || s == Cancelled || s == BudgetExhausted
  }

  predicate Legal(from: AgentRunStatus, to: AgentRunStatus) {
    if to == Cancelled || to == BudgetExhausted then
      from != Completed && from != Failed && from != Cancelled && from != BudgetExhausted
    else
      match (from, to)
      case (Created, Observing) => true
      case (Observing, Planning) => true
      case (Planning, Executing) => true
      case (Planning, Failed) => true
      case (Executing, Completed) => true
      case (Executing, Failed) => true
      case (Executing, Replanning) => true
      case (Executing, WaitingForConfirmation) => true
      case (Replanning, Planning) => true
      case (Replanning, Executing) => true
      case (WaitingForConfirmation, Executing) => true
      case (WaitingForConfirmation, Replanning) => true
      case _ => false
  }

  /** The terminal states are exactly those the whitelist never leaves. */
  lemma TerminalMeansStuck(s: AgentRunStatus)
    ensures IsTerminal(s) <==> forall to :: !Legal(s, to)
  {
    assert !IsTerminal(s) ==> Legal(s, Cancelled);
  }

  /** The states that each state can be entered from. */
  lemma EnteredFrom(from: AgentRunStatus, to: AgentRunStatus)
    ensures Legal(from, to) <==>
      match to
      case Created => false
      case Observing => from == Created
      case Planning => from == Observing || from == Replanning
      case Executing => from == Planning || from == Replanning || from == WaitingForConfirmation
      case WaitingForConfirmation => from == Executing
      case Replanning => from == Executing || from == WaitingForConfirmation
      case Completed => from == Executing
      case Failed => from == Planning || from == Executing
      case Cancelled => !IsTerminal(from)
      case BudgetExhausted => !IsTerminal(from)
  {
  }

  ghost predicate IsTrail(trail: seq<AgentRunStatus>) {
    trail != [] && trail[0] == Created && forall i | 0 < i < |trail| :: Legal(trail[i - 1], trail[i])
  }

  /** Before a plan there is no execution, no question and no success or failure. */
  lemma {:induction false} NothingBeforeThePlan(trail: seq<AgentRunStatus>, i: nat)
    requires IsTrail(trail) && i < |trail| && Planning !in trail[..i]
    ensures trail[i] in {Created, Observing, Planning, Cancelled, BudgetExhausted}
  {
    if i > 0 {
      assert trail[..i][i - 1] == trail[i - 1] && forall k | 0 <= k < i - 1 :: trail[..i - 1][k] == trail[..i][k];
      NothingBeforeThePlan(trail, i - 1);
    }
  }

  /** A session that has ended stays as it ended, and a completed one was executing last. */
  lemma TrailsEndOnce(trail: seq<AgentRunStatus>, i: nat)
    requires IsTrail(trail) && i < |trail|
    ensures IsTerminal(trail[i]) ==> i == |trail| - 1
    ensures trail[i] == Completed ==> i > 0 && trail[i - 1] == Executing
  {
    if i < |trail| - 1 { assert Legal(trail[i + 1 - 1], trail[i + 1]); }
  }

  datatype TransitionError = Illegal(from: AgentRunStatus, to: AgentRunStatus) | StepBudgetExhausted | AlreadyTerminal

  class Session {
    const sessionId: string
    const maxTurns: nat
    var state: AgentRunStatus
    var turns: nat
    /** Every state the session has been in, oldest first. */
    ghost var trail: seq<AgentRunStatus>

    ghost predicate Valid() reads this {
      && 1 <= maxTurns && turns <= maxTurns
      && IsTrail(trail) && trail[|trail| - 1] == state
    }

    ghost predicate Fresh() reads this { state == Created && turns == 0 }

    constructor (sessionId: string, maxTurns: nat)
      ensures Valid() && Fresh()
      ensures this.sessionId == sessionId && this.maxTurns == if maxTurns == 0 then 1 else maxTurns
    {
      this.sessionId := sessionId;
      this.maxTurns := if maxTurns == 0 then 1 else maxTurns;
      state, turns, trail := Created, 0, [Created];
    }

    method Transition(to: AgentRunStatus, consumesTurn: bool) returns (r: Result<AgentRunStatus, TransitionError>)
      requires Valid()
      modifies this
      ensures Valid()
      ensures r.Ok? <==> Legal(old(state), to) && (consumesTurn ==> old(turns) < maxTurns)
      ensures r.Ok? ==> state == to == r.value && turns == old(turns) + (if consumesTurn then 1 else 0)
      ensures r.Ok? ==> trail == old(trail) + [to]
      ensures r.Err? ==> state == old(state) && turns == old(turns) && trail == old(trail)
      ensures r.Err? ==> r.error == (if IsTerminal(state) then AlreadyTerminal
                                     else if !Legal(state, to) then Illegal(state, to) else StepBudgetExhausted)
    {
      if IsTerminal(state) { return Err(AlreadyTerminal); }
      if !Legal(state, to) { return Err(Illegal(state, to)); }
      if consumesTurn {
        if turns >= maxTurns { return Err(StepBudgetExhausted); }
        turns := turns + 1;
      }
      state, trail := to, trail + [to];
      return Ok(state);
    }
  }
}
