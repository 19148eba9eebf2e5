/**
 The bounded agent loop: turns, executions, failures and replans each under its own
 budget. Host and planner are arbitrary; everything they are asked and answer goes
 into one log. The wall-clock check is an arbitrary answer per turn.
 */
module BoundedAgent {
  import opened AgentSession

  datatype ActionProposal = ActionProposal(commandId: string, actionId: string, input: int)

  datatype ExecutionRecord = ExecutionRecord(executionId: string, ok: bool)

  datatype Limits = Limits(
    maxTurns: nat, maxProposalsPerTurn: nat, maxTotalExecutions: nat, maxFailures: nat, maxReplans: nat)

  type Pairs = seq<(string, string)>

  datatype Event =
    | Planned(proposals: seq<ActionProposal>)
    | Replanned(failed: Pairs, proposals: seq<ActionProposal>)
    | ConfirmationAsked(proposal: ActionProposal, required: bool)
    | Executed(proposal: ActionProposal, records: seq<ExecutionRecord>)

  /** The events of one run, newest outermost. */
  datatype Log = Start | Then(past: Log, event: Event)

  function Length(log: Log): nat { if log.Start? then 0 else Length(log.past) + 1 }

  ghost predicate Answered(plans: nat -> seq<ActionProposal>, confirmations: nat -> bool,
                           executions: nat -> seq<ExecutionRecord>, log: Log)
  {
    log.Then? ==>
      && Answered(plans, confirmations, executions, log.past)
      && match log.event
         case Planned(ps) => ps == plans(Length(log.past))
         case Replanned(_, ps) => ps == plans(Length(log.past))
         case ConfirmationAsked(_, b) => b == confirmations(Length(log.past))
         case Executed(_, records) => records == executions(Length(log.past))
  }

  /** Host and planner: what they answer may depend on how many answers were given before. */
  class World {
    const plans: nat -> seq<ActionProposal>
    const confirmations: nat -> bool
    const executions: nat -> seq<ExecutionRecord>
    var log: Log

    /** Every recorded answer is the world's own. */
    ghost predicate Genuine() reads this { Answered(plans, confirmations, executions, log) }

    constructor (plans: nat -> seq<ActionProposal>, confirmations: nat -> bool, executions: nat -> seq<ExecutionRecord>)
      ensures this.plans == plans && this.confirmations == confirmations && this.executions == executions
      ensures log == Start
    {
      this.plans, this.confirmations, this.executions, log := plans, confirmations, executions, Start;
    }

    method Plan() returns (r: seq<ActionProposal>)
      modifies this
      ensures r == plans(Length(old(log))) && log == Then(old(log), Planned(r))
    {
      r := plans(Length(log));
      log := Then(log, Planned(r));
    }

    method Replan(failed: Pairs) returns (r: seq<ActionProposal>)
      modifies this
      ensures r == plans(Length(old(log))) && log == Then(old(log), Replanned(failed, r))
    {
      r := plans(Length(log));
      log := Then(log, Replanned(failed, r));
    }

    method ConfirmationRequired(p: ActionProposal) returns (b: bool)
      modifies this
      ensures b == confirmations(Length(old(log))) && log == Then(old(log), ConfirmationAsked(p, b))
    {
      b := confirmations(Length(log));
      log := Then(log, ConfirmationAsked(p, b));
    }

    method Execute(p: ActionProposal) returns (r: seq<ExecutionRecord>)
      modifies this
      ensures r == executions(Length(old(log))) && log == Then(old(log), Executed(p, r))
    {
      r := executions(Length(log));
      log := Then(log, Executed(p, r));
    }
  }

  // ---------------------------------------------------------------- reading the log

  predicate IsTurn(e: Event) { e.Planned? || e.Replanned? }

  /** The (command, action) pair, once for every failed record. */
  function FailuresOf(p: ActionProposal, records: seq<ExecutionRecord>): (r: Pairs)
    ensures |r| <= |records|
  {
    if records == [] then []
    else
      var last := |records| - 1;
      FailuresOf(p, records[..last]) + (if records[last].ok then [] else [(p.commandId, p.actionId)])
  }

  function PairsIn(e: Event): Pairs { if e.Executed? then FailuresOf(e.proposal, e.records) else [] }

  function SuccessesIn(e: Event): nat { if e.Executed? then |e.records| - |FailuresOf(e.proposal, e.records)| else 0 }

  function Turns(log: Log): nat {
    if log.Start? then 0 else Turns(log.past) + (if IsTurn(log.event) then 1 else 0)
  }

  function Executions(log: Log): nat {
    if log.Start? then 0 else Executions(log.past) + (if log.event.Executed? then 1 else 0)
  }

  /** Every failed pair of the run, in order. */
  function FailedPairs(log: Log): Pairs {
    if log.Start? then [] else FailedPairs(log.past) + PairsIn(log.event)
  }

  /** The failed pairs, the successes and the planner's answer of the turn in progress. */
  function TurnFailures(log: Log): Pairs {
    if log.Start? || IsTurn(log.event) then [] else TurnFailures(log.past) + PairsIn(log.event)
  }

  function TurnSuccesses(log: Log): nat {
    if log.Start? || IsTurn(log.event) then 0 else TurnSuccesses(log.past) + SuccessesIn(log.event)
  }

  function TurnProposals(log: Log): seq<ActionProposal> {
    if log.Start? then [] else if IsTurn(log.event) then log.event.proposals else TurnProposals(log.past)
  }

  /** Executions of the turn in progress, and the turns before it in which something failed. */
  function TurnExecutions(log: Log): nat {
    if log.Start? || IsTurn(log.event) then 0 else TurnExecutions(log.past) + (if log.event.Executed? then 1 else 0)
  }

  function FailedTurnsBefore(log: Log): nat {
    if log.Start? then 0
    else if IsTurn(log.event) then FailedTurnsBefore(log.past) + (if TurnFailures(log.past) != [] then 1 else 0)
    else FailedTurnsBefore(log.past)
  }

  /** What the turn in progress has to do. */
  function Todo(limits: Limits, log: Log): seq<ActionProposal> { Take(TurnProposals(log), limits.maxProposalsPerTurn) }

  predicate MayExecute(limits: Limits, log: Log) {
    Executions(log) < limits.maxTotalExecutions && FailedTurnsBefore(log) < limits.maxFailures
  }

  predicate IsHeld(log: Log) { log.Then? && log.event.ConfirmationAsked? && log.event.required }

  /** Nothing failed, and there are as many successes as things to do. */
  predicate IsDone(limits: Limits, log: Log) { TurnFailures(log) == [] && TurnSuccesses(log) == |Todo(limits, log)| }

  /** A turn ends when all is executed, when something must be confirmed, or when the execution budget is spent. */
  predicate TurnOver(limits: Limits, log: Log) {
    log.Then? &&
    if log.event.ConfirmationAsked? then log.event.required || !MayExecute(limits, log)
    else TurnExecutions(log) == |Todo(limits, log)|
  }

  /** What the loop may do next. The planner of a later turn is told exactly the pairs that failed so far. */
  predicate IsNext(limits: Limits, log: Log, e: Event) {
    match e
    case Planned(_) => log.Start?
    case Replanned(failed, _) =>
      TurnOver(limits, log) && !IsHeld(log) && !IsDone(limits, log) && failed == FailedPairs(log)
    case ConfirmationAsked(p, _) =>
      && log.Then? && !log.event.ConfirmationAsked?
      && TurnExecutions(log) < |Todo(limits, log)| && p == Todo(limits, log)[TurnExecutions(log)]
    case Executed(p, _) => log.Then? && log.event == ConfirmationAsked(p, false) && MayExecute(limits, log)
  }

  /** Every event followed from the ones before it. */
  predicate Legal(limits: Limits, log: Log) {
    log.Then? ==> Legal(limits, log.past) && IsNext(limits, log.past, log.event)
  }

  /** The first n, or all if there are fewer. */
  function Take(ps: seq<ActionProposal>, n: nat): (r: seq<ActionProposal>)
    ensures |r| <= |ps| && |r| <= n && (|r| == |ps| || |r| == n) && forall i | 0 <= i < |r| :: r[i] == ps[i]
  {
    if |ps| <= n then ps else ps[..n]
  }

  // ---------------------------------------------------------------- the budgets

  class BudgetController {
    const limits: Limits
    var turns: nat
    var executions: nat
    var failures: nat
    var replans: nat

    constructor (limits: Limits)
      ensures this.limits == limits && turns == executions == failures == replans == 0
    {
      this.limits := limits;
      turns, executions, failures, replans := 0, 0, 0, 0;
    }

    ghost predicate WithinLimits() reads this {
      && turns <= limits.maxTurns && executions <= limits.maxTotalExecutions
      && failures <= limits.maxFailures && replans <= limits.maxReplans
    }

    /** During a turn the counters are the log's. */
    ghost predicate Matches(log: Log) reads this { executions == Executions(log) && failures == FailedTurnsBefore(log) }

    predicate CanStartTurn(wallTimeSpent: bool) reads this { turns < limits.maxTurns && !wallTimeSpent }

    predicate CanExecute() reads this { executions < limits.maxTotalExecutions && failures < limits.maxFailures }

    predicate CanReplan() reads this { replans < limits.maxReplans }
  }

  method Tally(p: ActionProposal, records: seq<ExecutionRecord>) returns (ok: nat, failed: Pairs)
    ensures failed == FailuresOf(p, records) && ok + |failed| == |records|
  {
    ok, failed := 0, [];
    for i := 0 to |records|
      invariant failed == FailuresOf(p, records[..i]) && ok + |failed| == i
    {
      assert records[..i + 1][..i] == records[..i];
      if records[i].ok { ok := ok + 1; } else { failed := failed + [(p.commandId, p.actionId)]; }
    }
    assert records[..|records|] == records;
  }

  /**
   `log` continues the turn that `base` opened, with the first i things done and these successes and failures
   so far.
   */
  ghost predicate Continues(limits: Limits, base: Log, log: Log, i: nat, executed: nat, failed: Pairs) {
    && Legal(limits, log) && log.Then? && TurnExecutions(log) == i
    && Turns(log) == Turns(base) && TurnProposals(log) == TurnProposals(base)
    && FailedTurnsBefore(log) == FailedTurnsBefore(base) && FailedPairs(log) == FailedPairs(base) + failed
    && failed == TurnFailures(log) && executed == TurnSuccesses(log)
  }

  lemma ContinuesWith(limits: Limits, base: Log, log: Log, i: nat, executed: nat, failed: Pairs, e: Event)
    requires Continues(limits, base, log, i, executed, failed) && !IsTurn(e) && IsNext(limits, log, e)
    ensures var done := if e.Executed? then i + 1 else i;
      Continues(limits, base, Then(log, e), done, executed + SuccessesIn(e), failed + PairsIn(e))
  {
    var l, p := Then(log, e), PairsIn(e);
    assert FailedPairs(l) == FailedPairs(log) + p;
    assert FailedPairs(base) + failed + p == FailedPairs(base) + (failed + p);
    assert TurnFailures(l) == TurnFailures(log) + p && TurnSuccesses(l) == TurnSuccesses(log) + SuccessesIn(e);
  }

  /** Ask about one proposal and, if nothing is in the way, execute it. */
  method ExecuteOne(world: World, budget: BudgetController, p: ActionProposal, ghost base: Log, ghost i: nat,
                    executed: nat, failed: Pairs)
    returns (held: bool, spent: bool, executed': nat, failed': Pairs)
    requires budget.WithinLimits() && budget.Matches(world.log)
    requires Continues(budget.limits, base, world.log, i, executed, failed) && !world.log.event.ConfirmationAsked?
    requires i < |Todo(budget.limits, base)| && p == Todo(budget.limits, base)[i]
    requires failed != [] ==> budget.failures < budget.limits.maxFailures
    modifies world, budget`executions
    ensures budget.WithinLimits() && budget.Matches(world.log) && (old(world.Genuine()) ==> world.Genuine())
    ensures Continues(budget.limits, base, world.log, if held || spent then i else i + 1, executed', failed')
    ensures failed' != [] ==> budget.failures < budget.limits.maxFailures
    ensures (held <==> IsHeld(world.log)) && (held || spent ==> TurnOver(budget.limits, world.log))
    ensures !held && !spent ==> world.log.event.Executed?
  {
    ghost var log := world.log;
    executed', failed', spent := executed, failed, false;
    held := world.ConfirmationRequired(p);
    ContinuesWith(budget.limits, base, log, i, executed, failed, world.log.event);
    assert failed + [] == failed;
    if held { return; }
    spent := !budget.CanExecute();
    if spent { return; }
    budget.executions := budget.executions + 1;
    log := world.log;
    var records := world.Execute(p);
    ContinuesWith(budget.limits, base, log, i, executed, failed, world.log.event);
    var ok, bad := Tally(p, records);
    executed', failed' := executed + ok, failed + bad;
  }

  /** The inner loop over a turn's proposals, up to the first that must be confirmed or is beyond the budget. */
  method ExecuteProposals(world: World, budget: BudgetController, proposals: seq<ActionProposal>)
    returns (executed: nat, failed: Pairs, needsConfirmation: bool)
    requires budget.WithinLimits() && budget.Matches(world.log) && Legal(budget.limits, world.log)
    requires world.log.Then? && IsTurn(world.log.event) && proposals == Todo(budget.limits, world.log)
    modifies world, budget`executions
    ensures budget.WithinLimits() && budget.Matches(world.log) && (old(world.Genuine()) ==> world.Genuine())
    ensures exists i :: Continues(budget.limits, old(world.log), world.log, i, executed, failed)
    ensures TurnOver(budget.limits, world.log) && (needsConfirmation <==> IsHeld(world.log))
    ensures failed != [] ==> budget.failures < budget.limits.maxFailures
  {
    executed, failed, needsConfirmation := 0, [], false;
    ghost var base := world.log;
    assert FailedPairs(base) + [] == FailedPairs(base);
    for i := 0 to |proposals|
      invariant budget.WithinLimits() && budget.Matches(world.log) && (old(world.Genuine()) ==> world.Genuine())
      invariant Continues(budget.limits, base, world.log, i, executed, failed) && !world.log.event.ConfirmationAsked?
      invariant failed != [] ==> budget.failures < budget.limits.maxFailures
      invariant !needsConfirmation
    {
      var spent;
      needsConfirmation, spent, executed, failed := ExecuteOne(world, budget, proposals[i], base, i, executed, failed);
      if needsConfirmation || spent { return; }
    }
  }

  datatype RunOutcome = RunOutcome(status: AgentRunStatus, turns: nat, executions: nat, failures: nat, replans: nat)

  /** How a run that stops here ends. */
  function StatusOf(limits: Limits, log: Log): AgentRunStatus {
    if log.Start? then Failed
    else if IsHeld(log) then WaitingForConfirmation
    else if IsDone(limits, log) then Completed
    else if Turns(log) > limits.maxReplans then BudgetExhausted
    else Failed
  }

  /** The turns with a failure; one that is waiting for confirmation has not been counted yet. */
  function FailedTurns(log: Log): nat {
    FailedTurnsBefore(log) + (if TurnFailures(log) != [] && !IsHeld(log) then 1 else 0)
  }

  datatype TurnEnd = Done | Held | Unfinished

  /** One turn: observe, plan or replan, execute. */
  method RunTurn(world: World, budget: BudgetController, observation: Pairs, isReplan: bool)
    returns (end: TurnEnd, seen: Pairs, anyFailed: bool)
    requires budget.WithinLimits() && budget.executions == Executions(world.log)
    requires budget.failures == FailedTurns(world.log)
    requires Legal(budget.limits, world.log) && observation == FailedPairs(world.log) && (isReplan <==> world.log.Then?)
    requires isReplan ==> TurnOver(budget.limits, world.log) && !IsHeld(world.log) && !IsDone(budget.limits, world.log)
    modifies world, budget`executions
    ensures budget.WithinLimits() && budget.Matches(world.log) && (old(world.Genuine()) ==> world.Genuine())
    ensures Legal(budget.limits, world.log) && TurnOver(budget.limits, world.log)
    ensures Turns(world.log) == old(Turns(world.log)) + 1 && seen == FailedPairs(world.log)
    ensures end == if IsHeld(world.log) then Held else if IsDone(budget.limits, world.log) then Done else Unfinished
    ensures anyFailed <==> TurnFailures(world.log) != []
    ensures anyFailed ==> budget.failures < budget.limits.maxFailures
  {
    var answer;
    if isReplan { answer := world.Replan(observation); } else { answer := world.Plan(); }
    var proposals := Take(answer, budget.limits.maxProposalsPerTurn);
    if proposals == [] { return Done, observation, false; }
    var executed, failed, needsConfirmation := ExecuteProposals(world, budget, proposals);
    seen, anyFailed := observation + failed, failed != [];
    end := if needsConfirmation then Held else if failed == [] && executed == |proposals| then Done else Unfinished;
  }

  /** Between turns: the counters are the log's, and if there was a turn it is over and calls for another. */
  ghost predicate Between(limits: Limits, log: Log, b: BudgetController)
    reads b
  {
    && b.limits == limits && b.WithinLimits() && Legal(limits, log)
    && b.turns == Turns(log) == b.replans && b.executions == Executions(log) && b.failures == FailedTurns(log)
    && (log.Then? ==> TurnOver(limits, log) && !IsHeld(log) && !IsDone(limits, log))
  }

  /** After the last turn: it is over, and the counters and the status are what the log says. */
  ghost predicate Finished(limits: Limits, log: Log, b: BudgetController, status: AgentRunStatus)
    reads b
  {
    && b.limits == limits && b.WithinLimits() && Legal(limits, log) && log.Then? && TurnOver(limits, log)
    && b.turns == Turns(log) == b.replans + 1 && b.executions == Executions(log) && b.failures == FailedTurns(log)
    && status != Failed && status == StatusOf(limits, log)
  }

  /** The body of the loop: `status` is the final one, or Replanning to go on. */
  method Round(world: World, budget: BudgetController, observation: Pairs, isReplan: bool)
    returns (status: AgentRunStatus, seen: Pairs)
    requires Between(budget.limits, world.log, budget) && budget.turns < budget.limits.maxTurns
    requires observation == FailedPairs(world.log) && (isReplan <==> world.log.Then?)
    modifies world, budget
    ensures budget.turns == old(budget.turns) + 1 && (old(world.Genuine()) ==> world.Genuine())
    ensures seen == FailedPairs(world.log) && world.log.Then?
    ensures if status == Replanning then Between(budget.limits, world.log, budget)
            else Finished(budget.limits, world.log, budget, status)
  {
    budget.turns := budget.turns + 1;
    var end, observed, anyFailed := RunTurn(world, budget, observation, isReplan);
    seen := observed;
    if end == Done { return Completed, seen; }
    if end == Held { return WaitingForConfirmation, seen; }
    if anyFailed { budget.failures := budget.failures + 1; }
    if !budget.CanReplan() { return BudgetExhausted, seen; }
    budget.replans := budget.replans + 1;
    return Replanning, seen;
  }

  /** Everything reported is what the log shows, and within its limit. */
  ghost predicate Reports(limits: Limits, log: Log, o: RunOutcome) {
    && o.turns == Turns(log) <= limits.maxTurns && o.turns <= limits.maxReplans + 1
    && o.executions == Executions(log) <= limits.maxTotalExecutions
    && o.failures == FailedTurns(log) <= limits.maxFailures
    && o.replans == (if o.status == Failed then o.turns else o.turns - 1) <= limits.maxReplans
    && o.status == StatusOf(limits, log)
  }

  lemma FinishedReports(limits: Limits, log: Log, b: BudgetController, status: AgentRunStatus)
    requires Finished(limits, log, b, status)
    ensures Reports(limits, log, RunOutcome(status, b.turns, b.executions, b.failures, b.replans))
  {
  }

  lemma BetweenReports(limits: Limits, log: Log, b: BudgetController)
    requires Between(limits, log, b)
    ensures Reports(limits, log, RunOutcome(Failed, b.turns, b.executions, b.failures, b.replans))
  {
  }

  /** The loop: it ends with a final status, or for want of turns or time with none. */
  method Rounds(world: World, budget: BudgetController, wallTimeSpent: nat -> bool) returns (status: AgentRunStatus)
    requires world.log == Start && world.Genuine() && Between(budget.limits, world.log, budget)
    modifies world, budget
    ensures world.Genuine() && (forall t | 0 <= t < budget.turns :: !wallTimeSpent(t))
    ensures if status == Created || status == Replanning then
        && Between(budget.limits, world.log, budget)
        && (budget.turns == budget.limits.maxTurns || wallTimeSpent(budget.turns))
      else Finished(budget.limits, world.log, budget, status)
  {
    status := Created;
    var observation: Pairs := [];
    var isReplan := false;
    while budget.CanStartTurn(wallTimeSpent(budget.turns))
      invariant Between(budget.limits, world.log, budget) && world.Genuine()
      invariant observation == FailedPairs(world.log) && (isReplan <==> world.log.Then?)
      invariant status == Created || status == Replanning
      invariant forall t | 0 <= t < budget.turns :: !wallTimeSpent(t)
      decreases budget.limits.maxTurns - budget.turns
    {
      status, observation := Round(world, budget, observation, isReplan);
      if status != Replanning { return; }
      isReplan := true;
    }
  }

  /**
   The log is the run's own, empty when it starts; it is what the loop may do with the answers it got,
   up to the end of a turn, and it determines everything the run reports.
   */
  method RunBoundedAgent(world: World, limits: Limits, wallTimeSpent: nat -> bool) returns (o: RunOutcome)
    requires world.log == Start
    modifies world
    ensures world.Genuine() && Legal(limits, world.log) && (world.log.Then? ==> TurnOver(limits, world.log))
    ensures Reports(limits, world.log, o)
    ensures forall t | 0 <= t < o.turns :: !wallTimeSpent(t)
    ensures o.status == Failed ==> o.turns == limits.maxTurns || wallTimeSpent(o.turns)
  {
    var budget := new BudgetController(limits);
    var status := Rounds(world, budget, wallTimeSpent);
    if status == Created || status == Replanning {
      BetweenReports(limits, world.log, budget);
      status := Failed;
    } else {
      FinishedReports(limits, world.log, budget, status);
    }
    o := RunOutcome(status, budget.turns, budget.executions, budget.failures, budget.replans);
  }

  // ---------------------------------------------------------------- what Completed means

  /** Does an execution that reports no failure report at most one success? */
  predicate AtMostOneSuccess(e: Event) {
    e.Executed? && FailuresOf(e.proposal, e.records) == [] ==> |e.records| <= 1
  }

  predicate NoSurplus(log: Log) { log.Then? ==> NoSurplus(log.past) && AtMostOneSuccess(log.event) }

  lemma {:induction false} SuccessesAreExecutions(log: Log)
    requires NoSurplus(log) && TurnFailures(log) == []
    ensures TurnSuccesses(log) <= TurnExecutions(log)
  {
    if log.Then? && !IsTurn(log.event) { SuccessesAreExecutions(log.past); }
  }

  /** The turn never executes more than it has to do. */
  lemma {:induction false} ExecutionsAreTodo(limits: Limits, log: Log)
    requires Legal(limits, log)
    ensures TurnExecutions(log) <= |Todo(limits, log)|
    ensures log.Then? && log.event.ConfirmationAsked? ==> TurnExecutions(log) < |Todo(limits, log)|
  {
    if log.Then? { ExecutionsAreTodo(limits, log.past); }
  }

  /** A turn that counts as done executed everything exactly when its successes do not outnumber its executions. */
  lemma DoneButUnfinished(limits: Limits, log: Log)
    requires Legal(limits, log) && IsDone(limits, log)
    ensures TurnExecutions(log) == |Todo(limits, log)| <==> TurnSuccesses(log) <= TurnExecutions(log)
  {
    ExecutionsAreTodo(limits, log);
  }

  /**
   With a host whose clean executions report at most one success each, Completed means that everything was
   executed.
   */
  lemma DoneMeansAllExecuted(limits: Limits, log: Log)
    requires Legal(limits, log) && NoSurplus(log) && IsDone(limits, log)
    ensures TurnExecutions(log) == |Todo(limits, log)|
  {
    SuccessesAreExecutions(log);
    DoneButUnfinished(limits, log);
  }

  predicate OneRecordEach(log: Log) {
    log.Then? ==> OneRecordEach(log.past) && (log.event.Executed? ==> |log.event.records| == 1)
  }

  lemma {:induction false} RecordsAdd(log: Log)
    requires OneRecordEach(log)
    ensures TurnSuccesses(log) + |TurnFailures(log)| == TurnExecutions(log)
  {
    if log.Then? { RecordsAdd(log.past); }
  }

  /** And with exactly one record each, everything executed without a failure means done. */
  lemma AllExecutedMeansDone(limits: Limits, log: Log)
    requires OneRecordEach(log) && TurnExecutions(log) == |Todo(limits, log)| && TurnFailures(log) == []
    ensures IsDone(limits, log)
  {
    RecordsAdd(log);
  }

  lemma {:induction false} CleanRecords(p: ActionProposal, records: seq<ExecutionRecord>)
    requires forall r | r in records :: r.ok
    ensures FailuresOf(p, records) == []
  {
    if records != [] { CleanRecords(p, records[..|records| - 1]); }
  }

  /**
   The bound is needed: whatever clean records an execution reports, if there are two or more, a run that
   proposes as many things as there are records, with budget for one, is Completed after the first.
   */
  lemma SurplusCompletes(ps: seq<ActionProposal>, records: seq<ExecutionRecord>, limits: Limits) returns (log: Log)
    requires |ps| == |records| >= 2 && forall r | r in records :: r.ok
    requires limits.maxTotalExecutions == 1 && limits.maxProposalsPerTurn == |ps| && limits.maxFailures > 0
    ensures Legal(limits, log) && TurnOver(limits, log) && StatusOf(limits, log) == Completed
    ensures TurnExecutions(log) == 1 < |Todo(limits, log)|
  {
    CleanRecords(ps[0], records);
    var planned := Then(Start, Planned(ps));
    Accounts(Start, Planned(ps));
    var asked := Then(planned, ConfirmationAsked(ps[0], false));
    Accounts(planned, ConfirmationAsked(ps[0], false));
    assert Legal(limits, planned) && Legal(limits, asked);
    var executed := Then(asked, Executed(ps[0], records));
    Accounts(asked, Executed(ps[0], records));
    assert Legal(limits, executed);
    log := Then(executed, ConfirmationAsked(ps[1], false));
    Accounts(executed, ConfirmationAsked(ps[1], false));
  }

  /** What one more event adds to each account of the log. */
  lemma Accounts(log: Log, e: Event)
    ensures var l := Then(log, e);
      && Executions(l) == Executions(log) + (if e.Executed? then 1 else 0)
      && TurnProposals(l) == (if IsTurn(e) then e.proposals else TurnProposals(log))
      && TurnExecutions(l) == (if IsTurn(e) then 0 else TurnExecutions(log) + if e.Executed? then 1 else 0)
      && TurnSuccesses(l) == (if IsTurn(e) then 0 else TurnSuccesses(log) + SuccessesIn(e))
      && TurnFailures(l) == (if IsTurn(e) then [] else TurnFailures(log) + PairsIn(e))
      && FailedTurnsBefore(l) == FailedTurnsBefore(log) + (if IsTurn(e) && TurnFailures(log) != [] then 1 else 0)
  {
  }
}
