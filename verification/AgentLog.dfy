/**
 What the log of the bounded loop shows, read off its events alone: which proposals a turn executes, what a
 planner is told, what stops a turn and when a run counts as completed.
 */
module AgentLog {
  import opened BoundedAgent

  /** The events of a run, oldest first. */
  function Events(log: Log): (es: seq<Event>)
    ensures |es| == Length(log)
  {
    if log.Start? then [] else Events(log.past) + [log.event]
  }

  /** Event t starts a turn, and up to u no other does. */
  ghost predicate OneTurn(es: seq<Event>, t: nat, u: nat) {
    t < u <= |es| && IsTurn(es[t]) && forall k | t < k < u :: !IsTurn(es[k])
  }

  /** What is executed in these events, in order. */
  function ExecutedIn(es: seq<Event>): (ps: seq<ActionProposal>) {
    if es == [] then []
    else
      var e := es[|es| - 1];
      ExecutedIn(es[..|es| - 1]) + (if e.Executed? then [e.proposal] else [])
  }

  ghost predicate IsFailure(e: Event) { e.Executed? && exists i | 0 <= i < |e.records| :: !e.records[i].ok }

  lemma LastSplit(es: seq<Event>, t: nat, u: nat)
    requires t + 1 < u <= |es|
    ensures es[t + 1..u] == es[t + 1..u - 1] + [es[u - 1]]
    ensures ExecutedIn(es[t + 1..u]) ==
      ExecutedIn(es[t + 1..u - 1]) + (if es[u - 1].Executed? then [es[u - 1].proposal] else [])
  {
    var part := es[t + 1..u];
    assert part[..|part| - 1] == es[t + 1..u - 1];
  }

  /** The accounts of the turn in progress say what its events say. */
  lemma {:induction false} TurnAccounts(limits: Limits, log: Log, t: nat)
    requires Legal(limits, log) && OneTurn(Events(log), t, Length(log))
    ensures var es := Events(log);
      && TurnProposals(log) == es[t].proposals
      && TurnExecutions(log) == |ExecutedIn(es[t + 1..])| <= |Todo(limits, log)|
      && ExecutedIn(es[t + 1..]) == Todo(limits, log)[..TurnExecutions(log)]
  {
    ExecutionsAreTodo(limits, log);
    var es, u := Events(log), Length(log);
    assert es[t + 1..] == es[t + 1..u];
    if t + 1 == u {
      assert es[t + 1..u] == [] && log.event == es[t];
    } else {
      PastTurn(log, t);
      TurnAccounts(limits, log.past, t);
      LastSplit(es, t, u);
      assert Events(log.past)[t + 1..] == es[t + 1..u - 1];
      assert Todo(limits, log) == Todo(limits, log.past);
      if log.event.Executed? { ExecutedIsAskedFor(limits, log); }
    }
  }

  lemma PastTurn(log: Log, t: nat)
    requires OneTurn(Events(log), t, Length(log)) && t + 1 < Length(log)
    ensures log.Then? && !IsTurn(log.event) && OneTurn(Events(log.past), t, Length(log.past))
  {
    var es, past := Events(log), Events(log.past);
    assert es[|es| - 1] == log.event && forall k | 0 <= k < |past| :: past[k] == es[k];
  }

  /** What is executed is the first thing of the turn that has not been. */
  lemma ExecutedIsAskedFor(limits: Limits, log: Log)
    requires Legal(limits, log) && log.Then? && log.event.Executed?
    ensures TurnExecutions(log.past) < |Todo(limits, log)|
    ensures log.event.proposal == Todo(limits, log)[TurnExecutions(log.past)]
  {
    var asked := log.past;
    assert IsNext(limits, asked, log.event);
    assert asked.event == ConfirmationAsked(log.event.proposal, false);
    assert Legal(limits, asked);
    assert IsNext(limits, asked.past, asked.event);
    assert TurnProposals(log) == TurnProposals(asked) == TurnProposals(asked.past);
    assert TurnExecutions(asked) == TurnExecutions(asked.past);
  }

  /** An earlier part of a log is the log that was. */
  lemma {:induction false} Earlier(limits: Limits, log: Log, u: nat) returns (was: Log)
    requires Legal(limits, log) && u <= Length(log)
    ensures Legal(limits, was) && Events(was) == Events(log)[..u]
  {
    if u == Length(log) { return log; }
    was := Earlier(limits, log.past, u);
    assert Events(log)[..u] == Events(log.past)[..u];
  }

  /**
   Whatever a turn has executed by any moment is the beginning of the planner's answer to that turn, and not
   more than the limit of a turn.
   */
  lemma ExecutesThePlannersFirst(limits: Limits, log: Log, t: nat, u: nat)
    requires Legal(limits, log) && OneTurn(Events(log), t, u)
    ensures var es := Events(log);
      ExecutedIn(es[t + 1..u]) <= es[t].proposals && |ExecutedIn(es[t + 1..u])| <= limits.maxProposalsPerTurn
  {
    var was := Earlier(limits, log, u);
    assert OneTurn(Events(was), t, u);
    TurnAccounts(limits, was, t);
    assert Events(was)[t + 1..] == Events(log)[t + 1..u];
  }

  /** Every question is about the first proposal of the answer not yet executed; what is executed was asked about. */
  lemma AsksAboutTheNext(limits: Limits, log: Log, t: nat, k: nat)
    requires Legal(limits, log) && OneTurn(Events(log), t, k + 1) && t < k
    ensures var es := Events(log);
      var done := |ExecutedIn(es[t + 1..k])|;
      && done < |es[t].proposals| && done < limits.maxProposalsPerTurn
      && match es[k]
         case ConfirmationAsked(p, _) => p == es[t].proposals[done]
         case Executed(p, _) => p == es[t].proposals[done] && es[k - 1] == ConfirmationAsked(p, false)
         case _ => false
  {
    var es := Events(log);
    var was := Earlier(limits, log, k + 1);
    var before := was.past;
    assert Events(was)[k] == was.event == es[k] && !IsTurn(was.event);
    assert Events(before) == es[..k];
    assert OneTurn(Events(before), t, k);
    TurnAccounts(limits, before, t);
    assert Events(before)[t + 1..] == es[t + 1..k];
    if was.event.Executed? {
      ExecutedIsAskedFor(limits, was);
      assert before.event == Events(before)[k - 1];
    }
  }

  // ---------------------------------------------------------------- failures

  /** How many of the records are not ok. */
  function Bad(records: seq<ExecutionRecord>): nat { |set i: nat | i < |records| && !records[i].ok| }

  lemma BadGrows(records: seq<ExecutionRecord>)
    requires records != []
    ensures var last := |records| - 1;
      Bad(records) == Bad(records[..last]) + (if records[last].ok then 0 else 1)
  {
    var last := |records| - 1;
    var shorter := set i: nat | i < last && !records[..last][i].ok;
    var longer := set i: nat | i < |records| && !records[i].ok;
    assert longer == if records[last].ok then shorter else shorter + {last};
  }

  /** An execution yields its own command and action once for every record that is not ok, and nothing else. */
  lemma {:induction false} FailuresByRecord(p: ActionProposal, records: seq<ExecutionRecord>)
    ensures FailuresOf(p, records) == seq(Bad(records), _ => (p.commandId, p.actionId))
  {
    if records != [] {
      FailuresByRecord(p, records[..|records| - 1]);
      BadGrows(records);
    }
  }

  /** What has failed in these events: for every execution as many pairs as it has bad records, in order. */
  function FailedIn(es: seq<Event>): (r: Pairs) {
    if es == [] then []
    else
      var e := es[|es| - 1];
      FailedIn(es[..|es| - 1]) +
      (if e.Executed? then seq(Bad(e.records), _ => (e.proposal.commandId, e.proposal.actionId)) else [])
  }

  lemma {:induction false} FailedPairsByEvents(log: Log)
    ensures FailedPairs(log) == FailedIn(Events(log))
  {
    if log.Then? {
      FailedPairsByEvents(log.past);
      var es := Events(log);
      assert es[..|es| - 1] == Events(log.past);
      if log.event.Executed? { FailuresByRecord(log.event.proposal, log.event.records); }
    }
  }

  /** A later turn's planner is told exactly what has failed in the run so far. */
  lemma PlannerIsToldTheFailures(limits: Limits, log: Log, k: nat)
    requires Legal(limits, log) && k < Length(log) && Events(log)[k].Replanned?
    ensures Events(log)[k].failed == FailedIn(Events(log)[..k])
  {
    var was := Earlier(limits, log, k + 1);
    assert Events(was)[k] == was.event == Events(log)[k];
    assert Events(was.past) == Events(log)[..k];
    FailedPairsByEvents(was.past);
  }

  // ---------------------------------------------------------------- budgets

  /** The turn that starts at t has a failure. */
  ghost predicate Failing(es: seq<Event>, t: nat) {
    t < |es| && IsTurn(es[t]) && exists k: nat :: OneTurn(es, t, k + 1) && t < k && IsFailure(es[k])
  }

  ghost function FailingTurns(es: seq<Event>): set<nat> { set t: nat | t < |es| && Failing(es, t) }

  lemma FailureShows(p: ActionProposal, records: seq<ExecutionRecord>)
    ensures FailuresOf(p, records) != [] <==> IsFailure(Executed(p, records))
  {
    var bad := set i: nat | i < |records| && !records[i].ok;
    FailuresByRecord(p, records);
    if i: nat :| i < |records| && !records[i].ok { assert i in bad; }
  }

  lemma FailingStays(es: seq<Event>, e: Event, t: nat)
    requires t < |es|
    ensures Failing(es + [e], t) <==> Failing(es, t) || (OneTurn(es + [e], t, |es| + 1) && IsFailure(e))
  {
    var more := es + [e];
    assert forall j | 0 <= j < |es| :: es[j] == more[j];
    if k: nat :| OneTurn(es, t, k + 1) && t < k && IsFailure(es[k]) {
      assert OneTurn(more, t, k + 1) && IsFailure(more[k]);
    }
    if k: nat :| OneTurn(more, t, k + 1) && t < k && IsFailure(more[k]) {
      assert k < |es| ==> OneTurn(es, t, k + 1) && IsFailure(es[k]);
    }
    if OneTurn(more, t, |es| + 1) && IsFailure(e) { assert IsFailure(more[|es|]); }
  }

  lemma FailingTurnsGrow(es: seq<Event>, e: Event)
    ensures IsTurn(e) || !IsFailure(e) ==> FailingTurns(es + [e]) == FailingTurns(es)
    ensures forall t | OneTurn(es, t, |es|) && IsFailure(e) :: FailingTurns(es + [e]) == FailingTurns(es) + {t}
  {
    forall t: nat | t < |es|
      ensures Failing(es + [e], t) <==> Failing(es, t) || (OneTurn(es + [e], t, |es| + 1) && IsFailure(e))
    {
      FailingStays(es, e, t);
    }
    assert !Failing(es + [e], |es|);
  }

  /** In a legal log some turn is in progress from the first event on. */
  lemma {:induction false} TurnInProgress(limits: Limits, log: Log) returns (t: nat)
    requires Legal(limits, log) && log.Then?
    ensures OneTurn(Events(log), t, Length(log))
  {
    if IsTurn(log.event) { return Length(log) - 1; }
    t := TurnInProgress(limits, log.past);
    assert forall k | 0 <= k < |Events(log.past)| :: Events(log.past)[k] == Events(log)[k];
  }

  /** A turn that failed is counted when the next one starts. */
  lemma {:induction false} FailedTurnsByEvents(limits: Limits, log: Log, t: nat)
    requires Legal(limits, log) && OneTurn(Events(log), t, Length(log))
    ensures TurnFailures(log) != [] <==> t in FailingTurns(Events(log))
    ensures FailedTurnsBefore(log) == |FailingTurns(Events(log)) - {t}|
    decreases log, 1
  {
    var es := Events(log);
    if IsTurn(log.event) {
      assert es[|es| - 1] == log.event && t == |es| - 1;
      FailedAtTurn(limits, log);
      assert FailingTurns(es) - {t} == FailingTurns(es);
    } else {
      PastTurn(log, t);
      FailedTurnsByEvents(limits, log.past, t);
      FailedInTurn(log, t);
    }
  }

  lemma FailedInTurn(log: Log, t: nat)
    requires log.Then? && OneTurn(Events(log.past), t, Length(log.past)) && !IsTurn(log.event)
    requires TurnFailures(log.past) != [] <==> t in FailingTurns(Events(log.past))
    ensures TurnFailures(log) != [] <==> t in FailingTurns(Events(log))
    ensures FailingTurns(Events(log)) - {t} == FailingTurns(Events(log.past)) - {t}
  {
    FailingTurnsGrow(Events(log.past), log.event);
    if log.event.Executed? { FailureShows(log.event.proposal, log.event.records); }
  }

  lemma {:induction false} FailedAtTurn(limits: Limits, log: Log)
    requires Legal(limits, log) && log.Then? && IsTurn(log.event)
    ensures FailedTurnsBefore(log) == |FailingTurns(Events(log))| && Length(log) - 1 !in FailingTurns(Events(log))
    decreases log, 0
  {
    var es, before := Events(log), Events(log.past);
    FailingTurnsGrow(before, log.event);
    if log.past.Start? {
      assert FailingTurns(before) == {};
    } else {
      var t := TurnInProgress(limits, log.past);
      FailedTurnsByEvents(limits, log.past, t);
      var failing := FailingTurns(before);
      assert t in failing ==> failing == (failing - {t}) + {t};
      assert t !in failing ==> failing == failing - {t};
    }
  }

  lemma {:induction false} ExecutionsByEvents(log: Log)
    ensures Executions(log) == |ExecutedIn(Events(log))|
  {
    if log.Then? {
      ExecutionsByEvents(log.past);
      assert Events(log)[..|Events(log)| - 1] == Events(log.past);
    }
  }

  /** Some budget that an execution needs is used up: the executions, or the failed turns before this one. */
  ghost predicate Exhausted(limits: Limits, es: seq<Event>, t: nat) {
    |ExecutedIn(es)| >= limits.maxTotalExecutions || |FailingTurns(es) - {t}| >= limits.maxFailures
  }

  /** How much of the answer that turn t got is to be done. */
  function Wanted(limits: Limits, answer: seq<ActionProposal>): nat {
    if |answer| < limits.maxProposalsPerTurn then |answer| else limits.maxProposalsPerTurn
  }

  lemma AllDone(limits: Limits, log: Log, t: nat)
    requires Legal(limits, log) && OneTurn(Events(log), t, Length(log))
    ensures TurnExecutions(log) == |Todo(limits, log)| <==>
      |ExecutedIn(Events(log)[t + 1..])| == Wanted(limits, Events(log)[t].proposals)
  {
    TurnAccounts(limits, log, t);
  }

  /**
   A turn is over exactly when something must be confirmed, when a budget stands in the way of what has just been
   asked about, or when everything wanted has been executed.
   */
  lemma TurnOverExactly(limits: Limits, log: Log, t: nat)
    requires Legal(limits, log) && OneTurn(Events(log), t, Length(log))
    ensures var es := Events(log);
      TurnOver(limits, log) <==>
        match es[|es| - 1]
        case ConfirmationAsked(_, required) => required || Exhausted(limits, es, t)
        case _ => |ExecutedIn(es[t + 1..])| == Wanted(limits, es[t].proposals)
  {
    var es := Events(log);
    assert es[|es| - 1] == log.event;
    if log.event.ConfirmationAsked? {
      MayExecuteExactly(limits, log, t);
    } else {
      AllDone(limits, log, t);
    }
  }

  /** Nothing is executed beyond a budget. */
  lemma ExecutedWithinBudget(limits: Limits, log: Log, t: nat, k: nat)
    requires Legal(limits, log) && OneTurn(Events(log), t, k + 1) && Events(log)[k].Executed?
    ensures !Exhausted(limits, Events(log)[..k], t)
  {
    var was := Earlier(limits, log, k + 1);
    assert Events(was)[k] == was.event && Events(was.past) == Events(log)[..k];
    assert OneTurn(Events(was.past), t, k);
    MayExecuteExactly(limits, was.past, t);
  }

  lemma MayExecuteExactly(limits: Limits, log: Log, t: nat)
    requires Legal(limits, log) && OneTurn(Events(log), t, Length(log))
    ensures MayExecute(limits, log) <==> !Exhausted(limits, Events(log), t)
  {
    ExecutionsByEvents(log);
    FailedTurnsByEvents(limits, log, t);
  }

  function Good(records: seq<ExecutionRecord>): nat { |set i: nat | i < |records| && records[i].ok| }

  lemma GoodGrows(records: seq<ExecutionRecord>)
    requires records != []
    ensures var last := |records| - 1;
      Good(records) == Good(records[..last]) + (if records[last].ok then 1 else 0)
  {
    var last := |records| - 1;
    var shorter := set i: nat | i < last && records[..last][i].ok;
    var longer := set i: nat | i < |records| && records[i].ok;
    assert longer == if records[last].ok then shorter + {last} else shorter;
  }

  lemma {:induction false} GoodAndBad(records: seq<ExecutionRecord>)
    ensures Good(records) + Bad(records) == |records|
  {
    if records != [] {
      GoodAndBad(records[..|records| - 1]);
      GoodGrows(records);
      BadGrows(records);
    }
  }

  /** The ok records of all executions among these events. */
  function GoodIn(es: seq<Event>): nat {
    if es == [] then 0
    else
      var e := es[|es| - 1];
      GoodIn(es[..|es| - 1]) + (if e.Executed? then Good(e.records) else 0)
  }

  lemma OutcomesOf(p: ActionProposal, records: seq<ExecutionRecord>)
    ensures |records| - |FailuresOf(p, records)| == Good(records)
    ensures FailuresOf(p, records) == seq(Bad(records), _ => (p.commandId, p.actionId))
  {
    FailuresByRecord(p, records);
    GoodAndBad(records);
  }

  lemma {:induction false} TurnSuccessesByEvents(log: Log, t: nat)
    requires OneTurn(Events(log), t, Length(log))
    ensures TurnSuccesses(log) == GoodIn(Events(log)[t + 1..]) && TurnFailures(log) == FailedIn(Events(log)[t + 1..])
  {
    var es, u := Events(log), Length(log);
    var part := es[t + 1..];
    if t + 1 == u {
      assert part == [] && log.event == es[t];
    } else {
      PastTurn(log, t);
      TurnSuccessesByEvents(log.past, t);
      assert part[..|part| - 1] == Events(log.past)[t + 1..] && part[|part| - 1] == log.event;
      if log.event.Executed? { OutcomesOf(log.event.proposal, log.event.records); }
    }
  }

  /** A run that stops here is Completed exactly when the turn has no bad record and one good one for each wanted. */
  lemma CompletedExactly(limits: Limits, log: Log, t: nat)
    requires Legal(limits, log) && OneTurn(Events(log), t, Length(log)) && !IsHeld(log)
    ensures var turn := Events(log)[t + 1..];
      StatusOf(limits, log).Completed? <==>
        FailedIn(turn) == [] && GoodIn(turn) == Wanted(limits, Events(log)[t].proposals)
  {
    TurnAccounts(limits, log, t);
    TurnSuccessesByEvents(log, t);
  }
}
