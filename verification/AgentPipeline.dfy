/**
 The agent pipeline from parsed request to classified proposal. The intent parser and
 the clarification policy, the model call and the JSON reader are arbitrary: their
 answers are parameters.
 */
module AgentPipeline {
  import opened Wrappers
  import opened AgentContract

  datatype PipelineError = ModelFailed(message: string) | NotAProposal(message: string) | Rejected(fault: ContractError)

  datatype PipelineOutcome =
    | Proposed(proposal: AgentProposal, risks: seq<RiskLevel>, prompt: string)
    | Clarify(question: string)

  /** What the pipeline consults outside itself. */
  datatype Surroundings = Surroundings(
    intent: AgentIntent, clarification: Option<string>, prompt: string,
    model: string -> Result<string, string>, read: string -> Result<AgentProposal, string>)

  /** Approval is added where the risk class asks for it; nothing else changes, nothing is waived. */
  function Flagged(plan: seq<PlanStep>): (r: seq<PlanStep>)
    ensures |r| == |plan|
    ensures forall i | 0 <= i < |plan| :: r[i] == plan[i].(requiresApproval := r[i].requiresApproval)
    ensures forall i | 0 <= i < |plan| ::
      r[i].requiresApproval <==> plan[i].requiresApproval || Classify(plan[i]).RequiresApproval()
    ensures forall i | 0 <= i < |plan| :: Classify(r[i]) == Classify(plan[i])
  {
    seq(|plan|, i requires 0 <= i < |plan| =>
      plan[i].(requiresApproval := plan[i].requiresApproval || Classify(plan[i]).RequiresApproval()))
  }

  function Risks(plan: seq<PlanStep>): seq<RiskLevel> {
    seq(|plan|, i requires 0 <= i < |plan| => Classify(plan[i]))
  }

  method ValidateModelOutput(w: Surroundings, raw: string) returns (r: Result<AgentProposal, PipelineError>)
    ensures match w.read(raw)
      case Err(e) => r == Err(NotAProposal(e))
      case Ok(p) =>
        if IsValidProposal(p) then r == Ok(p)
        else r.Err? && r.error.Rejected? && IsProposalFault(p, r.error.fault)
  {
    match w.read(raw)
    case Err(e) => return Err(NotAProposal(e));
    case Ok(p) =>
      var fault := ValidateProposal(p);
      return if fault.Some? then Err(Rejected(fault.value)) else Ok(p);
  }

  /**
   Clarification comes before any model call; otherwise the result is the model's
   proposal, valid, with every step's approval flag raised to what its class needs.
   The second validation never fails: flags and intent are not part of the contract.
   */
  method RunPipeline(w: Surroundings) returns (r: Result<PipelineOutcome, PipelineError>)
    ensures w.clarification.Some? ==> r == Ok(Clarify(w.clarification.value))
    ensures w.clarification.None? ==>
      match w.model(w.prompt)
      case Err(e) => r == Err(ModelFailed(e))
      case Ok(text) =>
        match w.read(text)
        case Err(e) => r == Err(NotAProposal(e))
        case Ok(raw) =>
          if IsValidProposal(raw) then
            && r == Ok(Proposed(raw.(intent := w.intent, plan := Flagged(raw.plan)), Risks(raw.plan), w.prompt))
            && IsValidProposal(r.value.proposal)
          else
            r.Err? && r.error.Rejected? && IsProposalFault(raw, r.error.fault)
  {
    if w.clarification.Some? { return Ok(Clarify(w.clarification.value)); }
    var answer := w.model(w.prompt);
    if answer.Err? { return Err(ModelFailed(answer.error)); }
    var validated := ValidateModelOutput(w, answer.value);
    if validated.Err? { return Err(validated.error); }
    ghost var raw := validated.value;
    var proposal := validated.value.(intent := w.intent);
    var risks := Risks(proposal.plan);
    for i := 0 to |proposal.plan|
      invariant proposal == raw.(intent := w.intent, plan := proposal.plan) && |proposal.plan| == |raw.plan|
      invariant forall j | 0 <= j < |raw.plan| ::
        proposal.plan[j] == if j < i then Flagged(raw.plan)[j] else raw.plan[j]
    {
      if risks[i].RequiresApproval() {
        proposal := proposal.(plan := proposal.plan[i := proposal.plan[i].(requiresApproval := true)]);
      }
    }
    assert proposal.plan == Flagged(raw.plan);
    FlagsAreNotPartOfTheContract(raw, w.intent);
    var fault := ValidateProposal(proposal);
    if fault.Some? { assert false; }
    return Ok(Proposed(proposal, risks, w.prompt));
  }

  lemma FlagsAreNotPartOfTheContract(raw: AgentProposal, intent: AgentIntent)
    requires IsValidProposal(raw)
    ensures IsValidProposal(raw.(intent := intent, plan := Flagged(raw.plan)))
  {
    var plan := Flagged(raw.plan);
    forall s | s in plan
      ensures IsBoundedId(s.stepId) && s.actionRef != "" && !HasSeparator(s.actionRef) && IsBoundedInput(s.input)
    {
      var i :| 0 <= i < |plan| && plan[i] == s;
      assert raw.plan[i] in raw.plan;
    }
    forall i, j | 0 <= i < j < |plan| ensures plan[i].stepId != plan[j].stepId {
      assert raw.plan[i].stepId != raw.plan[j].stepId;
    }
  }
}
