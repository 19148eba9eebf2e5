/** Proposals, edited plan documents and the risk classes of their steps. */
module AgentContract {
  import opened Text
  import opened Wrappers

  datatype Json = JsonString(text: string) | JsonOther(token: int)

  datatype PlanStep = PlanStep(
    stepId: string, actionRef: string, input: Json, rationale: Option<string>, requiresApproval: bool)

  datatype AgentIntent = Search | Open | Execute | Workflow | Explain | Unknown

  /** A float: a real number, or one of NaN and the infinities. */
  datatype Confidence = Number(value: real) | NotANumber {
    predicate InUnitRange() { Number? && 0.0 <= value <= 1.0 }
  }

  datatype AgentProposal = AgentProposal(
    proposalId: string, sessionId: string, userGoal: string, intent: AgentIntent,
    plan: seq<PlanStep>, confidence: Confidence, explanation: Option<string>)

  datatype ContractError =
    | InvalidProposalId
    | InvalidSessionId
    | InvalidUserGoal
    | InvalidConfidence
    | EmptyPlan
    | TooManySteps
    | UnknownVersion(got: int)
    | InvalidStepId(id: string)
    | DuplicateStepId(id: string)
    | InvalidActionRef(actionRef: string)
    | InputTooLarge(id: string)

  /** What `trim().is_empty()` tests. */
  predicate IsBlank(s: string) { forall i | 0 <= i < |s| :: IsWhitespace(s[i]) }

  predicate IsBoundedId(s: string) { s != "" && ByteLength(s) <= 128 }

  predicate IsGoal(s: string) { !IsBlank(s) && ByteLength(s) <= 4096 }

  predicate HasSeparator(s: string) { '/' in s || '\\' in s }

  predicate IsBoundedInput(j: Json) { j.JsonString? ==> ByteLength(j.text) <= 64 * 1024 }

  ghost predicate UniqueStepIds(plan: seq<PlanStep>) {
    forall i, j | 0 <= i < j < |plan| :: plan[i].stepId != plan[j].stepId
  }

  // ---------------------------------------------------------------- proposals

  ghost predicate IsValidProposal(p: AgentProposal) {
    && IsBoundedId(p.proposalId) && IsBoundedId(p.sessionId) && IsGoal(p.userGoal)
    && p.confidence.InUnitRange()
    && p.plan != [] && UniqueStepIds(p.plan) && forall s | s in p.plan :: IsProposalStep(s)
  }

  ghost predicate IsProposalStep(s: PlanStep) {
    IsBoundedId(s.stepId) && s.actionRef != "" && !HasSeparator(s.actionRef) && IsBoundedInput(s.input)
  }

  /** The fail-closed contract check: it passes exactly the valid proposals, and names the first fault of any other. */
  method ValidateProposal(p: AgentProposal) returns (e: Option<ContractError>)
    ensures e == None <==> IsValidProposal(p)
    ensures e.Some? ==> IsProposalFault(p, e.value)
  {
    if !IsBoundedId(p.proposalId) { return Some(InvalidProposalId); }
    if !IsBoundedId(p.sessionId) { return Some(InvalidSessionId); }
    if IsBlank(p.userGoal) || ByteLength(p.userGoal) > 4096 { return Some(InvalidUserGoal); }
    if !p.confidence.InUnitRange() { return Some(InvalidConfidence); }
    if p.plan == [] { return Some(EmptyPlan); }
    var seen: set<string> := {};
    for i := 0 to |p.plan|
      invariant UniqueStepIds(p.plan[..i])
      invariant seen == set s | s in p.plan[..i] :: s.stepId
      invariant forall s | s in p.plan[..i] :: IsProposalStep(s)
    {
      var s := p.plan[i];
      assert s in p.plan;
      if !IsBoundedId(s.stepId) {
        assert IsFirstBad(p, i, InvalidStepId(s.stepId));
        return Some(InvalidStepId(s.stepId));
      }
      if s.stepId in seen {
        ghost var t :| t in p.plan[..i] && t.stepId == s.stepId;
        ghost var k :| 0 <= k < i && p.plan[k] == t;
        assert IsFirstBad(p, i, DuplicateStepId(s.stepId));
        return Some(DuplicateStepId(s.stepId));
      }
      assert p.plan[..i + 1] == p.plan[..i] + [s];
      seen := seen + {s.stepId};
      if s.actionRef == "" || HasSeparator(s.actionRef) {
        assert IsFirstBad(p, i, InvalidActionRef(s.actionRef));
        return Some(InvalidActionRef(s.actionRef));
      }
      if !IsBoundedInput(s.input) {
        assert IsFirstBad(p, i, InputTooLarge(s.stepId));
        return Some(InputTooLarge(s.stepId));
      }
    }
    assert p.plan[..|p.plan|] == p.plan;
    return None;
  }

  /** The first thing wrong with a proposal: its own parts in their order, then its steps in theirs. */
  ghost predicate IsProposalFault(p: AgentProposal, e: ContractError) {
    if !IsBoundedId(p.proposalId) then e == InvalidProposalId
    else if !IsBoundedId(p.sessionId) then e == InvalidSessionId
    else if IsBlank(p.userGoal) || ByteLength(p.userGoal) > 4096 then e == InvalidUserGoal
    else if !p.confidence.InUnitRange() then e == InvalidConfidence
    else if p.plan == [] then e == EmptyPlan
    else exists i: nat :: IsFirstBad(p, i, e)
  }

  /** Step i is the first that is wrong, and this is the first thing wrong with it. */
  ghost predicate IsFirstBad(p: AgentProposal, i: nat, e: ContractError) {
    && i < |p.plan| && UniqueStepIds(p.plan[..i]) && (forall s | s in p.plan[..i] :: IsProposalStep(s))
    && var s := p.plan[i];
       if !IsBoundedId(s.stepId) then e == InvalidStepId(s.stepId)
       else if exists t :: t in p.plan[..i] && t.stepId == s.stepId then e == DuplicateStepId(s.stepId)
       else if s.actionRef == "" || HasSeparator(s.actionRef) then e == InvalidActionRef(s.actionRef)
       else e == InputTooLarge(s.stepId) && !IsBoundedInput(s.input)
  }

  // ---------------------------------------------------------------- plan documents

  const PLAN_SCHEMA_VERSION := 1

  datatype PlanDocument = PlanDocument(
    schemaVersion: int, proposalId: string, sessionId: string, userGoal: string, steps: seq<PlanStep>)

  predicate IsDocumentStep(s: PlanStep) {
    IsBoundedId(s.stepId) && !IsBlank(s.actionRef) && ByteLength(s.actionRef) <= 256
  }

  /** Compares every pair; the source remembers the ids seen. */
  predicate IsValidDocument(d: PlanDocument) {
    && d.schemaVersion == PLAN_SCHEMA_VERSION
    && IsBoundedId(d.proposalId) && IsBoundedId(d.sessionId) && IsGoal(d.userGoal)
    && 0 < |d.steps| <= 64
    && (forall i, j | 0 <= i < j < |d.steps| :: d.steps[i].stepId != d.steps[j].stepId)
    && forall s | s in d.steps :: IsDocumentStep(s)
  }

  /** The first fault of a document, in the order the check looks. */
  function DocumentFault(d: PlanDocument): (e: Option<ContractError>)
    ensures e == None <==> IsValidDocument(d)
  {
    if d.schemaVersion != PLAN_SCHEMA_VERSION then Some(UnknownVersion(d.schemaVersion))
    else if !IsBoundedId(d.proposalId) then Some(InvalidProposalId)
    else if !IsBoundedId(d.sessionId) then Some(InvalidSessionId)
    else if !IsGoal(d.userGoal) then Some(InvalidUserGoal)
    else if d.steps == [] then Some(EmptyPlan)
    else if |d.steps| > 64 then Some(TooManySteps)
    else
      StepFaultIff(d.steps, {});
      StepFault(d.steps, {})
  }

  function StepFault(steps: seq<PlanStep>, seen: set<string>): Option<ContractError> {
    if steps == [] then None
    else
      var s := steps[0];
      if !IsBoundedId(s.stepId) then Some(InvalidStepId(s.stepId))
      else if s.stepId in seen then Some(DuplicateStepId(s.stepId))
      else if IsBlank(s.actionRef) || ByteLength(s.actionRef) > 256 then Some(InvalidActionRef(s.actionRef))
      else StepFault(steps[1..], seen + {s.stepId})
  }

  lemma {:induction false} StepFaultIff(steps: seq<PlanStep>, seen: set<string>)
    ensures StepFault(steps, seen) == None <==>
            && UniqueStepIds(steps)
            && forall s | s in steps :: IsDocumentStep(s) && s.stepId !in seen
    decreases |steps|
  {
    if steps != [] {
      var s, rest := steps[0], steps[1..];
      StepFaultIff(rest, seen + {s.stepId});
      assert steps == [s] + rest;
      if UniqueStepIds(steps) {
        forall i, j | 0 <= i < j < |rest| ensures rest[i].stepId != rest[j].stepId {
          assert steps[i + 1].stepId != steps[j + 1].stepId;
        }
        forall t | t in rest ensures t.stepId != s.stepId {
          var i :| 0 <= i < |rest| && rest[i] == t;
          assert steps[0].stepId != steps[i + 1].stepId;
        }
      } else {
        var i, j :| 0 <= i < j < |steps| && steps[i].stepId == steps[j].stepId;
        assert steps[j] == rest[j - 1] && rest[j - 1] in rest;
        if i > 0 { assert steps[i] == rest[i - 1]; }
      }
    }
  }

  /** Step i is the first that is wrong, and this is the first thing wrong with it. */
  ghost predicate IsFirstBadStep(steps: seq<PlanStep>, i: nat, e: ContractError) {
    && i < |steps| && UniqueStepIds(steps[..i]) && (forall s | s in steps[..i] :: IsDocumentStep(s))
    && var s := steps[i];
       if !IsBoundedId(s.stepId) then e == InvalidStepId(s.stepId)
       else if exists t :: t in steps[..i] && t.stepId == s.stepId then e == DuplicateStepId(s.stepId)
       else e == InvalidActionRef(s.actionRef) && !IsDocumentStep(s)
  }

  /** A document's fault is the first in its own parts or else, when those are in order, in its steps. */
  lemma FirstFaultIsNamed(d: PlanDocument)
    requires DocumentFault(d).Some?
    ensures var e := DocumentFault(d).value;
      if d.schemaVersion != 1 then e == UnknownVersion(d.schemaVersion)
      else if d.proposalId == "" || ByteLength(d.proposalId) > 128 then e == InvalidProposalId
      else if d.sessionId == "" || ByteLength(d.sessionId) > 128 then e == InvalidSessionId
      else if IsBlank(d.userGoal) || ByteLength(d.userGoal) > 4096 then e == InvalidUserGoal
      else if |d.steps| == 0 then e == EmptyPlan
      else if |d.steps| > 64 then e == TooManySteps
      else exists i: nat :: IsFirstBadStep(d.steps, i, e)
  {
    if 0 < |d.steps| <= 64 && StepFault(d.steps, {}).Some? {
      StepFaultIsFirst(d.steps, 0, {});
    }
  }

  lemma {:induction false} StepFaultIsFirst(steps: seq<PlanStep>, k: nat, seen: set<string>)
    requires k <= |steps| && StepFault(steps[k..], seen).Some? && UniqueStepIds(steps[..k])
    requires seen == (set s | s in steps[..k] :: s.stepId) && forall s | s in steps[..k] :: IsDocumentStep(s)
    ensures exists i: nat :: IsFirstBadStep(steps, i, StepFault(steps[k..], seen).value)
    decreases |steps| - k
  {
    var s, e := steps[k], StepFault(steps[k..], seen).value;
    assert s == steps[k..][0] && steps[k..][1..] == steps[k + 1..];
    if IsDocumentStep(s) && s.stepId !in seen {
      assert steps[..k + 1] == steps[..k] + [s];
      StepFaultIsFirst(steps, k + 1, seen + {s.stepId});
    } else {
      assert IsFirstBadStep(steps, k, e);
    }
  }

  method ValidateDocument(d: PlanDocument) returns (e: Option<ContractError>)
    ensures e == DocumentFault(d)
    ensures e == None <==> IsValidDocument(d)
  {
    if d.schemaVersion != PLAN_SCHEMA_VERSION { return Some(UnknownVersion(d.schemaVersion)); }
    if d.proposalId == "" || ByteLength(d.proposalId) > 128 { return Some(InvalidProposalId); }
    if d.sessionId == "" || ByteLength(d.sessionId) > 128 { return Some(InvalidSessionId); }
    if IsBlank(d.userGoal) || ByteLength(d.userGoal) > 4096 { return Some(InvalidUserGoal); }
    if d.steps == [] { return Some(EmptyPlan); }
    if |d.steps| > 64 { return Some(TooManySteps); }
    var seen: set<string> := {};
    for i := 0 to |d.steps|
      invariant StepFault(d.steps, {}) == StepFault(d.steps[i..], seen)
    {
      var s := d.steps[i];
      if s.stepId == "" || ByteLength(s.stepId) > 128 { return Some(InvalidStepId(s.stepId)); }
      if s.stepId in seen { return Some(DuplicateStepId(s.stepId)); }
      assert d.steps[i..][1..] == d.steps[i + 1..];
      seen := seen + {s.stepId};
      if IsBlank(s.actionRef) || ByteLength(s.actionRef) > 256 { return Some(InvalidActionRef(s.actionRef)); }
    }
    return None;
  }

  function AsProposal(d: PlanDocument, intent: AgentIntent, confidence: Confidence): AgentProposal {
    AgentProposal(d.proposalId, d.sessionId, d.userGoal, intent, d.steps, confidence, None)
  }

  function FromProposal(p: AgentProposal): PlanDocument {
    PlanDocument(PLAN_SCHEMA_VERSION, p.proposalId, p.sessionId, p.userGoal, p.plan)
  }

  /**
   The document check is described as applying the proposal's rules. It does not: a
   valid document is a valid proposal exactly when its references are free of path
   separators and its inputs bounded, and a valid proposal's document is valid
   exactly when its plan and references keep the document's own limits.
   */
  lemma RulesDiffer(d: PlanDocument, p: AgentProposal)
    ensures IsValidDocument(d) ==>
      (IsValidProposal(AsProposal(d, Execute, Number(1.0))) <==>
       forall s | s in d.steps :: !HasSeparator(s.actionRef) && IsBoundedInput(s.input))
    ensures IsValidProposal(p) ==>
      (IsValidDocument(FromProposal(p)) <==>
       |p.plan| <= 64 && forall s | s in p.plan :: !IsBlank(s.actionRef) && ByteLength(s.actionRef) <= 256)
  {
    assert IsBlank("") && ByteLength("") == 0;
  }

  // ---------------------------------------------------------------- risk

  datatype RiskLevel = L0Informational | L1ReadOnly | L2Reversible | L3Destructive | L4Sensitive {
    predicate RequiresApproval() { L3Destructive? || L4Sensitive? }
  }

  predicate Contains(s: string, sub: string) {
    sub <= s || (s != [] && Contains(s[1..], sub))
  }

  function Classify(step: PlanStep): RiskLevel {
    var r := step.actionRef;
    if "explain:" <= r || "search:" <= r then L0Informational
    else if "command:file:" <= r || "command:app:" <= r then
      (if Contains(r, "copy") then L2Reversible else L1ReadOnly)
    else if "clipboard:" <= r then L2Reversible
    else if "workflow:" <= r then L2Reversible
    else if "shell:" <= r || "power:" <= r then L3Destructive
    else if "privileged:" <= r then L4Sensitive
    else L4Sensitive
  }

  const AUTOMATIC := ["explain:", "search:", "command:file:", "command:app:", "clipboard:", "workflow:"]

  /** Approval is waived exactly for the six known harmless vocabularies; everything unknown needs it. */
  lemma UnknownVocabularyNeedsApproval(step: PlanStep)
    ensures !Classify(step).RequiresApproval() <==> exists i | 0 <= i < |AUTOMATIC| :: AUTOMATIC[i] <= step.actionRef
  {
    var r := step.actionRef;
    assert AUTOMATIC[0] == "explain:" && AUTOMATIC[1] == "search:" && AUTOMATIC[2] == "command:file:";
    assert AUTOMATIC[3] == "command:app:" && AUTOMATIC[4] == "clipboard:" && AUTOMATIC[5] == "workflow:";
    NotBoth(r, "shell:");
    NotBoth(r, "power:");
    NotBoth(r, "privileged:");
  }

  lemma NotBoth(r: string, p: string)
    requires p in ["shell:", "power:", "privileged:"]
    ensures p <= r ==> forall i | 0 <= i < |AUTOMATIC| :: !(AUTOMATIC[i] <= r)
  {
    if p <= r {
      assert r[0] == p[0] && r[1] == p[1];
      forall i | 0 <= i < |AUTOMATIC| ensures !(AUTOMATIC[i] <= r) {
        assert AUTOMATIC[i][0] != p[0] || AUTOMATIC[i][1] != p[1];
      }
    }
  }

  // ---------------------------------------------------------------- the classes, exactly

  /** Does the text hold the other one somewhere? */
  lemma {:induction false} ContainsExactly(s: string, sub: string)
    ensures Contains(s, sub) <==> exists i | 0 <= i <= |s| :: sub <= s[i..]
  {
    assert s[0..] == s;
    if s != [] && !(sub <= s) {
      ContainsExactly(s[1..], sub);
      forall i | 0 <= i <= |s| - 1 ensures s[1..][i..] == s[i + 1..] {
      }
      forall i | 0 < i <= |s| ensures s[i..] == s[1..][i - 1..] {
      }
    }
  }

  /** Which vocabularies have which class; what has none of the prefixes is as sensitive as the privileged ones. */
  lemma ClassesExactly(step: PlanStep)
    ensures var r, level := step.actionRef, Classify(step);
      var opens := "command:file:" <= r || "command:app:" <= r;
      && (level == L0Informational <==> "explain:" <= r || "search:" <= r)
      && (level == L1ReadOnly <==> opens && !Contains(r, "copy"))
      && (level == L2Reversible <==> "clipboard:" <= r || "workflow:" <= r || (opens && Contains(r, "copy")))
      && (level == L3Destructive <==> "shell:" <= r || "power:" <= r)
      && (level == L4Sensitive <==>
            !opens && !("explain:" <= r || "search:" <= r) && !("clipboard:" <= r || "workflow:" <= r)
            && !("shell:" <= r || "power:" <= r))
  {
    var r := step.actionRef;
    assert "explain:" <= r ==> r[0] == 'e';
    assert "search:" <= r ==> r[0] == 's' && r[1] == 'e';
    assert "command:file:" <= r || "command:app:" <= r ==> r[0] == 'c' && r[1] == 'o';
    assert "clipboard:" <= r ==> r[0] == 'c' && r[1] == 'l';
    assert "workflow:" <= r ==> r[0] == 'w';
    assert "shell:" <= r ==> r[0] == 's' && r[1] == 'h';
    assert "power:" <= r ==> r[0] == 'p';
  }
}
