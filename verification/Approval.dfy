/**
 The approval gate: single-use, expiring requests, one at a time. `Step` says what a
 call does to the gate's state, the class does it in place, and the theorems are about
 every sequence of calls with arbitrary clock readings.
 */
module Approval {
  import opened Wrappers
  import opened Decimal
  import opened AgentContract

  const DEFAULT_TTL_MS: int := 5 * 60 * 1000

  datatype ApprovalRequest = ApprovalRequest(
    requestId: string, sessionId: string, userGoal: string, steps: seq<PlanStep>, createdAt: int, expiresAt: int)

  datatype Decision = Approve | ApproveEdited(document: PlanDocument) | Reject

  datatype ApprovalDecision = ApprovalDecision(requestId: string, decision: Decision)

  datatype ApprovalError = NoSuchRequest | Expired | AlreadyDecided | InvalidPlan(fault: ContractError)

  datatype Pending = Pending(request: ApprovalRequest, decided: bool)

  datatype Gate = Gate(ttl: int, minted: nat, pending: Option<Pending>)

  predicate NeedsApproval(steps: seq<PlanStep>) { exists s | s in steps :: s.requiresApproval }

  function RequestId(sessionId: string, n: nat): string { "apr-" + sessionId + "-" + Numeral(n) }

  // ---------------------------------------------------------------- one call

  datatype Call =
    | Request(sessionId: string, goal: string, steps: seq<PlanStep>, now: int)
    | Decide(requestId: string, decision: Decision, now: int)
    | Cancel(requestId: string)

  datatype Reply =
    | Minted(request: Option<ApprovalRequest>)
    | Decided(plan: Result<seq<PlanStep>, ApprovalError>)
    | Cancelled(ok: bool)

  /** The plan a decision authorizes. */
  function Authorized(request: ApprovalRequest, decision: Decision): Result<seq<PlanStep>, ApprovalError> {
    match decision
    case Approve => Ok(request.steps)
    case ApproveEdited(d) => (match DocumentFault(d) case None => Ok(d.steps) case Some(f) => Err(InvalidPlan(f)))
    case Reject => Ok([])
  }

  function Step(g: Gate, c: Call): (Gate, Reply) {
    match c
    case Request(sessionId, goal, steps, now) =>
      if !NeedsApproval(steps) then (g, Minted(None))
      else
        var r := ApprovalRequest(RequestId(sessionId, g.minted + 1), sessionId, goal, steps, now, now + g.ttl);
        (Gate(g.ttl, g.minted + 1, Some(Pending(r, false))), Minted(Some(r)))
    case Decide(id, decision, now) =>
      if g.pending == None || g.pending.value.request.requestId != id then (g, Decided(Err(NoSuchRequest)))
      else if g.pending.value.decided then (g, Decided(Err(AlreadyDecided)))
      else
        var closed := g.(pending := Some(g.pending.value.(decided := true)));
        if now > g.pending.value.request.expiresAt then (closed, Decided(Err(Expired)))
        else (closed, Decided(Authorized(g.pending.value.request, decision)))
    case Cancel(id) =>
      var live := g.pending.Some? && g.pending.value.request.requestId == id && !g.pending.value.decided;
      (g.(pending := None), Cancelled(live))
  }

  class ApprovalGate {
    const ttl: int
    var minted: nat
    var pending: Option<Pending>

    function State(): Gate reads this { Gate(ttl, minted, pending) }

    constructor (ttl: int)
      ensures State() == Gate(ttl, 0, None)
    {
      this.ttl, minted, pending := ttl, 0, None;
    }

    method RequestApproval(sessionId: string, goal: string, steps: seq<PlanStep>, now: int)
      returns (r: Option<ApprovalRequest>)
      modifies this
      ensures (State(), Minted(r)) == Step(old(State()), Request(sessionId, goal, steps, now))
    {
      if !NeedsApproval(steps) { return None; }
      minted := minted + 1;
      var request := ApprovalRequest(RequestId(sessionId, minted), sessionId, goal, steps, now, now + ttl);
      pending := Some(Pending(request, false));
      return Some(request);
    }

    method DecideRequest(requestId: string, decision: Decision, now: int)
      returns (r: Result<seq<PlanStep>, ApprovalError>)
      modifies this
      ensures (State(), Decided(r)) == Step(old(State()), Decide(requestId, decision, now))
    {
      if pending.None? { return Err(NoSuchRequest); }
      var p := pending.value;
      if p.request.requestId != requestId { return Err(NoSuchRequest); }
      if p.decided { return Err(AlreadyDecided); }
      pending := Some(p.(decided := true));
      if now > p.request.expiresAt { return Err(Expired); }
      match decision
      case Approve => return Ok(p.request.steps);
      case ApproveEdited(document) =>
        var fault := ValidateDocument(document);
        return if fault.Some? then Err(InvalidPlan(fault.value)) else Ok(document.steps);
      case Reject => return Ok([]);
    }

    method CancelRequest(requestId: string) returns (ok: bool)
      modifies this
      ensures (State(), Cancelled(ok)) == Step(old(State()), Cancel(requestId))
    {
      ok := pending.Some? && pending.value.request.requestId == requestId && !pending.value.decided;
      pending := None;
    }

    /** The live request, if any: the one an answer given at this time would still reach. */
    function PendingRequest(now: int): (r: Option<ApprovalRequest>)
      reads this
      ensures r.Some? ==> forall d ::
        Step(State(), Decide(r.value.requestId, d, now)).1 == Decided(Authorized(r.value, d))
      ensures r.None? ==> forall id, d :: Step(State(), Decide(id, d, now)).1.plan.Err?
    {
      if pending.Some? && !pending.value.decided && now <= pending.value.request.expiresAt
      then Some(pending.value.request) else None
    }
  }

  // ---------------------------------------------------------------- runs

  function After(g: Gate, calls: seq<Call>): Gate {
    if calls == [] then g else Step(After(g, calls[..|calls| - 1]), calls[|calls| - 1]).0
  }

  /** The gate before call i, and what call i is answered. */
  function At(g: Gate, calls: seq<Call>, i: nat): Gate
    requires i <= |calls|
  {
    After(g, calls[..i])
  }

  function ReplyTo(g: Gate, calls: seq<Call>, i: nat): Reply
    requires i < |calls|
  {
    Step(At(g, calls, i), calls[i]).1
  }

  predicate Mints(g: Gate, calls: seq<Call>, i: nat)
    requires i < |calls|
  {
    calls[i].Request? && ReplyTo(g, calls, i).request.Some?
  }

  /** Call i hands out a plan that will run. */
  predicate Grants(g: Gate, calls: seq<Call>, i: nat)
    requires i < |calls|
  {
    calls[i].Decide? && ReplyTo(g, calls, i).plan.Ok? && ReplyTo(g, calls, i).plan.value != []
  }

  function MintedAt(g: Gate, calls: seq<Call>, i: nat): ApprovalRequest
    requires i < |calls| && Mints(g, calls, i)
  {
    ReplyTo(g, calls, i).request.value
  }

  lemma OneMore(g: Gate, calls: seq<Call>, i: nat)
    requires i < |calls|
    ensures At(g, calls, i + 1) == Step(At(g, calls, i), calls[i]).0
  {
    assert calls[..i + 1][..i] == calls[..i];
  }

  lemma {:induction false} CountGrows(g: Gate, calls: seq<Call>, i: nat, j: nat)
    requires i <= j <= |calls|
    ensures At(g, calls, i).minted <= At(g, calls, j).minted
    ensures At(g, calls, j).ttl == At(g, calls, i).ttl
    decreases j
  {
    if i < j {
      CountGrows(g, calls, i, j - 1);
      OneMore(g, calls, j - 1);
    }
  }

  function TrailingDigits(t: string): (s: string)
    ensures forall i | 0 <= i < |s| :: IsDigit(s[i])
  {
    if t == [] || !IsDigit(t[|t| - 1]) then [] else TrailingDigits(t[..|t| - 1]) + [t[|t| - 1]]
  }

  lemma {:induction false} DigitsAfterDash(p: string, digits: string)
    requires forall i | 0 <= i < |digits| :: IsDigit(digits[i])
    ensures TrailingDigits(p + "-" + digits) == digits
    decreases |digits|
  {
    var t := p + "-" + digits;
    if digits != [] {
      assert t[..|t| - 1] == p + "-" + digits[..|digits| - 1];
      DigitsAfterDash(p, digits[..|digits| - 1]);
    }
  }

  /** An id's number can be read back: its numeral is what follows the last dash. */
  lemma RequestIdsDiffer(s1: string, n1: nat, s2: string, n2: nat)
    requires n1 != n2
    ensures RequestId(s1, n1) != RequestId(s2, n2)
  {
    DigitsAfterDash("apr-" + s1, Numeral(n1));
    DigitsAfterDash("apr-" + s2, Numeral(n2));
    NumeralsDiffer(n1, n2, 0);
  }

  /** No two requests of a run carry the same id, whatever sessions they are for. */
  lemma MintedIdsAreDistinct(g: Gate, calls: seq<Call>, i: nat, j: nat)
    requires i < j < |calls| && Mints(g, calls, i) && Mints(g, calls, j)
    ensures MintedAt(g, calls, i).requestId != MintedAt(g, calls, j).requestId
  {
    OneMore(g, calls, i);
    CountGrows(g, calls, i + 1, j);
    RequestIdsDiffer(calls[i].sessionId, At(g, calls, i).minted + 1, calls[j].sessionId, At(g, calls, j).minted + 1);
  }

  /** Since call j nothing touched the request minted there: no newer one, no cancel, no decision on it. */
  ghost predicate Undisturbed(g: Gate, calls: seq<Call>, j: nat, i: nat)
    requires j < i <= |calls| && Mints(g, calls, j)
  {
    forall k | j < k < i ::
      && !Mints(g, calls, k) && !calls[k].Cancel?
      && !(calls[k].Decide? && calls[k].requestId == MintedAt(g, calls, j).requestId)
  }

  lemma {:induction false} LiveRequestOrigin(ttl: int, calls: seq<Call>, i: nat) returns (j: nat)
    requires i <= |calls| && At(Gate(ttl, 0, None), calls, i).pending.Some?
    requires !At(Gate(ttl, 0, None), calls, i).pending.value.decided
    ensures var g := Gate(ttl, 0, None);
      && j < i && Mints(g, calls, j) && MintedAt(g, calls, j) == At(g, calls, i).pending.value.request
      && Undisturbed(g, calls, j, i)
    decreases i
  {
    var g := Gate(ttl, 0, None);
    assert calls[..0] == [];
    OneMore(g, calls, i - 1);
    if Mints(g, calls, i - 1) {
      j := i - 1;
    } else {
      j := LiveRequestOrigin(ttl, calls, i - 1);
    }
  }

  /**
   A plan is handed out only for a request minted earlier, unexpired, with nothing in
   between that replaced, cancelled or already decided it, and it is the plan the
   decision authorizes.
   */
  lemma GrantsAreAuthorized(ttl: int, calls: seq<Call>, i: nat) returns (j: nat)
    requires i < |calls| && Grants(Gate(ttl, 0, None), calls, i)
    ensures var g := Gate(ttl, 0, None);
      && j < i && Mints(g, calls, j) && Undisturbed(g, calls, j, i)
      && MintedAt(g, calls, j).requestId == calls[i].requestId
      && calls[i].now <= calls[j].now + ttl
      && match calls[i].decision
         case Approve => ReplyTo(g, calls, i).plan == Ok(calls[j].steps)
         case ApproveEdited(d) => IsValidDocument(d) && ReplyTo(g, calls, i).plan == Ok(d.steps)
         case Reject => false
  {
    var g := Gate(ttl, 0, None);
    j := LiveRequestOrigin(ttl, calls, i);
    assert calls[..0] == [];
    CountGrows(g, calls, 0, j);
  }

  /** A request is minted exactly when some step requires approval, and it carries what was asked. */
  lemma RequestsCarryTheCall(ttl: int, calls: seq<Call>, j: nat)
    requires j < |calls| && calls[j].Request?
    ensures var g, c := Gate(ttl, 0, None), calls[j];
      && (Mints(g, calls, j) <==> exists s :: s in c.steps && s.requiresApproval)
      && (Mints(g, calls, j) ==>
            var r := MintedAt(g, calls, j);
            && r.sessionId == c.sessionId && r.userGoal == c.goal && r.steps == c.steps
            && r.createdAt == c.now && r.expiresAt == c.now + ttl)
  {
    assert calls[..0] == [];
    CountGrows(Gate(ttl, 0, None), calls, 0, j);
  }

  /** Undisturbed, a request stays pending and undecided. */
  lemma {:induction false} StaysLive(g: Gate, calls: seq<Call>, j: nat, i: nat)
    requires j < i <= |calls| && Mints(g, calls, j) && Undisturbed(g, calls, j, i)
    ensures At(g, calls, i).pending == Some(Pending(MintedAt(g, calls, j), false))
    decreases i
  {
    OneMore(g, calls, i - 1);
    if j < i - 1 {
      StaysLive(g, calls, j, i - 1);
      assert !Mints(g, calls, i - 1) && !calls[i - 1].Cancel?;
    }
  }

  /**
   The answer to a decision on an undisturbed request: the requested steps for Approve, the edited ones
   exactly if their document is valid, none for Reject; and after the expiry the request is dead.
   */
  lemma DecisionsAreHonoured(ttl: int, calls: seq<Call>, j: nat, i: nat)
    requires var g := Gate(ttl, 0, None);
      && j < i < |calls| && Mints(g, calls, j) && Undisturbed(g, calls, j, i)
      && calls[i].Decide? && calls[i].requestId == MintedAt(g, calls, j).requestId
    ensures var plan := ReplyTo(Gate(ttl, 0, None), calls, i).plan;
      if calls[i].now > calls[j].now + ttl then plan == Err(Expired)
      else match calls[i].decision
        case Approve => plan == Ok(calls[j].steps)
        case ApproveEdited(d) =>
          if IsValidDocument(d) then plan == Ok(d.steps) else plan.Err? && plan.error.InvalidPlan?
        case Reject => plan == Ok([])
  {
    StaysLive(Gate(ttl, 0, None), calls, j, i);
    RequestsCarryTheCall(ttl, calls, j);
  }

  /** A decision is answered with a plan, be it empty, exactly when an undisturbed request of its id is in time. */
  lemma AnsweredExactlyWhenLive(ttl: int, calls: seq<Call>, i: nat)
    requires i < |calls| && calls[i].Decide?
    ensures var g := Gate(ttl, 0, None);
      ReplyTo(g, calls, i).plan.Ok? <==>
      && (calls[i].decision.ApproveEdited? ==> IsValidDocument(calls[i].decision.document))
      && exists j ::
           && 0 <= j < i && Mints(g, calls, j) && Undisturbed(g, calls, j, i)
           && MintedAt(g, calls, j).requestId == calls[i].requestId && calls[i].now <= calls[j].now + ttl
  {
    var g := Gate(ttl, 0, None);
    if ReplyTo(g, calls, i).plan.Ok? {
      var j := LiveRequestOrigin(ttl, calls, i);
      RequestsCarryTheCall(ttl, calls, j);
    } else {
      forall j | 0 <= j < i && Mints(g, calls, j) && Undisturbed(g, calls, j, i)
        && MintedAt(g, calls, j).requestId == calls[i].requestId && calls[i].now <= calls[j].now + ttl
        ensures calls[i].decision.ApproveEdited? && !IsValidDocument(calls[i].decision.document)
      {
        DecisionsAreHonoured(ttl, calls, j, i);
      }
    }
  }

  /** Single use: one request id never yields two plans. */
  lemma GrantsAreSingleUse(ttl: int, calls: seq<Call>, i: nat, k: nat)
    requires i < k < |calls| && Grants(Gate(ttl, 0, None), calls, i) && Grants(Gate(ttl, 0, None), calls, k)
    ensures calls[i].requestId != calls[k].requestId
  {
    var g := Gate(ttl, 0, None);
    if calls[i].requestId == calls[k].requestId {
      var j := GrantsAreAuthorized(ttl, calls, i);
      var l := GrantsAreAuthorized(ttl, calls, k);
      if j < l {
        MintedIdsAreDistinct(g, calls, j, l);
      } else if l < j {
        MintedIdsAreDistinct(g, calls, l, j);
      }
    }
  }
}
