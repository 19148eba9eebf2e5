/**
 One run of the agent: session, pipeline, approval and step execution with a single
 re-walk of the plan after a failure. Executor, cancel flag, approval sink, model and
 clock are arbitrary; telemetry is left out.
 */
module AgentLoop {
  import opened Wrappers
  import opened AgentContract
  import opened AgentPipeline
  import opened AgentSession
  import opened Approval
  import opened Decimal

  datatype EffectState = NotStarted | Started | EffectCompleted | EffectFailed | EffectUnknown

  datatype StepStatus = StepSucceeded | StepFailed | StepUnknown

  datatype StepAnswer = Success | Failure(error: string, effect: EffectState)

  datatype ExecCall = ExecCall(actionRef: string, input: Json, answer: StepAnswer)

  /** The host's step runner: the answer to its k-th call is `answers(k)`. */
  class TurnExecutor {
    const answers: nat -> StepAnswer
    var calls: seq<ExecCall>

    /** Every recorded answer is the runner's own. */
    ghost predicate Genuine() reads this { forall k | 0 <= k < |calls| :: calls[k].answer == answers(k) }

    constructor (answers: nat -> StepAnswer)
      ensures this.answers == answers && calls == [] && Genuine()
    {
      this.answers, calls := answers, [];
    }

    method Run(actionRef: string, input: Json) returns (r: StepAnswer)
      modifies this
      ensures r == answers(|old(calls)|) && calls == old(calls) + [ExecCall(actionRef, input, r)]
      ensures old(Genuine()) ==> Genuine()
    {
      r := answers(|calls|);
      calls := calls + [ExecCall(actionRef, input, r)];
    }
  }

  /** The shared cancel flag: its k-th reading is `readings(k)`. */
  class CancelFlag {
    const readings: nat -> bool
    var polls: nat

    constructor (readings: nat -> bool)
      ensures this.readings == readings && polls == 0
    {
      this.readings, polls := readings, 0;
    }

    method Load() returns (b: bool)
      modifies this
      ensures b == readings(old(polls)) && polls == old(polls) + 1
    {
      b := readings(polls);
      polls := polls + 1;
    }
  }

  datatype Cause = Message(text: string) | Unsettled(text: string) | Unplanned(error: PipelineError)

  datatype LoopStop = RunCompleted | RunFailed(stepId: string, cause: Cause) | RunCancelled

  // ---------------------------------------------------------------- the shape of a walk

  /** One try at a step of the plan. */
  datatype Attempt = Attempt(step: nat, ok: bool)

  /** `done` steps succeeded; `failed`: then step `done` failed, ending the walk. */
  datatype Walk =
    | OnePass(done: nat, failed: bool)
    | TwoPasses(first: nat, done: nat, failed: bool)

  function Oks(lo: nat, hi: nat): (r: seq<Attempt>)
    ensures |r| == if lo <= hi then hi - lo else 0
    ensures forall i | 0 <= i < |r| :: r[i] == Attempt(lo + i, true)
  {
    if lo < hi then Oks(lo, hi - 1) + [Attempt(hi - 1, true)] else []
  }

  function Ending(w: Walk): seq<Attempt> { if w.failed then [Attempt(w.done, false)] else [] }

  /** The tries a walk makes, in order. */
  function Attempts(w: Walk): seq<Attempt> {
    match w
    case OnePass(done, _) => Oks(0, done) + Ending(w)
    case TwoPasses(first, done, _) => Oks(0, first) + [Attempt(first, false)] + Oks(first, done) + Ending(w)
  }

  predicate Fits(w: Walk, n: nat) {
    && w.done <= n && (w.failed ==> w.done < n)
    && (w.TwoPasses? ==> w.first <= w.done && w.first < n)
  }

  predicate IsTry(plan: seq<PlanStep>, t: Attempt, c: ExecCall) {
    && t.step < |plan|
    && c.actionRef == plan[t.step].actionRef && c.input == plan[t.step].input
    && c.answer.Success? == t.ok
  }

  ghost predicate Performed(plan: seq<PlanStep>, tries: seq<Attempt>, calls: seq<ExecCall>) {
    |calls| == |tries| && forall i | 0 <= i < |calls| :: IsTry(plan, tries[i], calls[i])
  }

  predicate IsUnknown(a: StepAnswer) { a.Failure? && a.effect == EffectUnknown }

  /** An unsettled effect ends the run at once; only a settled failure is tried again. */
  ghost predicate RespectsUnknown(w: Walk, calls: seq<ExecCall>) {
    && (forall i | 0 <= i < |calls| && IsUnknown(calls[i].answer) :: w.failed && i == |calls| - 1)
    && (w.OnePass? && w.failed ==> calls != [] && IsUnknown(calls[|calls| - 1].answer))
  }

  /** How a walk and its calls determine the outcome. */
  function Outcome(plan: seq<PlanStep>, w: Walk, calls: seq<ExecCall>): LoopStop
    requires Fits(w, |plan|)
  {
    if w.failed && calls != [] && calls[|calls| - 1].answer.Failure? then
      var a := calls[|calls| - 1].answer;
      RunFailed(plan[w.done].stepId, if IsUnknown(a) then Unsettled(a.error) else Message(a.error))
    else if w.done == |plan| then RunCompleted
    else RunCancelled
  }

  ghost predicate IsRun(plan: seq<PlanStep>, w: Walk, calls: seq<ExecCall>, stop: LoopStop) {
    && Fits(w, |plan|) && Performed(plan, Attempts(w), calls)
    && RespectsUnknown(w, calls) && stop == Outcome(plan, w, calls)
  }

  // ---------------------------------------------------------------- what the shape means

  lemma AtMostOneExtraCall(w: Walk, n: nat)
    requires Fits(w, n)
    ensures |Attempts(w)| <= n + 1
  {
  }

  function Successes(tries: seq<Attempt>): seq<nat> {
    if tries == [] then []
    else
      var last := |tries| - 1;
      Successes(tries[..last]) + (if tries[last].ok then [tries[last].step] else [])
  }

  function UpTo(n: nat): (r: seq<nat>)
    ensures |r| == n && forall i | 0 <= i < n :: r[i] == i
  {
    if n == 0 then [] else UpTo(n - 1) + [n - 1]
  }

  lemma {:induction false} SuccessesAppend(s: seq<Attempt>, t: seq<Attempt>)
    ensures Successes(s + t) == Successes(s) + Successes(t)
    decreases |t|
  {
    if t == [] {
      assert s + t == s;
    } else {
      var last := |t| - 1;
      assert (s + t)[..|s + t| - 1] == s + t[..last];
      SuccessesAppend(s, t[..last]);
    }
  }

  lemma {:induction false} SuccessesOfOks(lo: nat, hi: nat)
    requires lo <= hi
    ensures UpTo(lo) + Successes(Oks(lo, hi)) == UpTo(hi)
    decreases hi
  {
    if lo < hi {
      SuccessesOfOks(lo, hi - 1);
      assert Oks(lo, hi)[..|Oks(lo, hi)| - 1] == Oks(lo, hi - 1);
    }
  }

  /** The successful tries are steps 0, 1, 2, ... of the plan: a prefix, in order, none repeated. */
  lemma SuccessesAreAPrefix(w: Walk, n: nat)
    requires Fits(w, n)
    ensures Successes(Attempts(w)) == UpTo(w.done)
  {
    match w
    case OnePass(done, _) =>
      SuccessesAppend(Oks(0, done), Ending(w));
      SuccessesOfOks(0, done);
    case TwoPasses(first, done, _) =>
      var tried := Oks(0, first) + [Attempt(first, false)];
      assert Successes(tried) == UpTo(first) by {
        SuccessesAppend(Oks(0, first), [Attempt(first, false)]);
        SuccessesOfOks(0, first);
      }
      assert Successes(tried + Oks(first, done)) == UpTo(done) by {
        SuccessesAppend(tried, Oks(first, done));
        SuccessesOfOks(first, done);
      }
      SuccessesAppend(tried + Oks(first, done), Ending(w));
  }

  /** After a step succeeded, every later try is of a later step. */
  lemma NothingIsRepeatedAfterSuccess(w: Walk, n: nat, i: nat, j: nat)
    requires Fits(w, n) && i < j < |Attempts(w)| && Attempts(w)[i].ok
    ensures Attempts(w)[i].step < Attempts(w)[j].step
  {
  }

  lemma UpToDiffers(m: nat, n: nat)
    ensures UpTo(m) == UpTo(n) <==> m == n
  {
    assert |UpTo(m)| == m && |UpTo(n)| == n;
  }

  lemma FailedRunEndsInFailure(plan: seq<PlanStep>, w: Walk, calls: seq<ExecCall>)
    requires Fits(w, |plan|) && Performed(plan, Attempts(w), calls) && w.failed
    ensures calls != [] && calls[|calls| - 1].answer.Failure?
  {
    LastTry(w, |plan|);
    assert IsTry(plan, Attempts(w)[|calls| - 1], calls[|calls| - 1]);
  }

  lemma CompletionIsTotal(plan: seq<PlanStep>, w: Walk, calls: seq<ExecCall>)
    requires Fits(w, |plan|) && Performed(plan, Attempts(w), calls)
    ensures Outcome(plan, w, calls) == RunCompleted <==> w.done == |plan|
    ensures Outcome(plan, w, calls).RunFailed? <==> w.failed
  {
    if w.failed { FailedRunEndsInFailure(plan, w, calls); }
  }

  lemma UnknownEndsTheRun(plan: seq<PlanStep>, w: Walk, calls: seq<ExecCall>, i: nat)
    requires Fits(w, |plan|) && RespectsUnknown(w, calls) && i < |calls| && IsUnknown(calls[i].answer)
    ensures i == |calls| - 1
    ensures Outcome(plan, w, calls) == RunFailed(plan[w.done].stepId, Unsettled(calls[i].answer.error))
  {
  }

  /** What a run's calls and outcome say about the plan, for every executor and cancel behaviour. */
  lemma RunsAreSafe(plan: seq<PlanStep>, w: Walk, calls: seq<ExecCall>, stop: LoopStop)
    requires IsRun(plan, w, calls, stop)
    ensures |calls| <= |plan| + 1
    ensures forall i | 0 <= i < |calls| && IsUnknown(calls[i].answer) ::
              i == |calls| - 1 && stop == RunFailed(plan[w.done].stepId, Unsettled(calls[i].answer.error))
    ensures stop == RunCompleted <==> Successes(Attempts(w)) == UpTo(|plan|)
    ensures stop.RunFailed? ==> calls != [] && calls[|calls| - 1].answer.Failure?
  {
    AtMostOneExtraCall(w, |plan|);
    forall i | 0 <= i < |calls| && IsUnknown(calls[i].answer)
      ensures i == |calls| - 1 && stop == RunFailed(plan[w.done].stepId, Unsettled(calls[i].answer.error))
    {
      UnknownEndsTheRun(plan, w, calls, i);
    }
    CompletionIsTotal(plan, w, calls);
    if w.failed { FailedRunEndsInFailure(plan, w, calls); }
    assert stop == RunCompleted <==> Successes(Attempts(w)) == UpTo(|plan|) by {
      SuccessesAreAPrefix(w, |plan|);
      UpToDiffers(w.done, |plan|);
    }
  }

  lemma LastTry(w: Walk, n: nat)
    requires Fits(w, n) && w.failed
    ensures Attempts(w) != [] && Attempts(w)[|Attempts(w)| - 1] == Attempt(w.done, false)
  {
  }

  // ---------------------------------------------------------------- executing an admitted plan

  /** Exactly the first `f` steps are recorded as settled for good. */
  ghost predicate Settled(plan: seq<PlanStep>, status: map<string, StepStatus>, f: nat) {
    && f <= |plan|
    && forall i | 0 <= i < |plan| ::
         (plan[i].stepId in status && status[plan[i].stepId] != StepFailed) <==> i < f
  }

  datatype PassEnd = PassFinished | PassCancelled | PassFailed(stepId: string, error: string, effect: EffectState)

  lemma SettleNext(plan: seq<PlanStep>, status: map<string, StepStatus>, f: nat, v: StepStatus)
    requires UniqueStepIds(plan) && Settled(plan, status, f) && f < |plan|
    ensures Settled(plan, status[plan[f].stepId := v], if v == StepFailed then f else f + 1)
  {
  }

  lemma MoreTries(plan: seq<PlanStep>, tries: seq<Attempt>, calls: seq<ExecCall>, tries': seq<Attempt>,
      calls': seq<ExecCall>)
    requires Performed(plan, tries, calls) && Performed(plan, tries', calls')
    ensures Performed(plan, tries + tries', calls + calls')
  {
    var t, c := tries + tries', calls + calls';
    forall i | 0 <= i < |c| ensures IsTry(plan, t[i], c[i]) {
      if i >= |calls| { assert t[i] == tries'[i - |calls|] && c[i] == calls'[i - |calls|]; }
    }
  }

  ghost predicate NoneUnknown(calls: seq<ExecCall>) { forall i | 0 <= i < |calls| :: !IsUnknown(calls[i].answer) }

  /** A pass from the first unsettled step: its calls, and the failing one if it ended in failure. */
  ghost predicate IsPass(plan: seq<PlanStep>, f: nat, done: nat, calls: seq<ExecCall>, end: PassEnd) {
    && f <= done <= |plan| && |calls| >= done - f
    && Performed(plan, Oks(f, done), calls[..done - f])
    && match end
       case PassFinished => done == |plan| && |calls| == done - f
       case PassCancelled => done < |plan| && |calls| == done - f
       case PassFailed(stepId, error, effect) =>
         && done < |plan| && |calls| == done - f + 1 && stepId == plan[done].stepId
         && IsTry(plan, Attempt(done, false), calls[done - f])
         && calls[done - f].answer == Failure(error, effect)
  }

  ghost predicate AllDown(readings: nat -> bool, from: nat, upto: nat) { forall k | from <= k < upto :: !readings(k) }

  /**
   A pass from step f reads the flag once before each of the n steps it comes to, settled or not; it was
   down every time, except for the last time of a pass that was cancelled.
   */
  ghost predicate Polled(readings: nat -> bool, from: nat, upto: nat, n: nat, f: nat, done: nat, failed: bool,
      cancelled: bool)
  {
    if cancelled then
      && from < upto <= from + n && AllDown(readings, from, upto - 1) && readings(upto - 1)
      && done == (if upto - 1 - from < f then f else upto - 1 - from)
    else AllDown(readings, from, upto) && upto == from + (if failed then done + 1 else n)
  }

  /**
   The readings of a whole run: those of its passes, one after the other; it ends as cancelled exactly if its
   last reading was up.
   */
  ghost predicate RunPolled(readings: nat -> bool, from: nat, upto: nat, n: nat, w: Walk, stop: LoopStop) {
    if w.TwoPasses? then
      && AllDown(readings, from, from + w.first + 1)
      && Polled(readings, from + w.first + 1, upto, n, w.first, w.done, w.failed, stop.RunCancelled?)
    else Polled(readings, from, upto, n, 0, w.done, w.failed, stop.RunCancelled?)
  }

  lemma PassGoesOn(plan: seq<PlanStep>, f: nat, done: nat, made: seq<ExecCall>)
    requires f <= done < |plan| && |made| == done - f && Performed(plan, Oks(f, done), made)
    ensures var call := ExecCall(plan[done].actionRef, plan[done].input, Success);
      Performed(plan, Oks(f, done + 1), made + [call])
  {
  }

  lemma PassStops(plan: seq<PlanStep>, f: nat, done: nat, made: seq<ExecCall>)
    requires f <= done <= |plan| && |made| == done - f && Performed(plan, Oks(f, done), made)
    ensures IsPass(plan, f, done, made, if done < |plan| then PassCancelled else PassFinished)
  {
    assert made[..done - f] == made;
  }

  lemma PassFails(plan: seq<PlanStep>, f: nat, done: nat, made: seq<ExecCall>, error: string, effect: EffectState)
    requires f <= done < |plan| && |made| == done - f && Performed(plan, Oks(f, done), made)
    ensures var call := ExecCall(plan[done].actionRef, plan[done].input, Failure(error, effect));
      IsPass(plan, f, done, made + [call], PassFailed(plan[done].stepId, error, effect))
  {
    var call := ExecCall(plan[done].actionRef, plan[done].input, Failure(error, effect));
    assert (made + [call])[..done - f] == made;
  }

  /** Before step i of a pass from step f. */
  ghost predicate Walking(plan: seq<PlanStep>, f: nat, i: nat, status: map<string, StepStatus>, done: nat,
      made: seq<ExecCall>)
  {
    && done == (if i < f then f else i) && Settled(plan, status, done)
    && |made| == done - f && Performed(plan, Oks(f, done), made)
  }

  lemma StepSucceeds(plan: seq<PlanStep>, f: nat, i: nat, status: map<string, StepStatus>, made: seq<ExecCall>)
    requires UniqueStepIds(plan) && f <= i < |plan| && Walking(plan, f, i, status, i, made)
    ensures var call := ExecCall(plan[i].actionRef, plan[i].input, Success);
      Walking(plan, f, i + 1, status[plan[i].stepId := StepSucceeded], i + 1, made + [call])
  {
    SettleNext(plan, status, i, StepSucceeded);
    PassGoesOn(plan, f, i, made);
  }

  lemma StepFails(plan: seq<PlanStep>, f: nat, i: nat, status: map<string, StepStatus>, made: seq<ExecCall>,
      error: string, effect: EffectState)
    requires UniqueStepIds(plan) && f <= i < |plan| && Walking(plan, f, i, status, i, made)
    ensures var call := ExecCall(plan[i].actionRef, plan[i].input, Failure(error, effect));
      IsPass(plan, f, i, made + [call], PassFailed(plan[i].stepId, error, effect))
    ensures Settled(plan, status[plan[i].stepId := StepFailed], i)
  {
    SettleNext(plan, status, i, StepFailed);
    PassFails(plan, f, i, made, error, effect);
  }

  /** Call the step and record how it went. */
  method TryStep(plan: seq<PlanStep>, i: nat, status: map<string, StepStatus>, exec: TurnExecutor, ghost f: nat,
      ghost made: seq<ExecCall>)
    returns (after: map<string, StepStatus>, r: StepAnswer)
    requires UniqueStepIds(plan) && f <= i < |plan| && Walking(plan, f, i, status, i, made)
    modifies exec
    ensures exec.calls == old(exec.calls) + [ExecCall(plan[i].actionRef, plan[i].input, r)]
    ensures old(exec.Genuine()) ==> exec.Genuine()
    ensures var more := made + [ExecCall(plan[i].actionRef, plan[i].input, r)];
      match r
      case Success => Walking(plan, f, i + 1, after, i + 1, more)
      case Failure(error, effect) =>
        && IsPass(plan, f, i, more, PassFailed(plan[i].stepId, error, effect))
        && (effect != EffectUnknown ==> Settled(plan, after, i))
  {
    r := exec.Run(plan[i].actionRef, plan[i].input);
    match r {
      case Success =>
        StepSucceeds(plan, f, i, status, made);
        after := status[plan[i].stepId := StepSucceeded];
      case Failure(error, effect) =>
        StepFails(plan, f, i, status, made, error, effect);
        after := status[plan[i].stepId := if effect == EffectUnknown then StepUnknown else StepFailed];
    }
  }

  /** One pass over the plan, skipping what is settled. */
  method WalkPlan(plan: seq<PlanStep>, status: map<string, StepStatus>, exec: TurnExecutor, cancel: CancelFlag,
      ghost f: nat)
    returns (after: map<string, StepStatus>, end: PassEnd, ghost done: nat, ghost made: seq<ExecCall>)
    requires UniqueStepIds(plan) && Settled(plan, status, f) && (f == 0 || f < |plan|)
    modifies exec, cancel
    ensures exec.calls == old(exec.calls) + made && IsPass(plan, f, done, made, end)
    ensures old(exec.Genuine()) ==> exec.Genuine()
    ensures Polled(cancel.readings, old(cancel.polls), cancel.polls, |plan|, f, done,
                   end.PassFailed?, end.PassCancelled?)
    ensures end.PassFailed? && end.effect != EffectUnknown ==> Settled(plan, after, done)
  {
    after, done, made := status, f, [];
    for i := 0 to |plan|
      invariant exec.calls == old(exec.calls) + made && (old(exec.Genuine()) ==> exec.Genuine())
      invariant cancel.polls == old(cancel.polls) + i && AllDown(cancel.readings, old(cancel.polls), cancel.polls)
      invariant Walking(plan, f, i, after, done, made)
    {
      var step := plan[i];
      var stop := cancel.Load();
      if stop {
        PassStops(plan, f, done, made);
        return after, PassCancelled, done, made;
      }
      if step.stepId in after && (after[step.stepId] == StepSucceeded || after[step.stepId] == StepUnknown) {
        continue;
      }
      var r;
      after, r := TryStep(plan, i, after, exec, f, made);
      done, made := if r.Failure? then i else i + 1, made + [ExecCall(step.actionRef, step.input, r)];
      if r.Failure? { return after, PassFailed(step.stepId, r.error, r.effect), done, made; }
    }
    PassStops(plan, f, done, made);
    return after, PassFinished, done, made;
  }

  /** What a pass adds to the tries made before it. */
  lemma PassTries(plan: seq<PlanStep>, tries: seq<Attempt>, calls: seq<ExecCall>, f: nat, done: nat,
      made: seq<ExecCall>, end: PassEnd)
    requires Performed(plan, tries, calls) && IsPass(plan, f, done, made, end)
    ensures var last := if end.PassFailed? then [Attempt(done, false)] else [];
      Performed(plan, tries + Oks(f, done) + last, calls + made)
    ensures NoneUnknown(made[..done - f])
  {
    var oks, k := Oks(f, done), done - f;
    assert made == made[..k] + made[k..];
    forall i | 0 <= i < k ensures !IsUnknown(made[..k][i].answer) { assert IsTry(plan, oks[i], made[..k][i]); }
    MoreTries(plan, tries, calls, oks, made[..k]);
    if end.PassFailed? {
      assert made[k..] == [made[k]];
      MoreTries(plan, tries + oks, calls + made[..k], [Attempt(done, false)], [made[k]]);
      assert calls + made[..k] + [made[k]] == calls + made;
    } else {
      assert made[..k] == made && tries + oks + [] == tries + oks;
    }
  }

  ghost predicate Agrees(state: AgentRunStatus, stop: LoopStop) {
    match stop
    case RunCompleted => state == Completed
    case RunFailed(_, _) => state == Failed
    case RunCancelled => state == AgentRunStatus.Cancelled
  }

  /** The tries before a pass: none, or a first pass that failed at step f. */
  function TriesBefore(second: bool, f: nat): seq<Attempt> {
    if second then Oks(0, f) + [Attempt(f, false)] else []
  }

  function WalkOf(second: bool, f: nat, done: nat, failed: bool): Walk {
    if second then TwoPasses(f, done, failed) else OnePass(done, failed)
  }

  lemma WalkTries(second: bool, f: nat, done: nat, failed: bool)
    requires !second ==> f == 0
    ensures TriesBefore(second, f) + Oks(f, done) + (if failed then [Attempt(done, false)] else [])
            == Attempts(WalkOf(second, f, done, failed))
  {
  }

  function StopOf(end: PassEnd): LoopStop {
    match end
    case PassFinished => RunCompleted
    case PassCancelled => RunCancelled
    case PassFailed(stepId, error, effect) =>
      RunFailed(stepId, if effect == EffectUnknown then Unsettled(error) else Message(error))
  }

  lemma UnknownOnlyAtTheEnd(plan: seq<PlanStep>, calls: seq<ExecCall>, f: nat, done: nat, made: seq<ExecCall>,
      end: PassEnd)
    requires NoneUnknown(calls) && IsPass(plan, f, done, made, end) && NoneUnknown(made[..done - f])
    ensures forall i | 0 <= i < |calls + made| && IsUnknown((calls + made)[i].answer) ::
              i == |calls + made| - 1 && end.PassFailed? && end.effect == EffectUnknown
  {
    var k, all := done - f, calls + made;
    forall i | 0 <= i < |calls| + k ensures !IsUnknown(all[i].answer) {
      if i >= |calls| { assert all[i] == made[..k][i - |calls|]; }
    }
  }

  /** What the run amounts to if this pass is its last, and that it may go on after a settled failure. */
  lemma PassEndsRun(plan: seq<PlanStep>, w: Walk, calls: seq<ExecCall>, f: nat, done: nat, made: seq<ExecCall>,
      end: PassEnd)
    requires NoneUnknown(calls) && IsPass(plan, f, done, made, end) && NoneUnknown(made[..done - f])
    requires Performed(plan, Attempts(w), calls + made)
    requires w == OnePass(done, end.PassFailed?) || (w == TwoPasses(f, done, end.PassFailed?) && f < |plan|)
    ensures w.TwoPasses? || !end.PassFailed? || end.effect == EffectUnknown ==>
      IsRun(plan, w, calls + made, StopOf(end))
    ensures end.PassFailed? && end.effect != EffectUnknown ==> NoneUnknown(calls + made)
  {
    UnknownOnlyAtTheEnd(plan, calls, f, done, made, end);
    if end.PassFailed? {
      assert (calls + made)[|calls + made| - 1] == made[done - f];
    }
  }

  /** All that the loop below needs to know of a pass. */
  lemma AfterPass(plan: seq<PlanStep>, second: bool, calls: seq<ExecCall>, f: nat, done: nat, made: seq<ExecCall>,
      end: PassEnd)
    requires Performed(plan, TriesBefore(second, f), calls) && NoneUnknown(calls) && IsPass(plan, f, done, made, end)
    requires if second then f < |plan| else f == 0
    ensures second || !end.PassFailed? || end.effect == EffectUnknown ==>
      IsRun(plan, WalkOf(second, f, done, end.PassFailed?), calls + made, StopOf(end))
    ensures end.PassFailed? && end.effect != EffectUnknown ==> NoneUnknown(calls + made)
    ensures end.PassFailed? && !second ==> Performed(plan, TriesBefore(true, done), calls + made)
  {
    PassTries(plan, TriesBefore(second, f), calls, f, done, made, end);
    WalkTries(second, f, done, end.PassFailed?);
    PassEndsRun(plan, WalkOf(second, f, done, end.PassFailed?), calls, f, done, made, end);
  }

  /** A pass, and what the run amounts to with it: over, or failed at `done` and free to go on. */
  method WalkAgain(plan: seq<PlanStep>, status: map<string, StepStatus>, exec: TurnExecutor, cancel: CancelFlag,
                   ghost start: seq<ExecCall>, ghost second: bool, ghost f: nat, ghost calls: seq<ExecCall>)
    returns (after: map<string, StepStatus>, end: PassEnd, ghost done: nat, ghost all: seq<ExecCall>)
    requires UniqueStepIds(plan) && Settled(plan, status, f) && (if second then f < |plan| else f == 0)
    requires exec.calls == start + calls && Performed(plan, TriesBefore(second, f), calls) && NoneUnknown(calls)
    modifies exec, cancel
    ensures exec.calls == start + all && (old(exec.Genuine()) ==> exec.Genuine())
    ensures Polled(cancel.readings, old(cancel.polls), cancel.polls, |plan|, f, done,
                   end.PassFailed?, end.PassCancelled?)
    ensures second || !end.PassFailed? || end.effect == EffectUnknown ==>
      IsRun(plan, WalkOf(second, f, done, end.PassFailed?), all, StopOf(end))
    ensures !second && end.PassFailed? && end.effect != EffectUnknown ==>
      && done < |plan| && Settled(plan, after, done)
      && NoneUnknown(all) && Performed(plan, TriesBefore(true, done), all)
  {
    ghost var made;
    after, end, done, made := WalkPlan(plan, status, exec, cancel, f);
    all := calls + made;
    assert start + calls + made == start + all;
    AfterPass(plan, second, calls, f, done, made, end);
  }

  /** The three discarded transitions between the first failure and the second walk. */
  method Replan(session: Session)
    requires session.Valid()
    modifies session
    ensures session.Valid()
    ensures old(session.state) in {Executing, Planning} ==> session.state == Executing
  {
    var _ := session.Transition(Replanning, false);
    var _ := session.Transition(Planning, true);
    var _ := session.Transition(Executing, false);
  }

  /** The discarded transition that ends a run. */
  method Close(session: Session, stop: LoopStop)
    requires session.Valid()
    modifies session
    ensures session.Valid()
    ensures old(session.state) == Executing ==> Agrees(session.state, stop)
    ensures old(session.state) == Planning ==>
      if stop == RunCompleted then session.state == Planning else Agrees(session.state, stop)
  {
    match stop
    case RunCompleted => var _ := session.Transition(Completed, false);
    case RunFailed(_, _) => var _ := session.Transition(Failed, false);
    case RunCancelled => var _ := session.Transition(AgentRunStatus.Cancelled, false);
  }

  lemma LastPassPolled(readings: nat -> bool, from: nat, middle: nat, upto: nat, n: nat,
                       second: bool, f: nat, done: nat, end: PassEnd)
    requires AllDown(readings, from, middle) && middle == from + (if second then f + 1 else 0) && (second || f == 0)
    requires Polled(readings, middle, upto, n, f, done, end.PassFailed?, end.PassCancelled?)
    ensures RunPolled(readings, from, upto, n, WalkOf(second, f, done, end.PassFailed?), StopOf(end))
  {
  }

  /**
   The inner loop: walk the plan, and after a first settled failure walk it once more.
   Results of session transitions are discarded, so from Planning (the turn for
   executing was refused) a first-pass completion leaves the session in Planning.
   */
  method ExecuteSteps(plan: seq<PlanStep>, session: Session, exec: TurnExecutor, cancel: CancelFlag)
    returns (stop: LoopStop, ghost w: Walk, ghost calls: seq<ExecCall>)
    requires UniqueStepIds(plan) && session.Valid()
    modifies session, exec, cancel
    ensures session.Valid() && exec.calls == old(exec.calls) + calls && IsRun(plan, w, calls, stop)
    ensures old(exec.Genuine()) ==> exec.Genuine()
    ensures RunPolled(cancel.readings, old(cancel.polls), cancel.polls, |plan|, w, stop)
    ensures old(session.state) == Executing ==> Agrees(session.state, stop)
    ensures old(session.state) == Planning ==>
      if stop == RunCompleted && w.OnePass? then session.state == Planning else Agrees(session.state, stop)
  {
    ghost var f: nat := 0;
    calls := [];
    var status: map<string, StepStatus> := map[];
    var replanned, attempt := false, 0;
    while true
      invariant session.Valid() && exec.calls == old(exec.calls) + calls && (old(exec.Genuine()) ==> exec.Genuine())
      invariant cancel.polls == old(cancel.polls) + (if replanned then f + 1 else 0)
      invariant AllDown(cancel.readings, old(cancel.polls), cancel.polls)
      invariant attempt == if replanned then 1 else 0
      invariant Settled(plan, status, f) && Performed(plan, TriesBefore(replanned, f), calls) && NoneUnknown(calls)
      invariant if replanned then f < |plan| else f == 0 && session.state == old(session.state)
      invariant replanned && old(session.state) in {Executing, Planning} ==> session.state == Executing
      decreases 2 - attempt
    {
      var end: PassEnd;
      ghost var done: nat;
      ghost var middle := cancel.polls;
      status, end, done, calls := WalkAgain(plan, status, exec, cancel, old(exec.calls), replanned, f, calls);
      stop := StopOf(end);
      if !end.PassFailed? || end.effect == EffectUnknown || replanned || attempt > 0 {
        w := WalkOf(replanned, f, done, end.PassFailed?);
        LastPassPolled(cancel.readings, old(cancel.polls), middle, cancel.polls, |plan|, replanned, f, done, end);
        Close(session, stop);
        return;
      }
      replanned, attempt, f := true, attempt + 1, done;
      Replan(session);
    }
  }

  // ---------------------------------------------------------------- admission

  datatype Sink = Sink(answer: ApprovalRequest -> Option<ApprovalDecision>, mintedAt: int, decidedAt: int)

  function RequestFor(steps: seq<PlanStep>, sessionId: string, goal: string, sink: Sink): ApprovalRequest {
    ApprovalRequest(RequestId(sessionId, 1), sessionId, goal, steps, sink.mintedAt, sink.mintedAt + DEFAULT_TTL_MS)
  }

  /** The plan the host's answer authorizes, if it authorizes one. */
  function Granted(steps: seq<PlanStep>, sessionId: string, goal: string, sink: Sink): Option<seq<PlanStep>> {
    var request := RequestFor(steps, sessionId, goal, sink);
    match sink.answer(request)
    case None => None
    case Some(d) =>
      if d.requestId != request.requestId || sink.decidedAt > request.expiresAt then None
      else match Authorized(request, d.decision)
        case Ok(plan) => if plan == [] then None else Some(plan)
        case Err(_) => None
  }

  /** The model's valid proposal, with the approval flags of its risk classes. */
  ghost function ProposedPlan(w: Surroundings): Option<seq<PlanStep>> {
    if w.clarification.Some? || w.model(w.prompt).Err? || w.read(w.model(w.prompt).value).Err? then None
    else
      var raw := w.read(w.model(w.prompt).value).value;
      if IsValidProposal(raw) then Some(Flagged(raw.plan)) else None
  }

  /** The plan a run may execute, if any. */
  ghost function Admitted(w: Surroundings, sessionId: string, goal: string, sink: Sink): Option<seq<PlanStep>> {
    match ProposedPlan(w)
    case None => None
    case Some(steps) => if NeedsApproval(steps) then Granted(steps, sessionId, goal, sink) else Some(steps)
  }

  /**
   An admitted plan either contains no step that its risk class says needs approval,
   or the host answered the minted request, by its id and before it expired, with
   Approve for exactly the proposed steps or with a valid edited plan.
   */
  lemma NothingRiskyIsAdmittedUnapproved(w: Surroundings, sessionId: string, goal: string, sink: Sink)
    requires Admitted(w, sessionId, goal, sink).Some?
    ensures var plan, steps := Admitted(w, sessionId, goal, sink).value, ProposedPlan(w).value;
      var request := RequestFor(steps, sessionId, goal, sink);
      || (plan == steps && forall s | s in plan :: !s.requiresApproval && !Classify(s).RequiresApproval())
      || (&& sink.answer(request).Some? && sink.answer(request).value.requestId == request.requestId
          && sink.decidedAt <= sink.mintedAt + DEFAULT_TTL_MS
          && match sink.answer(request).value.decision
             case Approve => plan == steps
             case ApproveEdited(d) => IsValidDocument(d) && plan == d.steps
             case Reject => false)
  {
    var steps := ProposedPlan(w).value;
    if !NeedsApproval(steps) {
      forall s | s in steps ensures !s.requiresApproval && !Classify(s).RequiresApproval() {
        var i :| 0 <= i < |steps| && steps[i] == s;
        assert !steps[i].requiresApproval && steps == Flagged(w.read(w.model(w.prompt).value).value.plan);
      }
    }
  }

  /** The proposal of a run in plain terms: the model's answer, if no question comes first and it is valid. */
  ghost predicate Proposes(w: Surroundings, raw: AgentProposal) {
    && w.clarification == None && w.model(w.prompt).Ok?
    && w.read(w.model(w.prompt).value) == Ok(raw) && IsValidProposal(raw)
  }

  /**
   The host's answer, for the one id of the run's gate and within five minutes of the request, that lets
   `plan` run instead of waiting for approval of `steps`.
   */
  ghost predicate LetsRun(sink: Sink, sessionId: string, goal: string, steps: seq<PlanStep>, plan: seq<PlanStep>) {
    var asked := ApprovalRequest(
      "apr-" + sessionId + "-1", sessionId, goal, steps, sink.mintedAt, sink.mintedAt + 300_000);
    && sink.answer(asked).Some? && sink.answer(asked).value.requestId == asked.requestId
    && sink.decidedAt <= sink.mintedAt + 300_000
    && match sink.answer(asked).value.decision
       case Approve => plan == steps
       case ApproveEdited(d) => IsValidDocument(d) && plan == d.steps
       case Reject => false
  }

  lemma FirstRequestId(sessionId: string)
    ensures RequestId(sessionId, 1) == "apr-" + sessionId + "-1"
  {
    assert Numeral(1) == "1";
  }

  /**
   A plan is admitted exactly if the model proposed a valid one and either it is the proposal, with its
   flags raised and none set, or some flag is set and the host's answer lets the plan run.
   */
  lemma AdmittedExactly(w: Surroundings, sessionId: string, goal: string, sink: Sink, plan: seq<PlanStep>)
    ensures Admitted(w, sessionId, goal, sink) == Some(plan) <==>
      exists raw :: Proposes(w, raw) &&
        if forall s | s in raw.plan :: !s.requiresApproval && !Classify(s).RequiresApproval()
        then plan == Flagged(raw.plan)
        else LetsRun(sink, sessionId, goal, Flagged(raw.plan), plan)
  {
    FirstRequestId(sessionId);
    if raw :| Proposes(w, raw) {
      assert ProposedPlan(w) == Some(Flagged(raw.plan)) && Flagged(raw.plan) != [];
      FlagsAreTheClasses(raw.plan);
    }
  }

  lemma FlagsAreTheClasses(plan: seq<PlanStep>)
    ensures NeedsApproval(Flagged(plan)) <==>
            exists s :: s in plan && (s.requiresApproval || Classify(s).RequiresApproval())
  {
    var r := Flagged(plan);
    if s :| s in r && s.requiresApproval {
      var i :| 0 <= i < |r| && r[i] == s;
      assert plan[i] in plan;
    }
    if s :| s in plan && (s.requiresApproval || Classify(s).RequiresApproval()) {
      var i :| 0 <= i < |plan| && plan[i] == s;
      assert r[i] in r;
    }
  }

  lemma AdmittedPlansHaveUniqueIds(w: Surroundings, sessionId: string, goal: string, sink: Sink)
    ensures ProposedPlan(w).Some? ==> UniqueStepIds(ProposedPlan(w).value)
    ensures Admitted(w, sessionId, goal, sink).Some? ==> UniqueStepIds(Admitted(w, sessionId, goal, sink).value)
  {
    if ProposedPlan(w).Some? {
      FlagsAreNotPartOfTheContract(w.read(w.model(w.prompt).value).value, w.intent);
    }
  }

  /** Ask the host through a fresh gate; no answer, a foreign id, an expired or refused request grant nothing. */
  method SeekApproval(steps: seq<PlanStep>, sessionId: string, goal: string, sink: Sink)
    returns (r: Option<seq<PlanStep>>)
    requires NeedsApproval(steps)
    ensures r == Granted(steps, sessionId, goal, sink)
  {
    var gate := new ApprovalGate(DEFAULT_TTL_MS);
    var minted := gate.RequestApproval(sessionId, goal, steps, sink.mintedAt);
    var request := minted.value;
    var decision := sink.answer(request);
    if decision.Some? && decision.value.requestId == request.requestId {
      var plan := gate.DecideRequest(request.requestId, decision.value.decision, sink.decidedAt);
      return if plan.Err? || plan.value == [] then None else Some(plan.value);
    }
    var _ := gate.CancelRequest(request.requestId);
    return None;
  }

  /** Plan and, where needed, ask: the plan to execute, or how the run ends without executing anything. */
  method Admit(sessionId: string, goal: string, w: Surroundings, sink: Sink)
    returns (r: Result<seq<PlanStep>, LoopStop>)
    ensures match Admitted(w, sessionId, goal, sink)
      case Some(plan) => r == Ok(plan)
      case None => r.Err? && IsRefusal(w, r.error)
  {
    var outcome := RunPipeline(w);
    if outcome.Err? { return Err(RunFailed("(plan)", Unplanned(outcome.error))); }
    if outcome.value.Clarify? { return Err(RunFailed("(clarify)", Message(outcome.value.question))); }
    var plan := outcome.value.proposal.plan;
    if NeedsApproval(plan) {
      var granted := SeekApproval(plan, sessionId, goal, sink);
      return if granted == None then Err(RunCancelled) else Ok(granted.value);
    }
    return Ok(plan);
  }

  /** Why nothing was admitted: a question to the user, no valid proposal, or no approval. */
  ghost predicate IsRefusal(w: Surroundings, stop: LoopStop) {
    if w.clarification.Some? then stop == RunFailed("(clarify)", Message(w.clarification.value))
    else if ProposedPlan(w) == None then stop.RunFailed? && stop.stepId == "(plan)"
    else stop == RunCancelled
  }

  // ---------------------------------------------------------------- one run

  /** The first transitions; only a spent turn budget stops the run here. */
  method Open(session: Session) returns (spent: bool)
    requires session.Valid()
    modifies session
    ensures session.Valid()
    ensures spent <==> old(session.state) == Created && old(session.turns) == session.maxTurns
    ensures spent ==> session.state == BudgetExhausted
    ensures old(session.Fresh()) ==> session.state == Planning && session.turns == 1
  {
    var observe := session.Transition(Observing, true);
    spent := observe == Err(StepBudgetExhausted);
    if spent {
      var _ := session.Transition(BudgetExhausted, false);
    } else {
      var _ := session.Transition(Planning, false);
    }
  }

  /**
   The whole run. Steps execute exactly when the turn budget allows a start, the flag
   is down and a plan is admitted; what executes then is that plan, walked as `IsRun`
   says. From a fresh session the final state agrees with the outcome, except that
   with a budget of one turn a first-pass completion stays in Planning.
   */
  method RunAgent(session: Session, goal: string, w: Surroundings, exec: TurnExecutor, cancel: CancelFlag, sink: Sink)
    returns (stop: LoopStop, ghost walk: Walk, ghost calls: seq<ExecCall>)
    requires session.Valid()
    modifies session, exec, cancel
    ensures session.Valid() && exec.calls == old(exec.calls) + calls && (old(exec.Genuine()) ==> exec.Genuine())
    ensures var admitted := Admitted(w, session.sessionId, goal, sink);
      if old(session.state) == Created && old(session.turns) == session.maxTurns then
        calls == [] && stop == RunFailed("(budget)", Message("step budget exhausted"))
      else if cancel.readings(old(cancel.polls)) then calls == [] && stop == RunCancelled
      else if admitted.Some? then
        && IsRun(admitted.value, walk, calls, stop)
        && RunPolled(cancel.readings, old(cancel.polls) + 1, cancel.polls, |admitted.value|, walk, stop)
      else calls == [] && IsRefusal(w, stop)
    ensures old(session.Fresh()) ==>
      if session.maxTurns == 1 && stop == RunCompleted && walk.OnePass? then session.state == Planning
      else Agrees(session.state, stop)
  {
    walk, calls := OnePass(0, false), [];
    var spent := Open(session);
    if spent { return RunFailed("(budget)", Message("step budget exhausted")), walk, calls; }
    var stopped := cancel.Load();
    if stopped {
      Close(session, RunCancelled);
      return RunCancelled, walk, calls;
    }
    var plan := Admit(session.sessionId, goal, w, sink);
    if plan.Err? {
      Close(session, plan.error);
      return plan.error, walk, calls;
    }
    AdmittedPlansHaveUniqueIds(w, session.sessionId, goal, sink);
    var _ := session.Transition(Executing, true);
    stop, walk, calls := ExecuteSteps(plan.value, session, exec, cancel);
  }

  lemma FailedTry(plan: seq<PlanStep>, w: Walk, calls: seq<ExecCall>) returns (i: nat)
    requires Fits(w, |plan|) && Performed(plan, Attempts(w), calls) && (w.failed || w.TwoPasses?)
    ensures i < |calls| && calls[i].answer.Failure?
  {
    if w.failed {
      FailedRunEndsInFailure(plan, w, calls);
      i := |calls| - 1;
    } else {
      i := w.first;
      assert Attempts(w)[i] == Attempt(w.first, false) && IsTry(plan, Attempts(w)[i], calls[i]);
    }
  }

  /** If no call fails and the flag is never up, the run completes in its first pass. */
  lemma GoodRunsComplete(plan: seq<PlanStep>, w: Walk, calls: seq<ExecCall>, stop: LoopStop,
                         readings: nat -> bool, from: nat, upto: nat)
    requires IsRun(plan, w, calls, stop) && RunPolled(readings, from, upto, |plan|, w, stop)
    requires (forall k | 0 <= k < |calls| :: calls[k].answer == Success) && forall k :: !readings(k)
    ensures w.OnePass? && stop == RunCompleted
  {
    if w.failed || w.TwoPasses? {
      var i := FailedTry(plan, w, calls);
    }
    CompletionIsTotal(plan, w, calls);
  }

  /**
   With a budget of one turn, an executor that always succeeds and no cancel, any admitted plan leaves the
   session in Planning.
   */
  method OneTurnStaysInPlanning(sessionId: string, goal: string, w: Surroundings, sink: Sink)
    returns (stop: LoopStop, state: AgentRunStatus)
    requires Admitted(w, sessionId, goal, sink).Some?
    ensures stop == RunCompleted && state == Planning
  {
    var session := new Session(sessionId, 1);
    var exec := new TurnExecutor(k => Success);
    var cancel := new CancelFlag(k => false);
    ghost var walk, calls;
    stop, walk, calls := RunAgent(session, goal, w, exec, cancel, sink);
    assert exec.calls == calls;
    GoodRunsComplete(Admitted(w, sessionId, goal, sink).value, walk, calls, stop, cancel.readings, 1, cancel.polls);
    state := session.state;
  }
}
