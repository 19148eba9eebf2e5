/**
 The bounded fan-out of `SearchCoordinator::search`: its workers as interleaved atomic steps.
 Theorems are about every trace, that is every interleaving and every moment of cancellation.
 */
module SearchCoordinator {
  import opened Domain
  import opened Wrappers
  import opened SearchRouting

  /** One search: the registered providers, the selection, its groups, and whether a cancel flag was given. */
  datatype Search = Search(slots: seq<Slot>, selected: seq<nat>, groups: seq<seq<nat>>, cancellable: bool) {
    ghost predicate Valid() {
      Increasing(selected) && (forall i | i in selected :: i < |slots|) && Deals(groups, selected)
    }

    function Outcome(i: nat): Outcome
      requires i < |slots|
    {
      slots[i].outcome
    }

    predicate Faulty(i: nat)
      requires i < |slots|
    {
      Outcome(i).Panicked? || Outcome(i).error.Some?
    }
  }

  /**
   Where a worker is in the loop body for its current provider: polling the flag, `fetch_add`,
   `fetch_max`, the query, `fetch_sub`, storing the commands, recording an error. A worker that saw
   the flag has stopped; one that indexed past the result table has crashed.
   */
  datatype Phase = Polling | Entering | Marking(now: int) | Asking | Leaving | Storing | Logging | Stopped | Crashed

  datatype Worker = Worker(at: nat, phase: Phase) {
    predicate InFlight() { phase.Marking? || phase.Asking? || phase.Leaving? }

    /** Has the k-th provider of the group been queried, stored, finished with? */
    predicate Asked(k: int) {
      k < at || (k == at && (phase.Leaving? || phase.Storing? || phase.Logging? || phase.Crashed?))
    }

    predicate Stored(k: int) { k < at || (k == at && phase.Logging?) }

    predicate Passed(k: int) { k < at }
  }

  /** The shared variables; `asked` counts the queries each provider has received. */
  datatype State = State(
    workers: seq<Worker>, results: seq<Option<seq<Command>>>, errors: multiset<nat>, asked: seq<nat>,
    cancelled: bool, inFlight: int, maxSeen: int)

  ghost predicate Fits(c: Search, s: State) {
    && |s.workers| == |c.groups| && |s.results| == |c.selected| && |s.asked| == |c.slots|
    && forall g | 0 <= g < |s.workers| :: s.workers[g].at <= |c.groups[g]|
  }

  predicate Running(c: Search, s: State, g: nat) {
    && g < |s.workers| && g < |c.groups| && s.workers[g].at < |c.groups[g]|
    && !s.workers[g].phase.Stopped? && !s.workers[g].phase.Crashed?
  }

  function Begin(c: Search, seen: int): State {
    State(
      seq(|c.groups|, _ => Worker(0, Polling)), seq(|c.selected|, _ => None), multiset{}, seq(|c.slots|, _ => 0),
      false, 0, seen)
  }

  function Become(s: State, g: nat, phase: Phase): State
    requires g < |s.workers|
  {
    s.(workers := s.workers[g := s.workers[g].(phase := phase)])
  }

  function Advance(s: State, g: nat): State
    requires g < |s.workers|
  {
    s.(workers := s.workers[g := Worker(s.workers[g].at + 1, Polling)])
  }

  /** The next atomic step of worker g; `flag` is what the cancel flag holds if the step reads it. */
  function Step(c: Search, s: State, g: nat, flag: bool): State
    requires |s.workers| == |c.groups| && |s.results| == |c.selected| && |s.asked| == |c.slots|
    requires Running(c, s, g) && c.groups[g][s.workers[g].at] < |c.slots|
  {
    var i := c.groups[g][s.workers[g].at];
    match s.workers[g].phase
    case Polling =>
      if c.cancellable && flag then Become(s, g, Stopped).(cancelled := true) else Become(s, g, Entering)
    case Entering => Become(s, g, Marking(s.inFlight + 1)).(inFlight := s.inFlight + 1)
    case Marking(now) => Become(s, g, Asking).(maxSeen := if now > s.maxSeen then now else s.maxSeen)
    case Asking => Become(s, g, Leaving).(asked := s.asked[i := s.asked[i] + 1])
    case Leaving => Become(s, g, Storing).(inFlight := s.inFlight - 1)
    case Storing => (
      match c.Outcome(i)
      case Panicked => Become(s, g, Logging)
      case Answered(commands, error) =>
        if i >= |s.results| then Become(s, g, Crashed)
        else (if error.Some? then Become(s, g, Logging) else Advance(s, g)).(results := s.results[i := Some(commands)]))
    case Logging => Advance(s, g).(errors := s.errors + multiset{i})
    case Stopped => s
    case Crashed => s
  }

  // ---------------------------------------------------------------- the invariant

  /** What the shared variables say about the provider in cell (g, k), given how far its worker is. */
  ghost predicate CellAgrees(c: Search, s: State, g: int, k: int)
    requires Fits(c, s) && c.Valid() && IsCell(c.groups, g, k)
  {
    var w, i := s.workers[g], c.groups[g][k];
    && s.asked[i] == (if w.Asked(k) then 1 else 0)
    && (i < |s.results| ==>
          s.results[i] == if w.Stored(k) && c.Outcome(i).Answered? then Some(c.Outcome(i).commands) else None)
    && (w.Stored(k) && c.Outcome(i).Answered? ==> i < |s.results|)
    && s.errors[i] == (if w.Passed(k) && c.Faulty(i) then 1 else 0)
    && (k == w.at && w.phase.Logging? ==> c.Faulty(i))
    && (k == w.at && w.phase.Crashed? ==> c.Outcome(i).Answered? && i >= |s.results|)
  }

  ghost predicate CellsAgree(c: Search, s: State)
    requires Fits(c, s) && c.Valid()
  {
    forall g, k | IsCell(c.groups, g, k) :: CellAgrees(c, s, g, k)
  }

  ghost predicate OthersUntouched(c: Search, s: State)
    requires Fits(c, s)
  {
    && (forall i | 0 <= i < |s.asked| && i !in c.selected :: s.asked[i] == 0)
    && (forall i | i in s.errors :: i in c.selected)
    && (forall g | 0 <= g < |s.workers| && s.workers[g].at == |c.groups[g]| :: s.workers[g].phase.Polling?)
  }

  ghost predicate SomeoneStopped(workers: seq<Worker>) { exists g :: 0 <= g < |workers| && workers[g].phase.Stopped? }

  function Entered(workers: seq<Worker>): (r: nat)
    ensures r <= |workers|
  {
    if workers == [] then 0
    else
      var last := |workers| - 1;
      Entered(workers[..last]) + if workers[last].InFlight() then 1 else 0
  }

  ghost predicate Inv(c: Search, s: State)
    requires c.Valid()
  {
    && Fits(c, s) && CellsAgree(c, s) && OthersUntouched(c, s)
    && (s.cancelled <==> SomeoneStopped(s.workers))
    && s.inFlight == Entered(s.workers)
  }

  lemma {:induction false} EnteredAfter(workers: seq<Worker>, g: nat, w: Worker)
    requires g < |workers|
    ensures Entered(workers[g := w]) + (if workers[g].InFlight() then 1 else 0) ==
            Entered(workers) + (if w.InFlight() then 1 else 0)
  {
    var last, updated := |workers| - 1, workers[g := w];
    if g == last {
      assert updated[..last] == workers[..last];
    } else {
      EnteredAfter(workers[..last], g, w);
      assert updated[..last] == workers[..last][g := w];
    }
  }

  lemma BeginAgrees(c: Search, seen: int)
    requires c.Valid()
    ensures Inv(c, Begin(c, seen))
  {
    NobodyEntered(Begin(c, seen).workers);
  }

  lemma {:induction false} NobodyEntered(workers: seq<Worker>)
    requires forall g | 0 <= g < |workers| :: !workers[g].InFlight()
    ensures Entered(workers) == 0
  {
    if workers != [] { NobodyEntered(workers[..|workers| - 1]); }
  }

  lemma StepFits(c: Search, s: State, g: nat, flag: bool)
    requires c.Valid() && Inv(c, s) && Running(c, s, g)
    ensures c.groups[g][s.workers[g].at] in c.selected && Fits(c, Step(c, s, g, flag))
  {
    assert IsCell(c.groups, g, s.workers[g].at);
    var next := Step(c, s, g, flag);
    assert next.workers == s.workers[g := next.workers[g]];
  }

  /** A worker that moves says the same as before about every provider of its group but the one it is at. */
  ghost predicate SameElsewhere(w: Worker, after: Worker) {
    forall k | k != w.at ::
      (after.Asked(k) <==> w.Asked(k)) && (after.Stored(k) <==> w.Stored(k)) && (after.Passed(k) <==> w.Passed(k)) &&
      (k == after.at ==> !after.phase.Logging? && !after.phase.Crashed?)
  }

  /** What a step of worker g may change: that worker, and the entries of the provider it is at. */
  ghost predicate Touches(s: State, next: State, g: nat, i: nat)
    requires g < |s.workers| && |next.workers| == |s.workers|
  {
    && next.workers == s.workers[g := next.workers[g]] && SameElsewhere(s.workers[g], next.workers[g])
    && |next.asked| == |s.asked| && |next.results| == |s.results|
    && (forall j | 0 <= j < |s.asked| && j != i :: next.asked[j] == s.asked[j])
    && (forall j | 0 <= j < |s.results| && j != i :: next.results[j] == s.results[j])
    && (forall j | j != i :: next.errors[j] == s.errors[j])
    && (next.cancelled <==> s.cancelled || next.workers[g].phase.Stopped?)
  }

  lemma StepTouches(c: Search, s: State, g: nat, flag: bool)
    requires c.Valid() && Fits(c, s) && Running(c, s, g) && c.groups[g][s.workers[g].at] < |c.slots|
    requires Fits(c, Step(c, s, g, flag))
    ensures Touches(s, Step(c, s, g, flag), g, c.groups[g][s.workers[g].at])
  {
  }

  /** A step says nothing new about the other providers. */
  lemma OtherCellAgrees(c: Search, s: State, next: State, g: nat, h: int, k: int)
    requires c.Valid() && Inv(c, s) && Running(c, s, g) && IsCell(c.groups, h, k) && !(h == g && k == s.workers[g].at)
    requires Fits(c, next) && Touches(s, next, g, c.groups[g][s.workers[g].at])
    ensures CellAgrees(c, next, h, k)
  {
    assert IsCell(c.groups, g, s.workers[g].at);
    assert c.groups[h][k] != c.groups[g][s.workers[g].at];
    assert CellAgrees(c, s, h, k);
    if h == g { assert SameElsewhere(s.workers[g], next.workers[g]); }
  }

  lemma OwnCellAgrees(c: Search, s: State, g: nat, flag: bool)
    requires c.Valid() && Inv(c, s) && Running(c, s, g)
    requires c.groups[g][s.workers[g].at] < |c.slots| && Fits(c, Step(c, s, g, flag))
    ensures CellAgrees(c, Step(c, s, g, flag), g, s.workers[g].at)
  {
    assert IsCell(c.groups, g, s.workers[g].at);
    OwnCellMoves(c, s, Step(c, s, g, flag), g, flag);
  }

  lemma OwnCellMoves(c: Search, s: State, next: State, g: nat, flag: bool)
    requires c.Valid() && Fits(c, s) && Running(c, s, g) && Fits(c, next)
    requires c.groups[g][s.workers[g].at] < |c.slots| && next == Step(c, s, g, flag)
    requires CellAgrees(c, s, g, s.workers[g].at)
    ensures CellAgrees(c, next, g, s.workers[g].at)
  {
  }

  lemma StepCounts(c: Search, s: State, g: nat, flag: bool)
    requires c.Valid() && Fits(c, s) && Running(c, s, g) && c.groups[g][s.workers[g].at] < |c.slots|
    requires Fits(c, Step(c, s, g, flag)) && s.inFlight == Entered(s.workers)
    ensures Step(c, s, g, flag).inFlight == Entered(Step(c, s, g, flag).workers)
  {
    var next := Step(c, s, g, flag);
    EnteredAfter(s.workers, g, next.workers[g]);
    assert next.workers == s.workers[g := next.workers[g]];
  }

  lemma StoppingIsRecorded(s: State, next: State, g: nat, i: nat)
    requires g < |s.workers| == |next.workers| && Touches(s, next, g, i) && !s.workers[g].phase.Stopped?
    requires s.cancelled <==> SomeoneStopped(s.workers)
    ensures next.cancelled <==> SomeoneStopped(next.workers)
  {
    if SomeoneStopped(s.workers) {
      var h :| 0 <= h < |s.workers| && s.workers[h].phase.Stopped?;
      assert next.workers[h].phase.Stopped?;
    }
    if SomeoneStopped(next.workers) {
      var h :| 0 <= h < |next.workers| && next.workers[h].phase.Stopped?;
      assert h == g || s.workers[h].phase.Stopped?;
    }
  }

  lemma OthersStayUntouched(c: Search, s: State, next: State, g: nat)
    requires c.Valid() && Fits(c, s) && Fits(c, next) && OthersUntouched(c, s) && Running(c, s, g)
    requires c.groups[g][s.workers[g].at] in c.selected && Touches(s, next, g, c.groups[g][s.workers[g].at])
    requires next.workers[g].at == s.workers[g].at || next.workers[g].phase.Polling?
    ensures OthersUntouched(c, next)
  {
    forall i | i in next.errors ensures i in c.selected {
      assert i == c.groups[g][s.workers[g].at] || i in s.errors;
    }
  }

  lemma StepKeepsCells(c: Search, s: State, g: nat, flag: bool)
    requires c.Valid() && Inv(c, s) && Running(c, s, g) && c.groups[g][s.workers[g].at] < |c.slots|
    requires var next := Step(c, s, g, flag); Fits(c, next) && Touches(s, next, g, c.groups[g][s.workers[g].at])
    ensures CellsAgree(c, Step(c, s, g, flag))
  {
    var next := Step(c, s, g, flag);
    forall h, k | IsCell(c.groups, h, k) ensures CellAgrees(c, next, h, k) {
      if h == g && k == s.workers[g].at { OwnCellAgrees(c, s, g, flag); } else { OtherCellAgrees(c, s, next, g, h, k); }
    }
  }

  lemma StepReturns(c: Search, s: State, g: nat, flag: bool)
    requires Fits(c, s) && Running(c, s, g) && c.groups[g][s.workers[g].at] < |c.slots|
    ensures var w := Step(c, s, g, flag).workers[g]; w.at == s.workers[g].at || w.phase.Polling?
  {
  }

  lemma StepKeepsInv(c: Search, s: State, g: nat, flag: bool)
    requires c.Valid() && Inv(c, s) && Running(c, s, g)
    ensures c.groups[g][s.workers[g].at] < |c.slots| && Inv(c, Step(c, s, g, flag))
  {
    StepFits(c, s, g, flag);
    StepTouches(c, s, g, flag);
    StepKeepsCells(c, s, g, flag);
    StepCounts(c, s, g, flag);
    StepReturns(c, s, g, flag);
    var next, i := Step(c, s, g, flag), c.groups[g][s.workers[g].at];
    OthersStayUntouched(c, s, next, g);
    StoppingIsRecorded(s, next, g, i);
  }

  // ---------------------------------------------------------------- runs

  /** Which worker was scheduled, step by step; scheduling one that cannot move changes nothing. */
  datatype Trace = Start | Then(before: Trace, worker: nat, flag: bool)

  ghost function After(c: Search, seen: int, t: Trace): (s: State)
    requires c.Valid()
    ensures Inv(c, s)
  {
    match t
    case Start => BeginAgrees(c, seen); Begin(c, seen)
    case Then(before, g, flag) =>
      var s := After(c, seen, before);
      if Running(c, s, g) then StepKeepsInv(c, s, g, flag); Step(c, s, g, flag) else s
  }

  ghost predicate Finished(c: Search, s: State) { forall g: nat :: !Running(c, s, g) }

  ghost predicate HasCrashed(s: State) { exists g :: 0 <= g < |s.workers| && s.workers[g].phase.Crashed? }

  /** Did some worker read the flag while it was set? */
  ghost predicate Saw(c: Search, seen: int, t: Trace)
    requires c.Valid()
  {
    t.Then? && (Saw(c, seen, t.before) || (
      c.cancellable && t.flag && Running(c, After(c, seen, t.before), t.worker) &&
      After(c, seen, t.before).workers[t.worker].phase.Polling?))
  }

  lemma PollingSees(c: Search, s: State, g: nat, flag: bool)
    requires Fits(c, s) && Running(c, s, g) && c.groups[g][s.workers[g].at] < |c.slots|
    ensures Step(c, s, g, flag).cancelled <==> s.cancelled || (c.cancellable && flag && s.workers[g].phase.Polling?)
  {
  }

  lemma {:induction false} CancelledExactlyWhenSeen(c: Search, seen: int, t: Trace)
    requires c.Valid()
    ensures After(c, seen, t).cancelled <==> Saw(c, seen, t)
  {
    if t.Then? {
      CancelledExactlyWhenSeen(c, seen, t.before);
      var s := After(c, seen, t.before);
      if Running(c, s, t.worker) {
        StepFits(c, s, t.worker, t.flag);
        PollingSees(c, s, t.worker, t.flag);
      }
    }
  }

  function Greater(x: int, y: int): int { if x > y then x else y }

  /** The largest number of queries in flight at any moment of the run. */
  ghost function Peak(c: Search, seen: int, t: Trace): int
    requires c.Valid()
  {
    if t.Start? then 0 else Greater(Peak(c, seen, t.before), After(c, seen, t).inFlight)
  }

  lemma NobodyLeftInside(c: Search, s: State)
    requires c.Valid() && Inv(c, s)
    ensures 0 <= s.inFlight <= |c.groups|
    ensures Finished(c, s) ==> s.inFlight == 0
  {
    if Finished(c, s) {
      forall g | 0 <= g < |s.workers| ensures !s.workers[g].InFlight() { assert !Running(c, s, g); }
      NobodyEntered(s.workers);
    }
  }

  /** Never more queries at once than workers, and none left over at the end. */
  lemma {:induction false} InFlightIsBounded(c: Search, seen: int, t: Trace)
    requires c.Valid()
    ensures 0 <= After(c, seen, t).inFlight <= |c.groups|
    ensures 0 <= Peak(c, seen, t) <= |c.groups|
    ensures Finished(c, After(c, seen, t)) ==> After(c, seen, t).inFlight == 0
  {
    NobodyLeftInside(c, After(c, seen, t));
    if t.Then? { InFlightIsBounded(c, seen, t.before); }
  }

  /** Each worker between `fetch_add` and `fetch_max` carries a count it has yet to report. */
  ghost predicate PeakIsKnown(s: State, seen: int, peak: int) {
    && seen <= s.maxSeen <= Greater(seen, peak)
    && (forall g | 0 <= g < |s.workers| && s.workers[g].phase.Marking? :: s.workers[g].phase.now <= peak)
    && (peak <= s.maxSeen || peak <= 0 || exists g :: 0 <= g < |s.workers| && s.workers[g].phase == Marking(peak))
  }

  ghost predicate Marks(s: State, next: State, g: nat)
    requires g < |s.workers| == |next.workers|
  {
    var w, after := s.workers[g], next.workers[g];
    && (forall h | 0 <= h < |s.workers| && h != g :: next.workers[h] == s.workers[h])
    && next.maxSeen == (if w.phase.Marking? then Greater(w.phase.now, s.maxSeen) else s.maxSeen)
    && next.inFlight <= s.inFlight + 1
    && (next.inFlight > s.inFlight || after.phase.Marking? ==> after.phase == Marking(next.inFlight))
  }

  lemma StepMarks(c: Search, s: State, g: nat, flag: bool)
    requires c.Valid() && Fits(c, s) && Running(c, s, g) && c.groups[g][s.workers[g].at] < |c.slots|
    ensures |Step(c, s, g, flag).workers| == |s.workers| && Marks(s, Step(c, s, g, flag), g)
  {
  }

  lemma MarkingKeepsPeak(s: State, next: State, g: nat, seen: int, peak: int)
    requires g < |s.workers| == |next.workers| && Marks(s, next, g)
    requires PeakIsKnown(s, seen, peak) && s.inFlight <= peak
    ensures PeakIsKnown(next, seen, Greater(peak, next.inFlight))
  {
    if h :| 0 <= h < |s.workers| && s.workers[h].phase == Marking(peak) {
      assert h == g || next.workers[h].phase == Marking(peak);
    }
  }

  lemma StepKeepsPeak(c: Search, s: State, g: nat, flag: bool, seen: int, peak: int)
    requires c.Valid() && Fits(c, s) && Running(c, s, g) && c.groups[g][s.workers[g].at] < |c.slots|
    requires PeakIsKnown(s, seen, peak) && s.inFlight <= peak
    ensures PeakIsKnown(Step(c, s, g, flag), seen, Greater(peak, Step(c, s, g, flag).inFlight))
  {
    StepMarks(c, s, g, flag);
    MarkingKeepsPeak(s, Step(c, s, g, flag), g, seen, peak);
  }

  lemma {:induction false} PeakStaysKnown(c: Search, seen: int, t: Trace)
    requires c.Valid()
    ensures PeakIsKnown(After(c, seen, t), seen, Peak(c, seen, t)) && After(c, seen, t).inFlight <= Peak(c, seen, t)
  {
    if t.Then? {
      PeakStaysKnown(c, seen, t.before);
      var s := After(c, seen, t.before);
      if Running(c, s, t.worker) {
        StepFits(c, s, t.worker, t.flag);
        StepKeepsPeak(c, s, t.worker, t.flag, seen, Peak(c, seen, t.before));
      }
    }
  }

  /** The reported maximum is the true peak of this search, or of an earlier one on the same coordinator. */
  lemma PeakIsReported(c: Search, seen: nat, t: Trace)
    requires c.Valid() && Finished(c, After(c, seen, t))
    ensures After(c, seen, t).maxSeen == Greater(seen, Peak(c, seen, t))
  {
    var s := After(c, seen, t);
    PeakStaysKnown(c, seen, t);
    forall g | 0 <= g < |s.workers| ensures !s.workers[g].phase.Marking? { assert !Running(c, s, g); }
  }

  // ---------------------------------------------------------------- what a finished search returns

  lemma CellOf(c: Search, i: nat) returns (g: nat, k: nat)
    requires c.Valid() && i in c.selected
    ensures IsCell(c.groups, g, k) && c.groups[g][k] == i
  {
    assert InSomeCell(c.groups, i);
    var g', k' :| IsCell(c.groups, g', k') && c.groups[g'][k'] == i;
    g, k := g', k';
  }

  /** No provider is ever asked twice, and one that was not selected is not asked at all. */
  lemma AskedAtMostOnce(c: Search, seen: int, t: Trace, i: nat)
    requires c.Valid() && i < |c.slots|
    ensures After(c, seen, t).asked[i] <= if i in c.selected then 1 else 0
  {
    var s := After(c, seen, t);
    if i in c.selected {
      var g, k := CellOf(c, i);
      assert CellAgrees(c, s, g, k);
    }
  }

  /** At the end a provider's answer is in the table exactly when it was asked and answered. */
  lemma FinishedCell(c: Search, s: State, i: nat)
    requires c.Valid() && Inv(c, s) && Finished(c, s) && i in c.selected
    ensures i < |s.results| ==>
      s.results[i] == if s.asked[i] == 1 && c.Outcome(i).Answered? then Some(c.Outcome(i).commands) else None
    ensures s.errors[i] == 1 ==> c.Faulty(i)
    ensures s.errors[i] <= s.asked[i] <= 1
    ensures !s.cancelled && !HasCrashed(s) ==>
      s.asked[i] == 1 && s.errors[i] == (if c.Faulty(i) then 1 else 0) && (c.Outcome(i).Answered? ==> i < |s.results|)
  {
    var g, k := CellOf(c, i);
    assert CellAgrees(c, s, g, k) && !Running(c, s, g);
    var w := s.workers[g];
    if !s.cancelled { assert !w.phase.Stopped?; }
    if !HasCrashed(s) { assert !w.phase.Crashed?; }
  }

  lemma CrashSite(c: Search, s: State, g: nat) returns (i: nat)
    requires c.Valid() && Inv(c, s) && g < |s.workers| && s.workers[g].phase.Crashed?
    ensures i in c.selected && i >= |c.selected| && c.Outcome(i).Answered?
  {
    var k := s.workers[g].at;
    assert k < |c.groups[g]|;
    assert IsCell(c.groups, g, k) && CellAgrees(c, s, g, k);
    i := c.groups[g][k];
  }

  /**
   An uncancelled search ends in an index panic exactly when some selected provider that answers is
   registered at a position past the length of the selection.
   */
  lemma CrashesExactly(c: Search, seen: int, t: Trace)
    requires c.Valid() && Finished(c, After(c, seen, t)) && !After(c, seen, t).cancelled
    ensures HasCrashed(After(c, seen, t)) <==>
            exists i :: i in c.selected && i >= |c.selected| && c.Outcome(i).Answered?
  {
    var s := After(c, seen, t);
    if HasCrashed(s) {
      var g :| 0 <= g < |s.workers| && s.workers[g].phase.Crashed?;
      var i := CrashSite(c, s, g);
    } else {
      forall i | i in c.selected && i >= |c.selected| ensures !c.Outcome(i).Answered? {
        FinishedCell(c, s, i);
      }
    }
  }

  /** A selection without gaps never crashes, in any run, finished or not. */
  lemma InitialNeverCrashes(c: Search, seen: int, t: Trace)
    requires c.Valid() && Initial(c.selected)
    ensures !HasCrashed(After(c, seen, t))
  {
    var s := After(c, seen, t);
    FitsExactlyWhenInitial(c.selected);
    forall g | 0 <= g < |s.workers| ensures !s.workers[g].phase.Crashed? {
      if s.workers[g].phase.Crashed? { var i := CrashSite(c, s, g); }
    }
  }

  /** The answers of the first n providers for which `asked` is set, in registration order. */
  function Answers(slots: seq<Slot>, asked: seq<nat>, n: nat): seq<Command>
    requires n <= |slots| == |asked|
  {
    if n == 0 then []
    else
      var before := Answers(slots, asked, n - 1);
      if asked[n - 1] == 1 && slots[n - 1].outcome.Answered? then before + slots[n - 1].outcome.commands else before
  }

  function Merged(results: seq<Option<seq<Command>>>): seq<Command> {
    if results == [] then []
    else
      var last := |results| - 1;
      if results[last].Some? then Merged(results[..last]) + results[last].value else Merged(results[..last])
  }

  method Merge(results: seq<Option<seq<Command>>>) returns (commands: seq<Command>)
    ensures commands == Merged(results)
  {
    commands := [];
    for i := 0 to |results|
      invariant commands == Merged(results[..i])
    {
      assert results[..i + 1][..i] == results[..i];
      if results[i].Some? { commands := commands + results[i].value; }
    }
    assert results[..|results|] == results;
  }

  lemma {:induction false} MergedAnswers(slots: seq<Slot>, asked: seq<nat>, results: seq<Option<seq<Command>>>, n: nat)
    requires n <= |results| && |slots| == |asked| && n <= |slots|
    requires forall i | 0 <= i < n ::
      results[i] == if asked[i] == 1 && slots[i].outcome.Answered? then Some(slots[i].outcome.commands) else None
    ensures Merged(results[..n]) == Answers(slots, asked, n)
  {
    if n > 0 {
      MergedAnswers(slots, asked, results, n - 1);
      assert results[..n][..n - 1] == results[..n - 1];
    }
  }

  /** Cancelled or not, the merge is the registration-order concatenation over the providers that were asked. */
  lemma MergeIsInRegistrationOrder(c: Search, seen: int, t: Trace)
    requires c.Valid() && Initial(c.selected) && Finished(c, After(c, seen, t))
    ensures |c.selected| <= |c.slots|
    ensures var s := After(c, seen, t); Merged(s.results) == Answers(c.slots, s.asked, |c.selected|)
  {
    var s := After(c, seen, t);
    if |c.selected| > 0 { assert c.selected[|c.selected| - 1] in c.selected; }
    forall i | 0 <= i < |c.selected|
      ensures s.results[i] ==
        if s.asked[i] == 1 && c.slots[i].outcome.Answered? then Some(c.slots[i].outcome.commands) else None
    {
      assert c.selected[i] in c.selected;
      FinishedCell(c, s, i);
    }
    MergedAnswers(c.slots, s.asked, s.results, |c.selected|);
    assert s.results[..|c.selected|] == s.results;
  }

  // ---------------------------------------------------------------- against the sequential search

  /** The sequential search over the first n providers: their commands, and their errors as text. */
  function FanOut(slots: seq<Slot>, n: nat): seq<Command>
    requires n <= |slots|
  {
    if n == 0 then []
    else if slots[n - 1].outcome.Answered? then FanOut(slots, n - 1) + slots[n - 1].outcome.commands
    else FanOut(slots, n - 1)
  }

  predicate Fails(slot: Slot) { slot.outcome.Panicked? || slot.outcome.error.Some? }

  ghost predicate AllFail(slots: seq<Slot>, failing: seq<nat>) {
    forall k | 0 <= k < |failing| :: failing[k] < |slots| && Fails(slots[failing[k]])
  }

  /** The failing providers among the first n, in registration order. */
  function Failures(slots: seq<Slot>, n: nat): (r: seq<nat>)
    requires n <= |slots|
    ensures AllFail(slots, r) && Increasing(r) && forall k | 0 <= k < |r| :: r[k] < n
  {
    if n == 0 then []
    else if Fails(slots[n - 1]) then Failures(slots, n - 1) + [n - 1]
    else Failures(slots, n - 1)
  }

  /** Whatever comes before a provider in the list comes before it in what the searches return. */
  lemma {:induction false} CommandsAreInOrder(slots: seq<Slot>, asked: seq<nat>, i: nat, n: nat)
    requires i < n <= |slots| == |asked| && slots[i].outcome.Answered?
    ensures asked[i] == 1 ==> Answers(slots, asked, i) + slots[i].outcome.commands <= Answers(slots, asked, n)
    ensures FanOut(slots, i) + slots[i].outcome.commands <= FanOut(slots, n)
    decreases n
  {
    if i < n - 1 { CommandsAreInOrder(slots, asked, i, n - 1); }
  }

  lemma {:induction false} FailuresOnceEach(slots: seq<Slot>, n: nat, i: nat)
    requires n <= |slots|
    ensures multiset(Failures(slots, n))[i] == if i < n && Fails(slots[i]) then 1 else 0
  {
    if n > 0 { FailuresOnceEach(slots, n - 1, i); }
  }

  /** What is recorded of a failing provider. */
  function ErrorText(slot: Slot): string
    requires Fails(slot)
  {
    slot.id + ": " + if slot.outcome.Panicked? then "provider panicked" else slot.outcome.error.value
  }

  function Texts(slots: seq<Slot>, failing: seq<nat>): seq<string>
    requires AllFail(slots, failing)
  {
    seq(|failing|, k requires 0 <= k < |failing| => ErrorText(slots[failing[k]]))
  }

  datatype Found = Found(commands: seq<Command>, errors: seq<string>)

  /** `Core::search` asks one provider after another; there a panic ends the whole search. */
  method SequentialSearch(slots: seq<Slot>) returns (r: Option<Found>)
    ensures r.Some? <==> forall i | 0 <= i < |slots| :: slots[i].outcome.Answered?
    ensures r.Some? ==> r.value == Found(FanOut(slots, |slots|), Texts(slots, Failures(slots, |slots|)))
  {
    var all: seq<Command> := [];
    var errors: seq<string> := [];
    for n := 0 to |slots|
      invariant forall i | 0 <= i < n :: slots[i].outcome.Answered?
      invariant all == FanOut(slots, n) && errors == Texts(slots, Failures(slots, n))
    {
      match slots[n].outcome {
        case Panicked => return None;
        case Answered(commands, error) =>
          all := all + commands;
          if error.Some? { errors := errors + [slots[n].id + ": " + error.value]; }
      }
    }
    return Some(Found(all, errors));
  }

  lemma {:induction false} EveryoneAsked(slots: seq<Slot>, asked: seq<nat>, n: nat)
    requires n <= |slots| == |asked| && forall i | 0 <= i < n :: asked[i] == 1
    ensures Answers(slots, asked, n) == FanOut(slots, n)
  {
    if n > 0 { EveryoneAsked(slots, asked, n - 1); }
  }

  datatype ResultState = Cancelled | Complete | Partial

  function Conclusion(s: State): ResultState {
    if s.cancelled then Cancelled else if s.errors == multiset{} then Complete else Partial
  }

  /** The search of `strategy` over `slots` in at most `maxParallelism` workers. */
  function Plan(slots: seq<Slot>, strategy: Strategy, maxParallelism: nat, cancellable: bool): (c: Search)
    requires maxParallelism > 0
    ensures c.Valid() && 0 < |c.groups| <= maxParallelism
  {
    var selected := Selected(slots, strategy, |slots|);
    DealingPartitions(selected, GroupCount(maxParallelism, |selected|), |selected|);
    assert selected[..|selected|] == selected;
    Search(slots, selected, Dealt(selected, GroupCount(maxParallelism, |selected|), |selected|), cancellable)
  }

  /**
   Over all providers, every finished run that saw no cancellation asked each provider exactly once,
   merged what the sequential search returns, recorded each failure once, and is complete exactly
   when nobody failed.
   */
  lemma AgreesWithSequential(slots: seq<Slot>, maxParallelism: nat, cancellable: bool, seen: int, t: Trace)
    requires maxParallelism > 0
    requires var c := Plan(slots, All, maxParallelism, cancellable); Finished(c, After(c, seen, t)) && !Saw(c, seen, t)
    ensures var c := Plan(slots, All, maxParallelism, cancellable); var s := After(c, seen, t);
      && Merged(s.results) == FanOut(slots, |slots|)
      && (forall i | 0 <= i < |slots| :: s.asked[i] == 1)
      && s.errors == multiset(Failures(slots, |slots|))
      && Conclusion(s) == if (forall i | 0 <= i < |slots| :: !c.Faulty(i)) then Complete else Partial
  {
    var c := Plan(slots, All, maxParallelism, cancellable);
    var s := After(c, seen, t);
    AllSelectsEverything(slots, |slots|);
    CancelledExactlyWhenSeen(c, seen, t);
    InitialNeverCrashes(c, seen, t);
    MergeIsInRegistrationOrder(c, seen, t);
    forall i | 0 <= i < |slots|
      ensures s.asked[i] == 1 && s.errors[i] == if c.Faulty(i) then 1 else 0
    {
      assert c.selected[i] in c.selected;
      FinishedCell(c, s, i);
    }
    EveryoneAsked(slots, s.asked, |slots|);
    ErrorsAreFailures(c, s);
    NoErrorsExactlyWhenFaultless(c, s);
  }

  /** A search that ends is cancelled exactly when a worker saw the flag, and otherwise partial when one failed. */
  lemma ConclusionExactly(c: Search, seen: int, t: Trace)
    requires c.Valid() && Finished(c, After(c, seen, t)) && !HasCrashed(After(c, seen, t))
    ensures var s := After(c, seen, t);
      if Saw(c, seen, t) then Conclusion(s) == Cancelled
      else Conclusion(s) == if exists i :: i in c.selected && c.Faulty(i) then Partial else Complete
  {
    var s := After(c, seen, t);
    CancelledExactlyWhenSeen(c, seen, t);
    forall i | i in c.selected
      ensures !s.cancelled ==> s.errors[i] == if c.Faulty(i) then 1 else 0
    {
      FinishedCell(c, s, i);
    }
    if s.errors != multiset{} {
      var i :| i in s.errors;
      assert i in c.selected;
    }
  }

  lemma ErrorsAreFailures(c: Search, s: State)
    requires c.Valid() && Inv(c, s)
    requires forall i | 0 <= i < |c.slots| :: s.errors[i] == if c.Faulty(i) then 1 else 0
    ensures s.errors == multiset(Failures(c.slots, |c.slots|))
  {
    var failures := multiset(Failures(c.slots, |c.slots|));
    forall i: nat ensures s.errors[i] == failures[i] {
      FailuresOnceEach(c.slots, |c.slots|, i);
      if i >= |c.slots| { assert i !in c.selected && i !in s.errors; }
    }
  }

  lemma NoErrorsExactlyWhenFaultless(c: Search, s: State)
    requires c.Valid() && Inv(c, s)
    requires forall i | 0 <= i < |c.slots| :: s.errors[i] == if c.Faulty(i) then 1 else 0
    ensures s.errors == multiset{} <==> forall i | 0 <= i < |c.slots| :: !c.Faulty(i)
  {
    if s.errors != multiset{} {
      var i :| i in s.errors;
      assert i in c.selected;
    }
  }

  lemma PluginFilter()
    ensures Routes(Routed([Plugin]), "plugin") && !Routes(Routed([Plugin]), "app")
  {
    assert "app"[0] != "plugin"[0];
    assert !RoutesTo(Plugin, "app") && RoutesTo(Plugin, "plugin") && Plugin in [Plugin];
  }

  /**
   With an application provider registered first, asking for plugins alone leaves the plugin's
   answer no place in the table: every run ends in the index panic.
   */
  lemma RoutedSubsetCrashes(slots: seq<Slot>, seen: int, t: Trace)
    requires |slots| == 2 && slots[0].id == "app" && slots[1].id == "plugin" && slots[1].outcome.Answered?
    requires var c := Plan(slots, Routed([Plugin]), 1, false); Finished(c, After(c, seen, t))
    ensures HasCrashed(After(Plan(slots, Routed([Plugin]), 1, false), seen, t))
  {
    PluginFilter();
    OnlyTheSecondIsRouted(slots, Routed([Plugin]), 1, seen, t);
  }

  lemma OnlyTheSecondIsRouted(slots: seq<Slot>, strategy: Strategy, maxParallelism: nat, seen: int, t: Trace)
    requires |slots| == 2 && slots[1].outcome.Answered? && maxParallelism > 0
    requires !Routes(strategy, slots[0].id) && Routes(strategy, slots[1].id)
    requires var c := Plan(slots, strategy, maxParallelism, false); Finished(c, After(c, seen, t))
    ensures HasCrashed(After(Plan(slots, strategy, maxParallelism, false), seen, t))
  {
    var c := Plan(slots, strategy, maxParallelism, false);
    assert c.selected == [1] by {
      assert Selected(slots, strategy, 0) == [];
      assert Selected(slots, strategy, 1) == [] && Selected(slots, strategy, 2) == [1];
    }
    NeverCancelled(c, seen, t);
    CancelledExactlyWhenSeen(c, seen, t);
    CrashesExactly(c, seen, t);
    assert 1 in c.selected && c.Outcome(1).Answered?;
  }

  lemma {:induction false} NeverCancelled(c: Search, seen: int, t: Trace)
    requires c.Valid() && !c.cancellable
    ensures !Saw(c, seen, t)
  {
    if t.Then? { NeverCancelled(c, seen, t.before); }
  }

  // ---------------------------------------------------------------- progress

  /** Steps a worker still has to take: at most eight a provider. */
  function Left(w: Worker, size: nat): int {
    if w.phase.Stopped? || w.phase.Crashed? then 0 else 8 * (size - w.at) - Taken(w.phase)
  }

  function Taken(phase: Phase): int {
    match phase
    case Polling => 0
    case Entering => 1
    case Marking(_) => 2
    case Asking => 3
    case Leaving => 4
    case Storing => 5
    case _ => 6
  }

  function Remaining(groups: seq<seq<nat>>, workers: seq<Worker>): int
    requires |workers| == |groups|
  {
    if workers == [] then 0
    else
      var last := |workers| - 1;
      Remaining(groups[..last], workers[..last]) + Left(workers[last], |groups[last]|)
  }

  lemma {:induction false} RemainingAfter(groups: seq<seq<nat>>, workers: seq<Worker>, g: nat, w: Worker)
    requires g < |workers| == |groups|
    ensures Remaining(groups, workers[g := w]) + Left(workers[g], |groups[g]|) ==
            Remaining(groups, workers) + Left(w, |groups[g]|)
  {
    var last, updated := |workers| - 1, workers[g := w];
    if g == last {
      assert updated[..last] == workers[..last];
    } else {
      RemainingAfter(groups[..last], workers[..last], g, w);
      assert updated[..last] == workers[..last][g := w];
    }
  }

  lemma {:induction false} RemainingIsNatural(groups: seq<seq<nat>>, workers: seq<Worker>)
    requires |workers| == |groups|
    requires forall g | 0 <= g < |workers| :: Left(workers[g], |groups[g]|) >= 0
    ensures Remaining(groups, workers) >= 0
  {
    if workers != [] { RemainingIsNatural(groups[..|workers| - 1], workers[..|workers| - 1]); }
  }

  /** The steps of a trace that moved a worker. */
  ghost function Moves(c: Search, seen: int, t: Trace): nat
    requires c.Valid()
  {
    if t.Start? then 0
    else Moves(c, seen, t.before) + if Running(c, After(c, seen, t.before), t.worker) then 1 else 0
  }

  lemma StepShortens(c: Search, s: State, g: nat, flag: bool)
    requires Fits(c, s) && Running(c, s, g) && c.groups[g][s.workers[g].at] < |c.slots|
    ensures var next := Step(c, s, g, flag); var size := |c.groups[g]|;
      |next.workers| == |s.workers| && next.workers == s.workers[g := next.workers[g]] &&
      Left(next.workers[g], size) < Left(s.workers[g], size)
  {
  }

  lemma StepUsesUp(c: Search, s: State, g: nat, flag: bool)
    requires Fits(c, s) && Running(c, s, g) && c.groups[g][s.workers[g].at] < |c.slots|
    ensures |Step(c, s, g, flag).workers| == |s.workers|
    ensures Remaining(c.groups, Step(c, s, g, flag).workers) < Remaining(c.groups, s.workers)
  {
    StepShortens(c, s, g, flag);
    RemainingAfter(c.groups, s.workers, g, Step(c, s, g, flag).workers[g]);
  }

  lemma {:induction false} MovesUseUp(c: Search, seen: int, t: Trace)
    requires c.Valid()
    ensures Moves(c, seen, t) + Remaining(c.groups, After(c, seen, t).workers) <=
            Remaining(c.groups, Begin(c, seen).workers)
  {
    if t.Then? {
      MovesUseUp(c, seen, t.before);
      var s := After(c, seen, t.before);
      if Running(c, s, t.worker) {
        StepFits(c, s, t.worker, t.flag);
        StepUsesUp(c, s, t.worker, t.flag);
      }
    }
  }

  lemma LeftIsNatural(w: Worker, size: nat)
    requires w.at <= size && (w.at == size ==> w.phase.Polling?)
    ensures Left(w, size) >= 0
  {
  }

  lemma NothingOwed(c: Search, s: State)
    requires Fits(c, s) && OthersUntouched(c, s)
    ensures Remaining(c.groups, s.workers) >= 0
  {
    forall g | 0 <= g < |s.workers| ensures Left(s.workers[g], |c.groups[g]|) >= 0 {
      LeftIsNatural(s.workers[g], |c.groups[g]|);
    }
    RemainingIsNatural(c.groups, s.workers);
  }

  /** However the workers are scheduled, a search takes a bounded number of steps to finish. */
  lemma SearchesAreBounded(c: Search, seen: int, t: Trace)
    requires c.Valid()
    ensures Moves(c, seen, t) <= Remaining(c.groups, Begin(c, seen).workers)
  {
    MovesUseUp(c, seen, t);
    NothingOwed(c, After(c, seen, t));
  }
}
