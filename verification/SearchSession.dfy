/**
 Query supersession: the generation counter of `SearchSession`, and the searches that
 `spawn_search` starts, as interleaved steps around the counter and the state lock.
 */
module SearchSession {
  import opened Wrappers

  class SearchSession {
    var generation: nat

    constructor ()
      ensures generation == 0
    {
      generation := 0;
    }

    method Begin() returns (id: nat)
      modifies this
      ensures generation == old(generation) + 1 && id == generation && IsCurrent(id)
      ensures forall older: nat | older != id :: !IsCurrent(older)
    {
      generation := generation + 1;
      id := generation;
    }

    predicate IsCurrent(id: nat)
      reads this
    {
      generation == id
    }
  }

  /**
   Where one search thread is: not begun; begun; holding the lock with its results computed; past the
   check under the lock; published but still holding the lock; lock released; its event posted to
   the UI; its event past the check; rendered; dropped as superseded.
   */
  datatype Phase =
    | Spawned
    | Began(id: nat) | Holding(id: nat) | Confirmed(id: nat) | Published(id: nat)
    | Released(id: nat) | Posted(id: nat) | Accepted(id: nat) | Rendered(id: nat) | Dropped(id: nat)
  {
    predicate Locks() { Holding? || Confirmed? || Published? }

    predicate HasPublished() { Published? || Released? || Posted? || Accepted? || Rendered? }

    predicate Over() { Rendered? || Dropped? }
  }

  /** Results are known by the query that computed them; 0 is the state before any query. */
  datatype State = State(
    generation: nat, threads: seq<Phase>, holder: Option<nat>, published: nat, lastQuery: nat, shown: nat)

  const START := State(0, [], None, 0, 0, 0)

  function Become(s: State, t: nat, phase: Phase): State
    requires t < |s.threads|
  {
    s.(threads := s.threads[t := phase])
  }

  /** The next step of thread t, or of its event; a step that must wait for the lock changes nothing. */
  function Step(s: State, t: nat): State
    requires t < |s.threads|
  {
    match s.threads[t]
    case Spawned => Become(s, t, Began(s.generation + 1)).(generation := s.generation + 1)
    case Began(id) => if s.holder.Some? then s else Become(s, t, Holding(id)).(holder := Some(t), lastQuery := id)
    case Holding(id) =>
      if s.generation != id then Become(s, t, Dropped(id)).(holder := None) else Become(s, t, Confirmed(id))
    case Confirmed(id) => Become(s, t, Published(id)).(published := id)
    case Published(id) => Become(s, t, Released(id)).(holder := None)
    case Released(id) => Become(s, t, if s.generation != id then Dropped(id) else Posted(id))
    case Posted(id) => Become(s, t, if s.generation != id then Dropped(id) else Accepted(id))
    case Accepted(id) => if s.holder.Some? then s else Become(s, t, Rendered(id)).(shown := s.published)
    case Rendered(_) => s
    case Dropped(_) => s
  }

  /** A run: keystrokes that spawn a search, and steps of the searches, in any order. */
  datatype Trace = Start | Spawn(before: Trace) | Run(before: Trace, thread: nat)

  ghost function After(r: Trace): State {
    match r
    case Start => START
    case Spawn(before) => var s := After(before); s.(threads := s.threads + [Spawned])
    case Run(before, t) => var s := After(before); if t < |s.threads| then Step(s, t) else s
  }

  // ---------------------------------------------------------------- the invariant

  ghost predicate ThreadAgrees(s: State, t: nat)
    requires t < |s.threads|
  {
    var p := s.threads[t];
    && (s.holder == Some(t) <==> p.Locks())
    && (!p.Spawned? ==> 1 <= p.id <= s.generation)
    && (p.Began? || p.Holding? ==> p.id != s.published)
    && (p.Confirmed? ==> s.published < p.id)
    && (p.HasPublished() ==> p.id <= s.published)
    && (p.Dropped? ==> p.id < s.generation)
    && (p.Rendered? ==> p.id <= s.shown)
  }

  ghost predicate DistinctIds(threads: seq<Phase>) {
    forall t, u | 0 <= t < u < |threads| && !threads[t].Spawned? && !threads[u].Spawned? ::
      threads[t].id != threads[u].id
  }

  ghost predicate NewestExists(s: State) {
    s.generation > 0 ==> exists t :: 0 <= t < |s.threads| && !s.threads[t].Spawned? && s.threads[t].id == s.generation
  }

  ghost predicate Inv(s: State) {
    && s.shown <= s.published <= s.generation && (s.holder.Some? ==> s.holder.value < |s.threads|)
    && DistinctIds(s.threads) && NewestExists(s)
    && forall t | 0 <= t < |s.threads| :: ThreadAgrees(s, t)
  }

  lemma StepKeepsThreads(s: State, t: nat)
    requires Inv(s) && t < |s.threads|
    ensures forall u | 0 <= u < |s.threads| :: ThreadAgrees(Step(s, t), u)
  {
    var next := Step(s, t);
    forall u | 0 <= u < |s.threads| ensures ThreadAgrees(next, u) {
      assert ThreadAgrees(s, u) && ThreadAgrees(s, t);
    }
  }

  lemma StepKeepsIds(s: State, t: nat)
    requires Inv(s) && t < |s.threads|
    ensures DistinctIds(Step(s, t).threads) && NewestExists(Step(s, t))
  {
    var next := Step(s, t);
    assert ThreadAgrees(s, t);
    if s.threads[t].Spawned? {
      assert next.threads[t].id == next.generation;
      forall u | 0 <= u < |s.threads| && u != t && !s.threads[u].Spawned? ensures next.threads[u].id < next.generation {
        assert ThreadAgrees(s, u);
      }
    } else if s.generation > 0 {
      var u :| 0 <= u < |s.threads| && !s.threads[u].Spawned? && s.threads[u].id == s.generation;
      assert next.threads[u].id == next.generation;
    }
  }

  lemma StepKeepsInv(s: State, t: nat)
    requires Inv(s) && t < |s.threads|
    ensures Inv(Step(s, t))
  {
    assert ThreadAgrees(s, t);
    StepKeepsThreads(s, t);
    StepKeepsIds(s, t);
  }

  lemma SpawnKeepsInv(s: State)
    requires Inv(s)
    ensures Inv(s.(threads := s.threads + [Spawned]))
  {
    var next := s.(threads := s.threads + [Spawned]);
    forall t | 0 <= t < |next.threads| ensures ThreadAgrees(next, t) {
      if t < |s.threads| { assert ThreadAgrees(s, t); }
    }
    if s.generation > 0 {
      var t :| 0 <= t < |s.threads| && !s.threads[t].Spawned? && s.threads[t].id == s.generation;
      assert next.threads[t].id == next.generation;
    }
  }

  lemma {:induction false} RunsKeepInv(r: Trace)
    ensures Inv(After(r))
  {
    match r
    case Start =>
    case Spawn(before) =>
      RunsKeepInv(before);
      SpawnKeepsInv(After(before));
    case Run(before, t) =>
      RunsKeepInv(before);
      if t < |After(before).threads| { StepKeepsInv(After(before), t); }
  }

  // ---------------------------------------------------------------- what the user sees

  /** The queries that wrote the results, in order. */
  ghost function Publications(r: Trace): seq<nat> {
    match r
    case Start => []
    case Spawn(before) => Publications(before)
    case Run(before, t) =>
      var s := After(before);
      if t < |s.threads| && s.threads[t].Confirmed? then Publications(before) + [s.threads[t].id]
      else Publications(before)
  }

  ghost predicate StrictlyIncreasing(s: seq<nat>) { forall i, j | 0 <= i < j < |s| :: s[i] < s[j] }

  /** A slow older query never overwrites the results of a newer one. */
  lemma {:induction false} PublicationsIncrease(r: Trace)
    ensures StrictlyIncreasing(Publications(r))
    ensures var p := Publications(r); if p == [] then After(r).published == 0 else After(r).published == p[|p| - 1]
  {
    match r
    case Start =>
    case Spawn(before) => PublicationsIncrease(before);
    case Run(before, t) =>
      PublicationsIncrease(before);
      RunsKeepInv(before);
      var s := After(before);
      if t < |s.threads| { assert ThreadAgrees(s, t); }
  }

  /** A query that renders shows its own results or newer ones. */
  lemma RenderIsNotOlder(r: Trace, t: nat)
    requires t < |After(r).threads| && After(r).threads[t].Accepted? && After(r).holder == None
    ensures After(Run(r, t)).threads[t].Rendered?
    ensures After(Run(r, t)).shown == After(r).published >= After(r).threads[t].id
  {
    RunsKeepInv(r);
    assert ThreadAgrees(After(r), t);
  }

  ghost predicate Prefix(p: Trace, r: Trace) { p == r || (!r.Start? && Prefix(p, r.before)) }

  /** What is on the screen never goes back to an older query, nor do the results behind it. */
  lemma {:induction false} ScreenNeverGoesBack(p: Trace, r: Trace)
    requires Prefix(p, r)
    ensures After(p).shown <= After(r).shown && After(p).published <= After(r).published
  {
    if p != r {
      ScreenNeverGoesBack(p, r.before);
      RunsKeepInv(r.before);
      var s := After(r.before);
      if r.Run? && r.thread < |s.threads| { assert ThreadAgrees(s, r.thread); }
    }
  }

  ghost predicate Quiet(s: State) { forall t | 0 <= t < |s.threads| :: s.threads[t].Over() }

  /** Once every search is over, the newest query is the one on the screen. */
  lemma NewestQueryWins(r: Trace)
    requires Quiet(After(r))
    ensures After(r).shown == After(r).published == After(r).generation
  {
    RunsKeepInv(r);
    var s := After(r);
    if s.generation > 0 {
      var t :| 0 <= t < |s.threads| && !s.threads[t].Spawned? && s.threads[t].id == s.generation;
      assert ThreadAgrees(s, t) && s.threads[t].Over();
    }
  }

  /** The searches do not block each other for ever: until all are over, some step changes the state. */
  lemma SomethingCanMove(r: Trace)
    requires !Quiet(After(r))
    ensures exists t :: 0 <= t < |After(r).threads| && Step(After(r), t) != After(r)
  {
    RunsKeepInv(r);
    var s := After(r);
    if s.holder.Some? {
      var t := s.holder.value;
      assert ThreadAgrees(s, t);
      assert Step(s, t).threads[t] != s.threads[t];
    } else {
      var t :| 0 <= t < |s.threads| && !s.threads[t].Over();
      assert ThreadAgrees(s, t);
      assert Step(s, t).threads[t] != s.threads[t];
    }
  }

  // ---------------------------------------------------------------- the remembered query text

  /** The query of the last search that took the lock, 0 if none has. */
  ghost function LastLock(r: Trace): nat {
    match r
    case Start => 0
    case Spawn(before) => LastLock(before)
    case Run(before, t) =>
      var s := After(before);
      if t < |s.threads| && s.threads[t].Began? && s.holder.None? then s.threads[t].id else LastLock(before)
  }

  /** Did the last search that took the lock find, still holding it, that it had been superseded? */
  ghost predicate LastWasDropped(r: Trace) {
    match r
    case Start => false
    case Spawn(before) => LastWasDropped(before)
    case Run(before, t) =>
      var s := After(before);
      if t >= |s.threads| then LastWasDropped(before)
      else if s.threads[t].Began? && s.holder.None? then false
      else if s.threads[t].Holding? then s.generation != s.threads[t].id
      else LastWasDropped(before)
  }

  lemma {:induction false} RememberedIsLastLock(r: Trace)
    ensures After(r).lastQuery == LastLock(r)
  {
    if !r.Start? { RememberedIsLastLock(r.before); }
  }

  /** The lock's holder is the one remembered; one that was not dropped has published or is about to. */
  ghost predicate RemembersHolder(s: State, dropped: bool) {
    && (s.holder.Some? ==>
          && s.holder.value < |s.threads| && s.threads[s.holder.value].Locks()
          && s.threads[s.holder.value].id == s.lastQuery && !dropped)
    && (dropped ==> s.lastQuery < s.generation)
    && (dropped || s.published == s.lastQuery ||
        (s.holder.Some? && (s.threads[s.holder.value].Holding? || s.threads[s.holder.value].Confirmed?)))
  }

  lemma StepRemembersHolder(s: State, t: nat, dropped: bool)
    requires Inv(s) && t < |s.threads| && RemembersHolder(s, dropped)
    ensures RemembersHolder(Step(s, t),
              if s.threads[t].Began? && s.holder.None? then false
              else if s.threads[t].Holding? then s.generation != s.threads[t].id
              else dropped)
  {
    assert ThreadAgrees(s, t);
  }

  lemma {:induction false} RunsRememberHolder(r: Trace)
    ensures RemembersHolder(After(r), LastWasDropped(r))
  {
    match r
    case Start =>
    case Spawn(before) => RunsRememberHolder(before);
    case Run(before, t) =>
      RunsRememberHolder(before);
      RunsKeepInv(before);
      if t < |After(before).threads| { StepRemembersHolder(After(before), t, LastWasDropped(before)); }
  }

  /**
   Once all searches are over, the remembered query is the one shown exactly when the last search to
   take the lock was the newest, that is, unless that search was dropped under the lock.
   */
  lemma RememberedQueryExactly(r: Trace)
    requires Quiet(After(r))
    ensures After(r).lastQuery == After(r).shown <==> LastLock(r) == After(r).generation
    ensures After(r).lastQuery == After(r).shown <==> !LastWasDropped(r)
  {
    NewestQueryWins(r);
    RememberedIsLastLock(r);
    RunsRememberHolder(r);
  }

  /** A run in which the older of two searches takes the lock last: the text written before the check is stale. */
  lemma RememberedQueryCanBeStale() returns (r: Trace)
    ensures Quiet(After(r)) && After(r).lastQuery < After(r).shown
  {
    var both := Run(Run(Spawn(Spawn(Start)), 0), 1);
    assert After(both) == State(2, [Began(1), Began(2)], None, 0, 0, 0);
    var newest := Run(Run(Run(Run(both, 1), 1), 1), 1);
    assert After(newest) == State(2, [Began(1), Released(2)], None, 2, 2, 0);
    var drawn := Run(Run(Run(newest, 1), 1), 1);
    assert After(drawn) == State(2, [Began(1), Rendered(2)], None, 2, 2, 2);
    r := Run(Run(drawn, 0), 0);
    assert After(r) == State(2, [Dropped(1), Rendered(2)], None, 2, 1, 2);
  }

  // ---------------------------------------------------------------- the steps on the shared counter

  /**
   One step of a search, on the session the searches share: only the first one begins, three ask whether it is
   current.
   */
  method RunStep(session: SearchSession, s: State, t: nat) returns (next: State)
    requires t < |s.threads| && session.generation == s.generation
    modifies session
    ensures next == Step(s, t) && session.generation == next.generation
  {
    match s.threads[t]
    case Spawned =>
      var id := session.Begin();
      next := Become(s, t, Began(id)).(generation := session.generation);
    case Began(id) =>
      next := if s.holder.Some? then s else Become(s, t, Holding(id)).(holder := Some(t), lastQuery := id);
    case Holding(id) =>
      if session.IsCurrent(id) {
        next := Become(s, t, Confirmed(id));
      } else {
        next := Become(s, t, Dropped(id)).(holder := None);
      }
    case Confirmed(id) => next := Become(s, t, Published(id)).(published := id);
    case Published(id) => next := Become(s, t, Released(id)).(holder := None);
    case Released(id) => next := Become(s, t, if session.IsCurrent(id) then Posted(id) else Dropped(id));
    case Posted(id) => next := Become(s, t, if session.IsCurrent(id) then Accepted(id) else Dropped(id));
    case Accepted(id) => next := if s.holder.Some? then s else Become(s, t, Rendered(id)).(shown := s.published);
    case Rendered(_) => next := s;
    case Dropped(_) => next := s;
  }
}
