/**
 The launcher's search with its generation-keyed cache, against the same search without a cache.

 Providers and ranking are functions: of the normalized query and the states the generations
 stand for. Clock readings and failures of the stores are arbitrary.
 */
module SearchCore {
  import opened Domain
  import opened QueryText
  import opened Wrappers
  import opened SearchCache

  const MAX_RESULTS: nat := 50
  const MAX_QUERY: nat := 512
  const MAX_FAVORITES: nat := 256

  // ---------------------------------------------------------------- queries

  /** The first n, or all if there are fewer. */
  function Take<T>(s: seq<T>, n: nat): (r: seq<T>)
    ensures |r| <= n && |r| <= |s| && (|r| == n || |r| == |s|) && forall i | 0 <= i < |r| :: r[i] == s[i]
  {
    if n < |s| then s[..n] else s
  }

  function LowerChar(c: char): (d: char)
    ensures !('A' <= d <= 'Z')
  {
    if 'A' <= c <= 'Z' then c + 32 as char else c
  }

  /** ASCII lower case, an example of the foldings that `Engine` allows. */
  function LowerAscii(s: string): (r: string)
    ensures |r| == |s| && forall i | 0 <= i < |s| :: r[i] == LowerChar(s[i])
  {
    if s == "" then "" else LowerAscii(s[..|s| - 1]) + [LowerChar(s[|s| - 1])]
  }

  ghost predicate IsFolding(fold: string -> string) { forall s :: fold(fold(s)) == fold(s) }

  lemma LowerTwice(s: string, once: string, twice: string)
    requires |s| == |once| == |twice|
    requires forall i | 0 <= i < |s| :: once[i] == LowerChar(s[i]) && twice[i] == LowerChar(once[i])
    ensures twice == once
  {
  }

  lemma AsciiFolds()
    ensures IsFolding(LowerAscii)
  {
    forall s ensures LowerAscii(LowerAscii(s)) == LowerAscii(s) {
      LowerTwice(s, LowerAscii(s), LowerAscii(LowerAscii(s)));
    }
  }

  // ---------------------------------------------------------------- the search without a cache

  datatype Context = Context(foregroundApp: Option<string>, currentFolder: Option<string>)

  datatype Favorites = Favorites(keys: set<string>, pins: set<string>)

  type Usage = map<(string, string), (nat, int)>

  /** What a search result depends on; `index` and `catalog` name the file index and the application catalog. */
  datatype Inputs = Inputs(index: nat, catalog: nat, usage: Usage, favorites: Favorites, context: Option<Context>)

  datatype Parts = Parts(
    lower: string -> string,
    pathIdentity: string -> string,
    answers: (string, nat, nat) -> seq<Command>,
    rank: (seq<Command>, string, Usage, Favorites, Option<Context>) -> seq<Command>)
  {
    function Semantic(c: Option<Context>): Option<Context> {
      match c
      case None => None
      case Some(Context(app, None)) => Some(Context(app, None))
      case Some(Context(app, Some(folder))) => Some(Context(app, Some(pathIdentity(folder))))
    }

    function Normalized(raw: string): string { lower(Squeezed(Take(raw, MAX_QUERY))) }

    function Ranked(query: string, x: Inputs): seq<Command> {
      rank(answers(query, x.index, x.catalog), query, x.usage, x.favorites, x.context)
    }
  }

  /** Lower-casing what is in lower case changes nothing. */
  type Engine = e: Parts | IsFolding(e.lower) witness Parts(s => s, s => s, (q, i, c) => [], (all, q, u, f, x) => all)

  /** Texts with the same words in their first 512 characters are one query, asked of the providers and looked up. */
  lemma SameWordsSameQuery(e: Engine, a: string, b: string)
    requires WordsOf(Take(a, 512)) == WordsOf(Take(b, 512))
    ensures e.Normalized(a) == e.Normalized(b) == e.lower(Joined(WordsOf(Take(a, 512))))
  {
    SqueezedJoinsTheWords(Take(a, 512));
    SqueezedJoinsTheWords(Take(b, 512));
  }

  /** Two contexts count as the same exactly when they name the same application and folders of one identity. */
  lemma SameContextExactly(e: Engine, c: Context, d: Context)
    ensures e.Semantic(Some(c)) == e.Semantic(Some(d)) <==>
      && c.foregroundApp == d.foregroundApp && (c.currentFolder.Some? <==> d.currentFolder.Some?)
      && (c.currentFolder.Some? && d.currentFolder.Some? ==>
            e.pathIdentity(c.currentFolder.value) == e.pathIdentity(d.currentFolder.value))
    ensures e.Semantic(Some(c)) != e.Semantic(None) == None
  {
  }

  /** The limit asked for, but at most 50. */
  function Cap(limit: nat): (n: nat)
    ensures n <= limit && n <= 50 && (n == limit || n == 50)
  {
    if limit < MAX_RESULTS then limit else MAX_RESULTS
  }

  /** The launcher without its cache: `stored` is what the favorites file holds, if there is one. */
  datatype Plain = Plain(inputs: Inputs, stored: Option<Favorites>)

  /**
   `Use` names what the usage table holds afterwards; `Toggle` says whether the store failed to write, and to
   be read back.
   */
  datatype Op =
    | Use(usage: Usage)
    | Toggle(key: string, unwritable: bool, unreadable: bool)
    | Capture(context: Option<Context>)
    | Reindex(index: nat)
    | Recatalog(catalog: nat)
    | Query(raw: string, now: nat, later: nat)

  function Added(f: Favorites, key: string): Favorites {
    if key in f.keys || |f.keys| >= MAX_FAVORITES then f else f.(keys := f.keys + {key})
  }

  function Removed(f: Favorites, key: string): Favorites { Favorites(f.keys - {key}, f.pins - {key}) }

  /** The new state of a toggle and what it reports. */
  function Toggled(p: Plain, key: string, unwritable: bool, unreadable: bool): (Plain, Option<bool>) {
    if p.stored.None? || unwritable then (p, None)
    else
      var was := key in p.inputs.favorites.keys;
      var stored := if was then Removed(p.stored.value, key) else Added(p.stored.value, key);
      (Plain(p.inputs.(favorites := if unreadable then p.inputs.favorites else stored), Some(stored)), Some(!was))
  }

  function Apply(e: Engine, p: Plain, op: Op): Plain {
    match op
    case Use(usage) => p.(inputs := p.inputs.(usage := usage))
    case Toggle(key, unwritable, unreadable) => Toggled(p, key, unwritable, unreadable).0
    case Capture(context) => p.(inputs := p.inputs.(context := e.Semantic(context)))
    case Reindex(index) => p.(inputs := p.inputs.(index := index))
    case Recatalog(catalog) => p.(inputs := p.inputs.(catalog := catalog))
    case Query(_, _, _) => p
  }

  /** A fresh fan-out and ranking. */
  function Fresh(e: Engine, p: Plain, raw: string, limit: nat): seq<Command> {
    Take(e.Ranked(e.Normalized(raw), p.inputs), Cap(limit))
  }

  function Reached(e: Engine, p: Plain, ops: seq<Op>): Plain {
    if ops == [] then p else Apply(e, Reached(e, p, ops[..|ops| - 1]), ops[|ops| - 1])
  }

  /** The answers to the queries of a run, each computed afresh. */
  function Uncached(e: Engine, p: Plain, ops: seq<Op>, limit: nat): seq<seq<Command>> {
    if ops == [] then []
    else
      var earlier, last := ops[..|ops| - 1], ops[|ops| - 1];
      Uncached(e, p, earlier, limit) + if last.Query? then [Fresh(e, Reached(e, p, earlier), last.raw, limit)] else []
  }

  // ---------------------------------------------------------------- the search with its cache

  /** Everything but the application generation, which can be set, only ever grows. */
  ghost predicate NoNewer(a: Environment, now: Environment) {
    a.file <= now.file && a.userState <= now.userState && a.context <= now.context && a.ranking <= now.ranking
  }

  /** The present environment, or one that bumping the application generation leads to. */
  ghost predicate Ahead(a: Environment, now: Environment) {
    a == now.(application := a.application) && now.application <= a.application
  }

  /**
   Among the entries that can still be reached, all are of the present and what a fresh search with one of
   `limits` returns.
   */
  ghost predicate Coherent(e: Engine, entries: map<Key, Entry>, now: Environment, x: Inputs, limits: set<nat>) {
    forall k | k in entries ::
      && NoNewer(k.environment, now)
      && (Ahead(k.environment, now) ==>
            k.environment == now && exists n | n in limits :: entries[k].results == Take(e.Ranked(k.query, x), n))
  }

  ghost predicate NothingAhead(entries: map<Key, Entry>, now: Environment) {
    forall k | k in entries :: !Ahead(k.environment, now)
  }

  class Core {
    const engine: Engine
    const cache: SearchCache
    var inputs: Inputs
    var stored: Option<Favorites>
    var lastContext: Option<Context>
    var environment: Environment

    ghost predicate Valid(limits: set<nat>)
      reads this, cache
    {
      && cache.Valid() && lastContext == inputs.context
      && Coherent(engine, cache.entries, environment, inputs, limits)
    }

    ghost function State(): Plain
      reads this
    {
      Plain(inputs, stored)
    }

    constructor (engine: Engine, index: nat, catalog: nat, usage: Usage, stored: Option<Favorites>)
      ensures (forall limits :: Valid(limits)) && fresh(cache) && this.engine == engine
      ensures var favorites := if stored.Some? then stored.value else Favorites({}, {});
        State() == Plain(Inputs(index, catalog, usage, favorites, None), stored)
    {
      this.engine := engine;
      this.cache := new SearchCache(256, 16 * 1024 * 1024);
      this.inputs := Inputs(index, catalog, usage, if stored.Some? then stored.value else Favorites({}, {}), None);
      this.stored := stored;
      this.lastContext := None;
      this.environment := Environment(0, 0, 0, 0, 0);
    }

    method RecordUse(usage: Usage, ghost limits: set<nat>)
      requires Valid(limits)
      modifies this
      ensures Valid(limits) && State() == Apply(engine, old(State()), Use(usage))
      ensures environment == old(environment).(userState := old(environment).userState + 1)
    {
      environment := environment.(userState := environment.userState + 1);
      inputs := inputs.(usage := usage);
    }

    method ToggleFavorite(key: string, unwritable: bool, unreadable: bool, ghost limits: set<nat>)
      returns (r: Option<bool>)
      requires Valid(limits)
      modifies this
      ensures Valid(limits) && (State(), r) == Toggled(old(State()), key, unwritable, unreadable)
      ensures environment == old(environment).(userState := old(environment).userState + if r.Some? then 1 else 0)
    {
      if stored.None? { return None; }
      var snapshot := inputs.favorites;
      if unwritable { return None; }
      if key in snapshot.keys {
        stored, r := Some(Removed(stored.value, key)), Some(false);
      } else {
        stored, r := Some(Added(stored.value, key)), Some(true);
      }
      environment := environment.(userState := environment.userState + 1);
      if !unreadable { inputs := inputs.(favorites := stored.value); }
    }

    method SetSearchContext(context: Option<Context>, ghost limits: set<nat>)
      requires Valid(limits)
      modifies this
      ensures Valid(limits) && State() == Apply(engine, old(State()), Capture(context))
      ensures environment == old(environment).(context := old(environment).context +
                if engine.Semantic(context) != old(inputs.context) then 1 else 0)
    {
      var semantic := engine.Semantic(context);
      if lastContext != semantic {
        lastContext := semantic;
        environment := environment.(context := environment.context + 1);
      }
      inputs := inputs.(context := semantic);
    }

    method ChangeFiles(index: nat, ghost limits: set<nat>)
      requires Valid(limits)
      modifies this
      ensures Valid(limits) && State() == Apply(engine, old(State()), Reindex(index))
      ensures environment == old(environment).(file := old(environment).file + 1)
    {
      environment := environment.(file := environment.file + 1);
      inputs := inputs.(index := index);
    }

    method BumpApplicationGeneration(catalog: nat, ghost limits: set<nat>)
      modifies this
      ensures (old(Valid(limits)) ==> Valid(limits)) && State() == Apply(engine, old(State()), Recatalog(catalog))
      ensures environment == old(environment).(application := old(environment).application + 1)
    {
      environment := environment.(application := environment.application + 1);
      inputs := inputs.(catalog := catalog);
    }

    /**
     Adopting a number is as good as a bump if no entry has been stored under it, or a larger one, since
     anything else moved.
     */
    method SetApplicationGeneration(gen: nat, catalog: nat, ghost limits: set<nat>)
      modifies this
      ensures State() == Apply(engine, old(State()), Recatalog(catalog))
      ensures environment == old(environment).(application := gen)
      ensures old(Valid(limits)) && NothingAhead(cache.entries, environment) ==> Valid(limits)
      ensures old(Valid(limits)) && gen > old(environment).application ==> Valid(limits)
    {
      environment := environment.(application := gen);
      inputs := inputs.(catalog := catalog);
    }

    ghost function KeyFor(raw: string): Key
      reads this
    {
      Key(engine.Normalized(raw), environment)
    }

    /** A live entry is returned as it is; otherwise the result is fresh, and kept if it is not too large. */
    method Search(raw: string, limit: nat, now: nat, later: nat, ghost limits: set<nat>)
      returns (commands: seq<Command>)
      requires cache.Valid()
      modifies cache
      ensures cache.Valid()
      ensures LiveAt(old(cache.entries), KeyFor(raw), now) ==>
        commands == old(cache.entries)[KeyFor(raw)].results && cache.entries == old(cache.entries)
      ensures !LiveAt(old(cache.entries), KeyFor(raw), now) ==>
        commands == Fresh(engine, State(), raw, limit) && Kept(commands, KeyFor(raw), later)
      ensures old(Valid(limits)) && Cap(limit) in limits ==>
        Valid(limits) && exists n | n in limits :: commands == Take(engine.Ranked(engine.Normalized(raw), inputs), n)
    {
      var normalized := engine.Normalized(raw);
      var key := Key(engine.lower(normalized), environment);
      var cached := cache.Get(key, now);
      if cached.Some? { return cached.value; }
      commands := AskAndStore(key, limit, later, limits);
    }

    ghost predicate Kept(commands: seq<Command>, key: Key, now: nat)
      reads this, cache
    {
      EstimateBytes(commands) <= cache.maxBytes / 4 ==>
        && key in cache.entries
        && cache.entries[key] == Entry(commands, now, if commands == [] then Negative else Complete)
    }

    /** The miss: ask the providers, rank, cut, and offer the result to the cache. */
    method AskAndStore(key: Key, limit: nat, now: nat, ghost limits: set<nat>) returns (commands: seq<Command>)
      requires cache.Valid() && key.environment == environment
      modifies cache
      ensures cache.Valid() && commands == Take(engine.Ranked(key.query, inputs), Cap(limit))
      ensures Kept(commands, key, now)
      ensures old(Valid(limits)) && Cap(limit) in limits ==> Valid(limits)
    {
      ghost var entries, order := cache.entries, cache.order;
      var all := engine.answers(key.query, inputs.index, inputs.catalog);
      commands := Take(engine.rank(all, key.query, inputs.usage, inputs.favorites, inputs.context), Cap(limit));
      var ttl := if commands == [] then Negative else Complete;
      var ok := cache.Put(key, commands, ttl, now);
      if ok {
        var e := Entry(commands, now, ttl);
        InsertionKeeps(entries, order, key, e, cache.entries, cache.order, cache.maxEntries, cache.maxBytes);
        if Coherent(engine, entries, environment, inputs, limits) && Cap(limit) in limits {
          StoringIsCoherent(engine, entries, cache.entries, key, e, environment, inputs, limits, Cap(limit));
        }
      }
    }
  }

  ghost predicate LiveAt(entries: map<Key, Entry>, key: Key, now: nat) { key in entries && !entries[key].Expired(now) }

  lemma StoringIsCoherent(
    e: Engine, before: map<Key, Entry>, after: map<Key, Entry>, key: Key, entry: Entry,
    now: Environment, x: Inputs, limits: set<nat>, n: nat)
    requires Coherent(e, before, now, x, limits) && key in after && after[key] == entry
    requires key.environment == now && n in limits && entry.results == Take(e.Ranked(key.query, x), n)
    requires forall k | k in after && k != key :: k in before && after[k] == before[k]
    ensures Coherent(e, after, now, x, limits)
  {
  }

  // ---------------------------------------------------------------- whole runs

  /** One operation of a run; only a query answers. */
  method Perform(core: Core, op: Op, limit: nat) returns (answer: Option<seq<Command>>)
    requires core.Valid({Cap(limit)})
    modifies core, core.cache
    ensures core.Valid({Cap(limit)}) && core.State() == Apply(core.engine, old(core.State()), op)
    ensures answer == if op.Query? then Some(Fresh(core.engine, old(core.State()), op.raw, limit)) else None
  {
    answer := None;
    match op {
      case Use(usage) => core.RecordUse(usage, {Cap(limit)});
      case Toggle(key, unwritable, unreadable) =>
        var r := core.ToggleFavorite(key, unwritable, unreadable, {Cap(limit)});
      case Capture(context) => core.SetSearchContext(context, {Cap(limit)});
      case Reindex(index) => core.ChangeFiles(index, {Cap(limit)});
      case Recatalog(catalog) => core.BumpApplicationGeneration(catalog, {Cap(limit)});
      case Query(raw, now, later) =>
        var commands := core.Search(raw, limit, now, later, {Cap(limit)});
        answer := Some(commands);
    }
  }

  /**
   At one limit, the cache never shows: every answer of every run is the fresh one, whatever it evicts or lets
   expire.
   */
  method RunAll(core: Core, ops: seq<Op>, limit: nat) returns (answers: seq<seq<Command>>)
    requires core.Valid({Cap(limit)})
    modifies core, core.cache
    ensures core.Valid({Cap(limit)}) && core.State() == Reached(core.engine, old(core.State()), ops)
    ensures answers == Uncached(core.engine, old(core.State()), ops, limit)
  {
    answers := [];
    ghost var start := core.State();
    for i := 0 to |ops|
      invariant core.Valid({Cap(limit)}) && core.State() == Reached(core.engine, start, ops[..i])
      invariant answers == Uncached(core.engine, start, ops[..i], limit)
    {
      assert ops[..i + 1][..i] == ops[..i];
      var answer := Perform(core, ops[i], limit);
      if answer.Some? { answers := answers + [answer.value]; }
    }
    assert ops[..|ops|] == ops;
  }

  // ---------------------------------------------------------------- where it stops

  /** The key leaves the limit out: an entry stored at one limit serves another exactly when both cut the same. */
  lemma LimitsAgreeExactly<T>(ranked: seq<T>, m: nat, n: nat)
    ensures Take(ranked, m) == Take(ranked, n) <==> m == n || (|ranked| <= m && |ranked| <= n)
  {
  }

  /** A second search at another limit, before the entry expires, gets the first one's answer. */
  method SearchTwice(core: Core, raw: string, first: nat, second: nat, now: nat)
    returns (a: seq<Command>, b: seq<Command>)
    requires core.cache.Valid() && core.KeyFor(raw) !in core.cache.entries
    requires EstimateBytes(Fresh(core.engine, core.State(), raw, first)) <= core.cache.maxBytes / 4
    modifies core.cache
    ensures a == b == Fresh(core.engine, core.State(), raw, first)
  {
    a := core.Search(raw, first, now, now, {});
    b := core.Search(raw, second, now, now, {});
  }

  /**
   The guard of `SetApplicationGeneration` is needed: an entry that is ahead is served again, whatever the
   catalog is by then.
   */
  method SearchOnceReached(core: Core, gen: nat, catalog: nat, key: Key, raw: string, limit: nat, now: nat)
    returns (commands: seq<Command>)
    requires core.cache.Valid() && LiveAt(core.cache.entries, key, now) && key.query == core.engine.Normalized(raw)
    requires Ahead(key.environment, core.environment.(application := gen))
    modifies core, core.cache
    ensures core.State() == Apply(core.engine, old(core.State()), Recatalog(catalog))
    ensures commands == old(core.cache.entries)[key].results
  {
    core.SetApplicationGeneration(gen, catalog, {});
    while core.environment.application < key.environment.application
      invariant Ahead(key.environment, core.environment) && unchanged(core.cache)
      invariant core.State() == Apply(core.engine, old(core.State()), Recatalog(catalog))
      decreases key.environment.application - core.environment.application
    {
      core.BumpApplicationGeneration(catalog, {});
    }
    commands := core.Search(raw, limit, now, now, {});
  }

  /**
   After the application generation is set back to an earlier number, answers of the catalog it then stood for
   return.
   */
  method SearchAfterRewind(core: Core, raw: string, limit: nat, now: nat, between: nat, latest: nat)
    returns (b: seq<Command>)
    requires core.cache.Valid() && core.KeyFor(raw) !in core.cache.entries
    requires EstimateBytes(Fresh(core.engine, core.State(), raw, limit)) <= core.cache.maxBytes / 4
    modifies core, core.cache
    ensures core.inputs.catalog == latest && b == Fresh(core.engine, old(core.State()), raw, limit)
  {
    var gen := core.environment.application;
    var a := core.Search(raw, limit, now, now, {});
    core.SetApplicationGeneration(gen + 1, between, {});
    core.SetApplicationGeneration(gen, latest, {});
    b := core.Search(raw, limit, now, now, {});
  }

  /**
   When reads and writes succeed, a toggle tells the truth exactly when there was something to remove or room
   to add.
   */
  lemma ToggleTellsTheTruth(p: Plain, key: string)
    requires p.stored == Some(p.inputs.favorites)
    ensures var (after, r) := Toggled(p, key, false, false);
      after.stored == Some(after.inputs.favorites) && r.Some? &&
      ((r.value <==> key in after.inputs.favorites.keys) <==>
        key in p.inputs.favorites.keys || |p.inputs.favorites.keys| < MAX_FAVORITES)
  {
  }

  /** Toggling twice with room to add restores the favorites and drops the pin of the key. */
  lemma ToggleTwice(p: Plain, key: string)
    requires p.stored == Some(p.inputs.favorites) && p.inputs.favorites.pins <= p.inputs.favorites.keys
    requires |p.inputs.favorites.keys| <= MAX_FAVORITES
    requires key in p.inputs.favorites.keys || |p.inputs.favorites.keys| < MAX_FAVORITES
    ensures var after := Toggled(Toggled(p, key, false, false).0, key, false, false).0;
      after.inputs.favorites == p.inputs.favorites.(pins := p.inputs.favorites.pins - {key})
  {
    var keys := p.inputs.favorites.keys;
    if key in keys {
      assert |keys - {key}| < |keys|;
      assert keys - {key} + {key} == keys;
    } else {
      assert keys + {key} - {key} == keys;
    }
  }
}
