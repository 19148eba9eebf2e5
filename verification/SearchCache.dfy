/**
 The query cache: ranked results by query and generations, within budgets on entries and bytes.
 Eviction is in insertion order; reading an entry does not protect it.
 */
module SearchCache {
  import opened Domain
  import opened Text
  import opened Wrappers

  datatype Environment = Environment(file: nat, application: nat, userState: nat, context: nat, ranking: nat)

  datatype Key = Key(query: string, environment: Environment)

  datatype Ttl = Complete | Negative {
    function Milliseconds(): nat { if Complete? then 60_000 else 5_000 }
  }

  datatype Entry = Entry(results: seq<Command>, insertedAt: nat, ttl: Ttl) {
    /** A clock that went backwards counts as no time passed. */
    predicate Expired(now: nat) { now - insertedAt >= ttl.Milliseconds() }

    function Bytes(): nat { EstimateBytes(results) }
  }

  /** 24 bytes for the vector and 64 for each command besides its texts. */
  function EstimateBytes(results: seq<Command>): nat {
    if results == [] then 24
    else
      var last := results[|results| - 1];
      var subtitle := if last.subtitle.Some? then ByteLength(last.subtitle.value) else 0;
      EstimateBytes(results[..|results| - 1]) + ByteLength(last.title) + subtitle + 64
  }

  /** An entry can be read for a minute after it was stored, an empty result for five seconds. */
  lemma LifetimesExactly(e: Entry, now: nat)
    ensures e.Expired(now) <==> e.insertedAt + (if e.ttl.Negative? then 5_000 else 60_000) <= now
  {
  }

  /** Results are charged one by one, on top of an allowance of 24 bytes for any answer. */
  lemma {:induction false} ChargedOneByOne(a: seq<Command>, b: seq<Command>)
    ensures EstimateBytes(a + b) == EstimateBytes(a) + EstimateBytes(b) - 24
    ensures forall c: Command ::
      EstimateBytes([c]) == 88 + ByteLength(c.title) + if c.subtitle.Some? then ByteLength(c.subtitle.value) else 0
    decreases |b|
  {
    assert forall c: Command :: [c][..0] == [];
    if b == [] {
      assert a + b == a;
    } else {
      ChargedOneByOne(a, b[..|b| - 1]);
      assert (a + b)[..|a + b| - 1] == a + b[..|b| - 1];
    }
  }

  ghost predicate Distinct(order: seq<Key>) { forall i, j | 0 <= i < j < |order| :: order[i] != order[j] }

  ghost predicate Lists(entries: map<Key, Entry>, order: seq<Key>) {
    Distinct(order) && forall k :: k in order <==> k in entries
  }

  function Size(entries: map<Key, Entry>, k: Key): nat { if k in entries then entries[k].Bytes() else 0 }

  function Total(entries: map<Key, Entry>, order: seq<Key>): nat {
    if order == [] then 0 else Size(entries, order[0]) + Total(entries, order[1..])
  }

  function Without(order: seq<Key>, key: Key): seq<Key> {
    if order == [] then []
    else if order[0] == key then Without(order[1..], key)
    else [order[0]] + Without(order[1..], key)
  }

  lemma {:induction false} WithoutHolds(order: seq<Key>, key: Key)
    requires Distinct(order)
    ensures var r := Without(order, key);
      Distinct(r) && |r| <= |order| && forall k :: k in r <==> k in order && k != key
  {
    if order != [] {
      var rest := order[1..];
      WithoutHolds(rest, key);
      assert order == [order[0]] + rest;
      var r := Without(rest, key);
      if order[0] != key {
        assert order[0] !in rest;
        forall i, j | 0 <= i < j < |r| + 1 ensures ([order[0]] + r)[i] != ([order[0]] + r)[j] {
          if i == 0 { assert r[j - 1] in r; }
        }
      }
    }
  }

  /** The others keep their order. */
  lemma {:induction false} WithoutClosesTheGap(a: seq<Key>, key: Key, b: seq<Key>)
    requires key !in a && key !in b
    ensures Without(a + [key] + b, key) == a + b
  {
    var s := a + [key] + b;
    if a == [] {
      assert s[1..] == b;
      NothingToRemove(b, key);
    } else {
      WithoutClosesTheGap(a[1..], key, b);
      assert s[1..] == a[1..] + [key] + b && s[0] == a[0];
      assert a + b == [a[0]] + (a[1..] + b);
    }
  }

  /** Entries that agree on the keys in `order` have the same total. */
  lemma {:induction false} TotalDependsOnListed(before: map<Key, Entry>, after: map<Key, Entry>, order: seq<Key>)
    requires forall k | k in order :: Size(before, k) == Size(after, k)
    ensures Total(before, order) == Total(after, order)
  {
    if order != [] {
      forall k | k in order[1..] ensures Size(before, k) == Size(after, k) { assert k in order; }
      TotalDependsOnListed(before, after, order[1..]);
    }
  }

  lemma {:induction false} TotalWithout(entries: map<Key, Entry>, order: seq<Key>, key: Key)
    requires Distinct(order)
    ensures Total(entries, order) ==
            Total(entries, Without(order, key)) + if key in order then Size(entries, key) else 0
  {
    if order != [] {
      var rest := order[1..];
      TotalWithout(entries, rest, key);
      assert order == [order[0]] + rest;
      if order[0] == key { assert key !in rest; }
      else { assert ([order[0]] + Without(rest, key))[1..] == Without(rest, key); }
    }
  }

  lemma {:induction false} TotalAppended(entries: map<Key, Entry>, order: seq<Key>, key: Key)
    ensures Total(entries, order + [key]) == Total(entries, order) + Size(entries, key)
  {
    if order == [] {
      assert order + [key] == [key];
    } else {
      TotalAppended(entries, order[1..], key);
      assert (order + [key])[1..] == order[1..] + [key];
    }
  }

  /** How many of the oldest entries must go before `bytes` more fit. */
  function Evicted(entries: map<Key, Entry>, order: seq<Key>, bytes: nat, maxEntries: nat, maxBytes: nat): (n: nat)
    ensures n <= |order|
  {
    if order == [] || (Total(entries, order) + bytes <= maxBytes && |order| < maxEntries) then 0
    else 1 + Evicted(entries, order[1..], bytes, maxEntries, maxBytes)
  }

  /** Eviction stops at the first moment there is room. */
  lemma {:induction false} EvictionIsMinimal(entries: map<Key, Entry>, order: seq<Key>, bytes: nat, maxEntries: nat,
      maxBytes: nat, n: nat)
    requires n <= |order| && Total(entries, order[n..]) + bytes <= maxBytes && |order| - n < maxEntries
    ensures Evicted(entries, order, bytes, maxEntries, maxBytes) <= n
  {
    if n > 0 {
      assert order[1..][n - 1..] == order[n..];
      EvictionIsMinimal(entries, order[1..], bytes, maxEntries, maxBytes, n - 1);
    } else {
      assert order[0..] == order;
    }
  }

  function Restrict(entries: map<Key, Entry>, order: seq<Key>): map<Key, Entry> {
    map k | k in entries && k in order :: entries[k]
  }

  class SearchCache {
    const maxEntries: nat
    const maxBytes: nat
    var entries: map<Key, Entry>
    var order: seq<Key>
    var usedBytes: nat
    var hits: nat
    var misses: nat
    var staleRejections: nat
    var evictions: nat

    /** The budgets hold, `order` lists the entries, and the byte count is theirs. */
    ghost predicate Valid()
      reads this
    {
      && Lists(entries, order) && usedBytes == Total(entries, order)
      && usedBytes <= maxBytes && |order| <= maxEntries && maxEntries > 0 && maxBytes > 0
    }

    constructor (maxEntries: nat, maxBytes: nat)
      ensures Valid() && entries == map[]
      ensures this.maxEntries == (if maxEntries == 0 then 1 else maxEntries)
      ensures this.maxBytes == (if maxBytes == 0 then 1 else maxBytes)
    {
      this.maxEntries := if maxEntries == 0 then 1 else maxEntries;
      this.maxBytes := if maxBytes == 0 then 1 else maxBytes;
      entries, order, usedBytes := map[], [], 0;
      hits, misses, staleRejections, evictions := 0, 0, 0, 0;
    }

    method Remove(key: Key)
      requires Valid()
      modifies `entries, `order, `usedBytes
      ensures Valid() && entries == old(entries) - {key} && order == Without(old(order), key)
    {
      WithoutHolds(order, key);
      TotalWithout(entries, order, key);
      TotalDependsOnListed(entries, entries - {key}, Without(order, key));
      if key in entries {
        usedBytes := usedBytes - entries[key].Bytes();
        entries := entries - {key};
        order := Without(order, key);
      } else {
        NothingToRemove(order, key);
      }
    }

    method Get(key: Key, now: nat) returns (r: Option<seq<Command>>)
      requires Valid()
      modifies this
      ensures Valid()
      ensures r == if key in old(entries) && !old(entries)[key].Expired(now)
                   then Some(old(entries)[key].results) else None
      ensures r.None? ==> entries == old(entries) - {key} && order == Without(old(order), key)
      ensures r.Some? ==> entries == old(entries) && order == old(order)
      ensures hits == old(hits) + (if r.Some? then 1 else 0) && evictions == old(evictions)
      ensures staleRejections == old(staleRejections) + (if r.None? && key in old(entries) then 1 else 0)
      ensures misses == old(misses) + (if key in old(entries) then 0 else 1)
    {
      if key in entries && entries[key].Expired(now) {
        Remove(key);
        staleRejections := staleRejections + 1;
        return None;
      }
      if key in entries {
        hits := hits + 1;
        return Some(entries[key].results);
      }
      misses := misses + 1;
      NothingToRemove(order, key);
      return None;
    }

    method EvictOldest()
      requires Valid() && order != []
      modifies `entries, `order, `usedBytes, `evictions
      ensures Valid() && order == old(order)[1..] && entries == Restrict(old(entries), order)
      ensures evictions == old(evictions) + 1
    {
      OldestOut(entries, order);
      var oldest := order[0];
      usedBytes := usedBytes - entries[oldest].Bytes();
      entries := entries - {oldest};
      evictions := evictions + 1;
      order := order[1..];
    }

    /** Drops the oldest entries until `bytes` more fit, and no more than needed. */
    method MakeRoom(bytes: nat)
      requires Valid() && bytes <= maxBytes
      modifies `entries, `order, `usedBytes, `evictions
      ensures Valid() && usedBytes + bytes <= maxBytes && |order| < maxEntries
      ensures var n := Evicted(old(entries), old(order), bytes, maxEntries, maxBytes);
        Dropped(old(entries), old(order), entries, order, n) && evictions == old(evictions) + n
    {
      ghost var entries0, order0 := entries, order;
      ghost var n: nat := 0;
      CountsAgree(entries, order);
      NothingDropped(entries, order);
      while usedBytes + bytes > maxBytes || |entries| >= maxEntries
        invariant Valid() && |entries| == |order| && evictions == old(evictions) + n
        invariant Evicting(entries0, order0, entries, order, n, bytes, maxEntries, maxBytes)
        decreases |order|
      {
        if order == [] { break; }
        OneMoreDropped(entries0, order0, entries, order, n, bytes, maxEntries, maxBytes);
        EvictOldest();
        n := n + 1;
        CountsAgree(entries, order);
      }
      EnoughDropped(entries0, order0, entries, order, n, bytes, maxEntries, maxBytes);
    }

    /**
     Too large an entry is refused; otherwise the entry is last in line and as few as possible of the oldest
     are gone.
     */
    method Put(key: Key, results: seq<Command>, ttl: Ttl, now: nat) returns (ok: bool)
      requires Valid()
      modifies this
      ensures Valid() && (ok <==> EstimateBytes(results) <= maxBytes / 4)
      ensures !ok ==> entries == old(entries) && order == old(order) && evictions == old(evictions)
      ensures ok ==>
        Inserted(old(entries), old(order), key, Entry(results, now, ttl), entries, order, maxEntries, maxBytes)
    {
      var bytes := EstimateBytes(results);
      if bytes > maxBytes / 4 { return false; }
      Remove(key);
      MakeRoom(bytes);
      Insert(key, Entry(results, now, ttl));
      return true;
    }

    method Insert(key: Key, e: Entry)
      requires Valid() && key !in entries && usedBytes + e.Bytes() <= maxBytes && |order| < maxEntries
      modifies `entries, `order, `usedBytes
      ensures Valid() && entries == old(entries)[key := e] && order == old(order) + [key]
    {
      LastInLine(entries, order, key, e);
      usedBytes := usedBytes + e.Bytes();
      order := order + [key];
      entries := entries[key := e];
    }
  }

  /** The first n of `order0` are gone, nothing else has changed. */
  ghost predicate Dropped(entries0: map<Key, Entry>, order0: seq<Key>, entries: map<Key, Entry>, order: seq<Key>,
      n: nat)
  {
    n <= |order0| && order == order0[n..] && entries == Restrict(entries0, order)
  }

  /** The entry replaces any of the same key and goes last; before it, just enough of the oldest were dropped. */
  ghost predicate Inserted(
    entries0: map<Key, Entry>, order0: seq<Key>, key: Key, e: Entry, entries: map<Key, Entry>, order: seq<Key>,
    maxEntries: nat, maxBytes: nat)
  {
    var kept, rest := entries0 - {key}, Without(order0, key);
    exists entries1, order1 ::
      Dropped(kept, rest, entries1, order1, Evicted(kept, rest, e.Bytes(), maxEntries, maxBytes)) &&
      entries == entries1[key := e] && order == order1 + [key]
  }

  /** Insertion neither invents nor alters an entry. */
  lemma InsertionKeeps(
    entries0: map<Key, Entry>, order0: seq<Key>, key: Key, e: Entry, entries: map<Key, Entry>, order: seq<Key>,
    maxEntries: nat, maxBytes: nat)
    requires Inserted(entries0, order0, key, e, entries, order, maxEntries, maxBytes)
    ensures key in entries && entries[key] == e
    ensures forall k | k in entries && k != key :: k in entries0 && entries[k] == entries0[k]
  {
  }

  lemma NothingDropped(entries: map<Key, Entry>, order: seq<Key>)
    requires Lists(entries, order)
    ensures Dropped(entries, order, entries, order, 0)
  {
  }

  /** Half-way: n are gone, and as many more will go as `Evicted` says of what is left. */
  ghost predicate Evicting(
    entries0: map<Key, Entry>, order0: seq<Key>, entries: map<Key, Entry>, order: seq<Key>, n: nat,
    bytes: nat, maxEntries: nat, maxBytes: nat)
  {
    && Dropped(entries0, order0, entries, order, n)
    && n + Evicted(entries0, order, bytes, maxEntries, maxBytes) ==
       Evicted(entries0, order0, bytes, maxEntries, maxBytes)
  }

  lemma TotalRestricted(entries: map<Key, Entry>, order: seq<Key>)
    ensures Total(Restrict(entries, order), order) == Total(entries, order)
  {
    TotalDependsOnListed(Restrict(entries, order), entries, order);
  }

  lemma OneMoreDropped(
    entries0: map<Key, Entry>, order0: seq<Key>, entries: map<Key, Entry>, order: seq<Key>, n: nat,
    bytes: nat, maxEntries: nat, maxBytes: nat)
    requires Evicting(entries0, order0, entries, order, n, bytes, maxEntries, maxBytes) && order != []
    requires Total(entries, order) + bytes > maxBytes || |order| >= maxEntries
    ensures Evicting(entries0, order0, Restrict(entries, order[1..]), order[1..], n + 1, bytes, maxEntries, maxBytes)
  {
    TotalRestricted(entries0, order);
    assert order0[n..][1..] == order0[n + 1..];
    RestrictAgain(entries0, order, order[1..]);
  }

  lemma EnoughDropped(
    entries0: map<Key, Entry>, order0: seq<Key>, entries: map<Key, Entry>, order: seq<Key>, n: nat,
    bytes: nat, maxEntries: nat, maxBytes: nat)
    requires Evicting(entries0, order0, entries, order, n, bytes, maxEntries, maxBytes)
    requires order == [] || (Total(entries, order) + bytes <= maxBytes && |order| < maxEntries)
    ensures n == Evicted(entries0, order0, bytes, maxEntries, maxBytes)
  {
    TotalRestricted(entries0, order);
  }

  lemma FirstIsElsewhereAbsent(order: seq<Key>)
    requires Distinct(order) && order != []
    ensures order[0] !in order[1..] && Distinct(order[1..])
    ensures forall k :: k in order <==> k == order[0] || k in order[1..]
  {
    assert order == [order[0]] + order[1..];
  }

  lemma OldestOut(entries: map<Key, Entry>, order: seq<Key>)
    requires Lists(entries, order) && order != []
    ensures order[0] in entries && Lists(entries - {order[0]}, order[1..])
    ensures Total(entries, order) == entries[order[0]].Bytes() + Total(entries - {order[0]}, order[1..])
    ensures entries - {order[0]} == Restrict(entries, order[1..])
  {
    FirstIsElsewhereAbsent(order);
    var oldest, rest := order[0], order[1..];
    assert oldest in order;
    assert entries - {oldest} == Restrict(entries, rest);
    TotalDependsOnListed(entries, entries - {oldest}, rest);
  }

  lemma LastInLine(entries: map<Key, Entry>, order: seq<Key>, key: Key, e: Entry)
    requires Lists(entries, order) && key !in entries
    ensures Lists(entries[key := e], order + [key])
    ensures Total(entries[key := e], order + [key]) == Total(entries, order) + e.Bytes()
  {
    TotalDependsOnListed(entries, entries[key := e], order);
    TotalAppended(entries[key := e], order, key);
    assert forall k :: k in order + [key] <==> k in order || k == key;
  }

  lemma RestrictAgain(entries: map<Key, Entry>, longer: seq<Key>, order: seq<Key>)
    requires longer != [] && order == longer[1..]
    ensures Restrict(Restrict(entries, longer), order) == Restrict(entries, order)
  {
    assert longer == [longer[0]] + order;
  }

  lemma {:induction false} CountsAgree(entries: map<Key, Entry>, order: seq<Key>)
    requires Lists(entries, order)
    ensures |entries| == |order|
    decreases |order|
  {
    if order == [] {
      assert entries == map[];
    } else {
      OldestOut(entries, order);
      CountsAgree(entries - {order[0]}, order[1..]);
      assert entries.Keys == (entries - {order[0]}).Keys + {order[0]};
    }
  }

  lemma {:induction false} NothingToRemove(order: seq<Key>, key: Key)
    requires key !in order
    ensures Without(order, key) == order
  {
    if order != [] {
      NothingToRemove(order[1..], key);
      assert order == [order[0]] + order[1..];
    }
  }

  // ---------------------------------------------------------------- against least recently used

  /** One call of the cache. */
  datatype Call = Read(key: Key, now: nat) | Store(key: Key, entry: Entry)

  datatype Line = Line(entries: map<Key, Entry>, order: seq<Key>)

  function Live(line: Line, key: Key, now: nat): bool { key in line.entries && !line.entries[key].Expired(now) }

  /** What a call leaves, as `Get` and `Put` do. */
  function Played(line: Line, call: Call, maxEntries: nat, maxBytes: nat): Line {
    match call
    case Read(key, now) =>
      if Live(line, key, now) then line else Line(line.entries - {key}, Without(line.order, key))
    case Store(key, e) =>
      if e.Bytes() > maxBytes / 4 then line
      else
        var kept, rest := line.entries - {key}, Without(line.order, key);
        var left := rest[Evicted(kept, rest, e.Bytes(), maxEntries, maxBytes)..];
        Line(Restrict(kept, left)[key := e], left + [key])
  }

  /** The calls of a run, newest outermost. */
  datatype Calls = NoCalls | Then(before: Calls, call: Call)

  function After(calls: Calls, maxEntries: nat, maxBytes: nat): Line {
    match calls
    case NoCalls => Line(map[], [])
    case Then(before, call) => Played(After(before, maxEntries, maxBytes), call, maxEntries, maxBytes)
  }

  /** The methods do what `Played` says. */
  method Play(cache: SearchCache, call: Call) returns (r: Option<seq<Command>>)
    requires cache.Valid()
    modifies cache
    ensures cache.Valid()
    ensures Line(cache.entries, cache.order) ==
      Played(old(Line(cache.entries, cache.order)), call, cache.maxEntries, cache.maxBytes)
    ensures call.Read? ==> r == if Live(old(Line(cache.entries, cache.order)), call.key, call.now)
                                then Some(old(cache.entries)[call.key].results) else None
  {
    match call
    case Read(key, now) => r := cache.Get(key, now);
    case Store(key, e) =>
      r := None;
      var ok := cache.Put(key, e.results, e.ttl, e.insertedAt);
  }

  function Among(order: seq<Key>, keys: seq<Key>): seq<Key> {
    if order == [] then []
    else if order[0] in keys then [order[0]] + Among(order[1..], keys)
    else Among(order[1..], keys)
  }

  /** The keys in order of last use: a hit or a store makes its key the most recent, whatever is gone is gone. */
  function ByLastUse(calls: Calls, maxEntries: nat, maxBytes: nat): seq<Key> {
    match calls
    case NoCalls => []
    case Then(before, Read(key, now)) =>
      var was := Without(ByLastUse(before, maxEntries, maxBytes), key);
      if Live(After(before, maxEntries, maxBytes), key, now) then was + [key] else was
    case Then(before, Store(key, e)) =>
      var was := ByLastUse(before, maxEntries, maxBytes);
      if e.Bytes() > maxBytes / 4 then was
      else Among(Without(was, key), After(calls, maxEntries, maxBytes).order) + [key]
  }

  /** Has the line of entries been in order of last use after every call? */
  ghost predicate LeastRecentFirst(calls: Calls, maxEntries: nat, maxBytes: nat) {
    && ByLastUse(calls, maxEntries, maxBytes) == After(calls, maxEntries, maxBytes).order
    && (calls.Then? ==> LeastRecentFirst(calls.before, maxEntries, maxBytes))
  }

  /** Was every hit on the entry last in line? */
  ghost predicate HitsOnlyTheLast(calls: Calls, maxEntries: nat, maxBytes: nat) {
    calls.Then? ==>
      && HitsOnlyTheLast(calls.before, maxEntries, maxBytes)
      && (calls.call.Read? ==>
            var line := After(calls.before, maxEntries, maxBytes);
            Live(line, calls.call.key, calls.call.now) ==>
              line.order != [] && line.order[|line.order| - 1] == calls.call.key)
  }

  lemma DropsDistinct(order: seq<Key>, n: nat)
    requires Distinct(order) && n <= |order|
    ensures Distinct(order[n..])
  {
  }

  lemma AppendDistinct(order: seq<Key>, key: Key)
    requires Distinct(order) && key !in order
    ensures Distinct(order + [key])
  {
  }

  lemma {:induction false} LinesAreDistinct(calls: Calls, maxEntries: nat, maxBytes: nat)
    ensures var line := After(calls, maxEntries, maxBytes);
      Distinct(line.order) && forall k | k in line.entries :: k in line.order
  {
    if calls.Then? {
      LinesAreDistinct(calls.before, maxEntries, maxBytes);
      var line, key := After(calls.before, maxEntries, maxBytes), calls.call.key;
      WithoutHolds(line.order, key);
      if calls.call.Store? {
        var rest := Without(line.order, key);
        var n := Evicted(line.entries - {key}, rest, calls.call.entry.Bytes(), maxEntries, maxBytes);
        DropsDistinct(rest, n);
        assert forall k | k in rest[n..] :: k in rest;
        AppendDistinct(rest[n..], key);
      }
    }
  }

  lemma {:induction false} AmongAll(order: seq<Key>, keys: seq<Key>)
    requires forall k | k in order :: k in keys
    ensures Among(order, keys) == order
  {
    if order != [] {
      AmongAll(order[1..], keys);
      assert order == [order[0]] + order[1..];
    }
  }

  /** The survivors of a line that loses its front are its back. */
  lemma {:induction false} AmongBack(order: seq<Key>, n: nat, key: Key)
    requires Distinct(order) && n <= |order| && key !in order
    ensures Among(order, order[n..] + [key]) == order[n..]
  {
    if n == 0 {
      assert order[0..] == order;
      AmongAll(order, order + [key]);
    } else {
      FirstIsElsewhereAbsent(order);
      assert order[1..][n - 1..] == order[n..];
      AmongBack(order[1..], n - 1, key);
      assert forall k | k in order[n..] :: k in order[1..];
    }
  }

  /** Using a key again leaves a line as it is exactly when the key is last in it. */
  lemma UsedAgain(order: seq<Key>, key: Key)
    requires Distinct(order) && key in order
    ensures Without(order, key) + [key] == order <==> order[|order| - 1] == key
  {
    var last := |order| - 1;
    var moved := Without(order, key) + [key];
    assert moved[|moved| - 1] == key;
    if order[last] == key {
      assert order == order[..last] + [key];
      WithoutLast(order[..last], key);
    }
  }

  lemma {:induction false} WithoutLast(front: seq<Key>, key: Key)
    requires key !in front
    ensures Without(front + [key], key) == front
  {
    if front == [] {
      assert front + [key] == [key];
    } else {
      assert (front + [key])[1..] == front[1..] + [key];
      WithoutLast(front[1..], key);
    }
  }

  /**
   Eviction goes from the front of the line. The line is in order of last use throughout a run exactly
   when every hit of the run was on the entry last in line; a hit anywhere else is forgotten.
   */
  lemma {:induction false} LeastRecentExactly(calls: Calls, maxEntries: nat, maxBytes: nat)
    ensures LeastRecentFirst(calls, maxEntries, maxBytes) <==> HitsOnlyTheLast(calls, maxEntries, maxBytes)
  {
    if calls.Then? {
      LeastRecentExactly(calls.before, maxEntries, maxBytes);
      if LeastRecentFirst(calls.before, maxEntries, maxBytes) {
        OneMoreCall(calls.before, calls.call, maxEntries, maxBytes);
      }
    }
  }

  lemma OneMoreCall(before: Calls, call: Call, maxEntries: nat, maxBytes: nat)
    requires ByLastUse(before, maxEntries, maxBytes) == After(before, maxEntries, maxBytes).order
    ensures var calls, line := Then(before, call), After(before, maxEntries, maxBytes);
      ByLastUse(calls, maxEntries, maxBytes) == After(calls, maxEntries, maxBytes).order <==>
      (call.Read? && Live(line, call.key, call.now) ==> line.order != [] && line.order[|line.order| - 1] == call.key)
  {
    var line := After(before, maxEntries, maxBytes);
    LinesAreDistinct(before, maxEntries, maxBytes);
    match call
    case Read(key, now) => if Live(line, key, now) { UsedAgain(line.order, key); }
    case Store(key, e) =>
      if e.Bytes() <= maxBytes / 4 {
        var rest := Without(line.order, key);
        WithoutHolds(line.order, key);
        AmongBack(rest, Evicted(line.entries - {key}, rest, e.Bytes(), maxEntries, maxBytes), key);
      }
  }

  lemma StoreFits(line: Line, key: Key, e: Entry, maxEntries: nat, maxBytes: nat)
    requires e.Bytes() <= maxBytes / 4 && key !in line.entries && key !in line.order
    requires Total(line.entries, line.order) + e.Bytes() <= maxBytes && |line.order| < maxEntries
    requires forall k | k in line.entries :: k in line.order
    ensures Played(line, Store(key, e), maxEntries, maxBytes) == Line(line.entries[key := e], line.order + [key])
  {
    NothingToRemove(line.order, key);
    assert line.entries - {key} == line.entries && line.order[0..] == line.order;
    assert Restrict(line.entries, line.order) == line.entries;
  }

  lemma OneInLine(a: Key, ea: Entry, n: nat, maxBytes: nat)
    requires n == 2 && ea.Bytes() <= maxBytes / 4
    ensures After(Then(NoCalls, Store(a, ea)), n, maxBytes) == Line(map[a := ea], [a])
  {
    var none := After(NoCalls, n, maxBytes);
    StoreFits(none, a, ea, n, maxBytes);
    assert none.entries[a := ea] == map[a := ea] && none.order + [a] == [a];
  }

  lemma TwoInLine(calls: Calls, a: Key, ea: Entry, b: Key, eb: Entry, n: nat, maxBytes: nat)
    requires n == 2 && a != b && ea.Bytes() <= maxBytes / 4 && eb.Bytes() <= maxBytes / 4
    requires After(calls, n, maxBytes) == Line(map[a := ea], [a])
    ensures After(Then(calls, Store(b, eb)), n, maxBytes) == Line(map[a := ea][b := eb], [a, b])
  {
    var one := After(calls, n, maxBytes);
    assert one.order[1..] == [] && Total(one.entries, one.order) == ea.Bytes();
    StoreFits(one, b, eb, n, maxBytes);
    assert one.order + [b] == [a, b];
  }

  lemma ThirdEvictsFirst(line: Line, a: Key, b: Key, c: Key, ec: Entry, n: nat, maxBytes: nat)
    requires n == 2 && a != b && a != c && b != c && ec.Bytes() <= maxBytes / 4
    requires line.order == [a, b] && line.entries.Keys == {a, b} && line.entries[b].Bytes() <= maxBytes / 4
    ensures Played(line, Store(c, ec), n, maxBytes) == Line(Restrict(line.entries, [b])[c := ec], [b, c])
  {
    var rest := line.order[1..];
    assert rest == [b] && rest[1..] == [];
    NothingToRemove(line.order, c);
    assert line.entries - {c} == line.entries;
    assert Total(line.entries, rest) == line.entries[b].Bytes();
    assert Evicted(line.entries, rest, ec.Bytes(), n, maxBytes) == 0;
    assert Evicted(line.entries, line.order, ec.Bytes(), n, maxBytes) == 1;
    assert [b] + [c] == [b, c];
  }

  /** In a cache for two entries, the entry just read is the one that makes room for the next. */
  lemma JustReadIsEvicted(a: Key, ea: Entry, b: Key, eb: Entry, c: Key, ec: Entry, now: nat, n: nat, maxBytes: nat)
    requires n == 2 && a != b && a != c && b != c && !ea.Expired(now)
    requires ea.Bytes() <= maxBytes / 4 && eb.Bytes() <= maxBytes / 4 && ec.Bytes() <= maxBytes / 4
    ensures var read := Then(Then(Then(NoCalls, Store(a, ea)), Store(b, eb)), Read(a, now));
      && Live(After(read.before, n, maxBytes), a, now)
      && After(Then(read, Store(c, ec)), n, maxBytes).entries.Keys == {b, c}
  {
    var one := Then(NoCalls, Store(a, ea));
    OneInLine(a, ea, n, maxBytes);
    TwoInLine(one, a, ea, b, eb, n, maxBytes);
    var line := After(Then(one, Store(b, eb)), n, maxBytes);
    assert line.entries.Keys == {a, b};
    ThirdEvictsFirst(line, a, b, c, ec, n, maxBytes);
  }
}
