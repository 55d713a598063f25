/** The cache of the states of the most recently used subjects
    (architecturekit/state_cache.go). */
module StateCaching {
  import opened Basics
  import opened EventLog
  import opened StateRules

  datatype Key = Key(typeName: string, subject: string)

  /** How a state is built, as far as that can be seen from outside. */
  datatype Shape<S> = Shape(
    source: nat, initial: S, evolved: set<string>, ignored: set<string>, upcasted: set<string>,
      fromLatest: Option<string>)

  function ShapeOf<S>(rules: Rules<S>): Shape<S> {
    Shape(rules.source, rules.initial, rules.evolve.Keys, rules.ignored, rules.upcasters.Keys, rules.fromLatest)
  }

  predicate ShapeEquals<S(==)>(left: Shape<S>, right: Shape<S>) {
    || left.source == right.source
    || (&& left.initial == right.initial && left.evolved == right.evolved && left.ignored == right.ignored
        && left.upcasted == right.upcasted && left.fromLatest == right.fromLatest)
  }

  datatype Entry<S> = Entry(shape: Shape<S>, state: S, last: nat)

  /** order holds the keys from the most to the least recently used one. */
  datatype Cache<S> = Cache(maxSubjects: nat, entries: map<Key, Entry<S>>, order: seq<Key>)

  function Without(order: seq<Key>, key: Key): seq<Key> {
    if order == [] then []
    else if order[0] == key then Without(order[1..], key)
    else [order[0]] + Without(order[1..], key)
  }

  function MoveToFront(order: seq<Key>, key: Key): seq<Key> { [key] + Without(order, key) }

  ghost predicate Distinct(order: seq<Key>) {
    forall i, j :: 0 <= i < j < |order| ==> order[i] != order[j]
  }

  /** The map and the list are in bijection, and there is room for all. */
  ghost predicate Valid<S>(cache: Cache<S>) {
    && 1 <= cache.maxSubjects
    && Distinct(cache.order)
    && (forall k :: k in cache.order <==> k in cache.entries)
    && |cache.order| <= cache.maxSubjects
  }

  lemma {:induction false} WithoutMembers(order: seq<Key>, key: Key)
    ensures forall k :: k in Without(order, key) <==> k in order && k != key
    ensures key !in order ==> Without(order, key) == order
  {
    if order != [] {
      WithoutMembers(order[1..], key);
      assert order == [order[0]] + order[1..];
    }
  }

  lemma {:induction false} WithoutDistinct(order: seq<Key>, key: Key)
    requires Distinct(order)
    ensures Distinct(Without(order, key))
    ensures |Without(order, key)| == if key in order then |order| - 1 else |order|
  {
    if order != [] {
      assert Distinct(order[1..]) && order[0] !in order[1..];
      WithoutDistinct(order[1..], key);
      WithoutMembers(order[1..], key);
      assert order == [order[0]] + order[1..];
    }
  }

  function Get<S>(cache: Cache<S>, key: Key): (Option<Entry<S>>, Cache<S>) {
    if key !in cache.entries then (None, cache)
    else (Some(cache.entries[key]), cache.(order := MoveToFront(cache.order, key)))
  }

  function Grown<S>(cache: Cache<S>, key: Key, entry: Entry<S>): Cache<S> {
    cache.(entries := cache.entries[key := entry], order := [key] + cache.order)
  }

  function Put<S(==)>(cache: Cache<S>, key: Key, shape: Shape<S>, state: S, last: nat): Cache<S> {
    if key in cache.entries then
      var entry := cache.entries[key];
      if !ShapeEquals(entry.shape, shape) then cache
      else
        var kept := if last >= entry.last then entry.(state := state, last := last) else entry;
        cache.(entries := cache.entries[key := kept], order := MoveToFront(cache.order, key))
    else
      Evict(Grown(cache, key, Entry(shape, state, last)))
  }

  function Evict<S>(cache: Cache<S>): Cache<S> {
    if |cache.order| <= cache.maxSubjects then cache
    else
      var oldest := cache.order[|cache.order| - 1];
      cache.(entries := cache.entries - {oldest}, order := cache.order[..|cache.order| - 1])
  }

  lemma {:induction false} GetKeeps<S>(cache: Cache<S>, key: Key)
    requires Valid(cache)
    ensures Valid(Get(cache, key).1) && Get(cache, key).1.entries == cache.entries
  {
    WithoutDistinct(cache.order, key);
    WithoutMembers(cache.order, key);
  }

  /** What a put may do to the others: nothing, or evict the least recently used
      one of a full cache. */
  ghost predicate LeavesOthers<S>(cache: Cache<S>, after: Cache<S>, key: Key) {
    && (forall k | k in after.entries && k != key :: k in cache.entries && after.entries[k] == cache.entries[k])
    && (forall k | k in cache.entries && k !in after.entries ::
        cache.order != [] && k == cache.order[|cache.order| - 1] && |cache.order| == cache.maxSubjects)
  }

  ghost predicate MovesForward<S>(cache: Cache<S>, after: Cache<S>) {
    forall k | k in after.entries && k in cache.entries ::
      after.entries[k].last >= cache.entries[k].last && after.entries[k].shape == cache.entries[k].shape
  }

  /** Evicting takes the oldest key off the list, and its entry out of the map. */
  lemma {:induction false} EvictTakesOldest<S>(cache: Cache<S>)
    requires Distinct(cache.order) && |cache.order| > cache.maxSubjects
    ensures var after, oldest := Evict(cache), cache.order[|cache.order| - 1];
      && Distinct(after.order) && |after.order| == |cache.order| - 1 && after.maxSubjects == cache.maxSubjects
      && after.entries == cache.entries - {oldest}
      && forall k :: k in after.order <==> k in cache.order && k != oldest
  {
    var after, oldest := Evict(cache), cache.order[|cache.order| - 1];
    assert cache.order == after.order + [oldest];
  }

  lemma {:induction false} EvictKeepsValid<S>(cache: Cache<S>, key: Key, entry: Entry<S>)
    requires Valid(cache) && key !in cache.entries
    ensures Valid(Evict(Grown(cache, key, entry)))
  {
    var grown := Grown(cache, key, entry);
    assert Distinct(grown.order);
    if |grown.order| > cache.maxSubjects {
      EvictTakesOldest(grown);
      hide Evict, Distinct;
    }
  }

  lemma {:induction false} EvictLeavesOthers<S>(cache: Cache<S>, key: Key, entry: Entry<S>)
    requires Valid(cache) && key !in cache.entries
    ensures var after := Evict(Grown(cache, key, entry)); LeavesOthers(cache, after, key) && MovesForward(cache, after)
  {
    hide Distinct;
    var grown := Grown(cache, key, entry);
    if |grown.order| > cache.maxSubjects {
      assert cache.order != [] && grown.order[|grown.order| - 1] == cache.order[|cache.order| - 1];
    }
  }

  /** Put keeps the bijection and the bound, never moves the event ID of an
      entry backwards, adds nothing but the given key, and evicts at most the
      least recently used one. */
  lemma {:induction false} PutKeeps<S>(cache: Cache<S>, key: Key, shape: Shape<S>, state: S, last: nat)
    requires Valid(cache)
    ensures var after := Put(cache, key, shape, state, last);
      Valid(after) && LeavesOthers(cache, after, key) && MovesForward(cache, after)
  {
    if key in cache.entries {
      WithoutDistinct(cache.order, key);
      WithoutMembers(cache.order, key);
    } else {
      EvictKeepsValid(cache, key, Entry(shape, state, last));
      EvictLeavesOthers(cache, key, Entry(shape, state, last));
    }
  }

  /** What a look-up finds after a put: a state that is not older replaces the cached one
      of the same shape, an older one and one of another shape leave it, and for a subject
      that is new in the cache it is always kept. Any other subject is found as before,
      unless it was the least recently used one and had to make room. */
  lemma {:induction false} FoundAfterPut<S>(
      cache: Cache<S>, key: Key, shape: Shape<S>, state: S, last: nat, other: Key)
    requires Valid(cache)
    ensures var before, found := Get(cache, key).0, Get(Put(cache, key, shape, state, last), key).0;
      found == if before.None? then Some(Entry(shape, state, last))
        else if ShapeEquals(before.value.shape, shape) && before.value.last <= last
        then Some(Entry(before.value.shape, state, last))
        else before
    ensures var before, found := Get(cache, other).0, Get(Put(cache, key, shape, state, last), other).0;
      other != key && found != before ==>
        found.None? && before.Some? && |cache.order| == cache.maxSubjects && other == cache.order[|cache.order| - 1]
  {
    StoredByPut(cache, key, shape, state, last);
    hide Put;
    PutKeeps(cache, key, shape, state, last);
  }

  lemma {:induction false} StoredByPut<S>(cache: Cache<S>, key: Key, shape: Shape<S>, state: S, last: nat)
    requires Valid(cache)
    ensures var after := Put(cache, key, shape, state, last).entries;
      && key in after
      && after[key] == if key !in cache.entries then Entry(shape, state, last)
        else if ShapeEquals(cache.entries[key].shape, shape) && cache.entries[key].last <= last
        then Entry(cache.entries[key].shape, state, last)
        else cache.entries[key]
  {
    hide Without, ShapeEquals, Distinct;
    if key !in cache.entries {
      var grown := Grown(cache, key, Entry(shape, state, last));
      assert |grown.order| > 1 ==> grown.order[|grown.order| - 1] in cache.order;
    }
  }

  /** The keys in the order of their latest use, of which the cache is a prefix. */
  function Recent(uses: seq<Key>): seq<Key> {
    if uses == [] then [] else MoveToFront(Recent(uses[1..]), uses[0])
  }

  function Take(n: nat, order: seq<Key>): seq<Key> {
    if n == 0 || order == [] then [] else [order[0]] + Take(n - 1, order[1..])
  }

  lemma {:induction false} TakeIsPrefix(n: nat, order: seq<Key>)
    ensures Take(n, order) == if |order| <= n then order else order[..n]
  {
    if n > 0 && order != [] {
      TakeIsPrefix(n - 1, order[1..]);
      assert order == [order[0]] + order[1..];
      assert |order| > n ==> order[..n] == [order[0]] + order[1..][..n - 1];
    }
  }

  lemma {:induction false} TakeHead(n: nat, first: Key, rest: seq<Key>)
    requires n >= 1
    ensures Take(n, [first] + rest) == [first] + Take(n - 1, rest)
  {
    assert ([first] + rest)[1..] == rest;
  }

  lemma {:induction false} WithoutHead(first: Key, rest: seq<Key>, key: Key)
    ensures Without([first] + rest, key) == if first == key then Without(rest, key) else [first] + Without(rest, key)
  {
    assert ([first] + rest)[1..] == rest;
  }

  lemma {:induction false} TakeTwice(n: nat, order: seq<Key>)
    ensures Take(n, Take(n, order)) == Take(n, order)
    ensures forall k | k in Take(n, order) :: k in order
  {
    TakeIsPrefix(n, order);
    TakeIsPrefix(n, Take(n, order));
  }

  lemma {:induction false} WithoutTake(order: seq<Key>, key: Key, n: nat)
    requires Distinct(order) && n >= 1
    ensures Take(n - 1, Without(Take(n, order), key)) == Take(n - 1, Without(order, key))
  {
    if order != [] && n >= 2 {
      var first, rest := order[0], order[1..];
      var taken := Take(n - 1, rest);
      assert order == [first] + rest && Distinct(rest) && first !in rest;
      TakeHead(n, first, rest);
      WithoutHead(first, taken, key);
      WithoutHead(first, rest, key);
      TakeTwice(n - 1, rest);
      if first == key {
        WithoutMembers(rest, key);
        WithoutMembers(taken, key);
      } else {
        TakeHead(n - 1, first, Without(taken, key));
        TakeHead(n - 1, first, Without(rest, key));
        hide Take, Without, Distinct;
        WithoutTake(rest, key, n - 1);
      }
    }
  }

  lemma {:induction false} RecentDistinct(uses: seq<Key>)
    ensures Distinct(Recent(uses))
  {
    if uses != [] {
      RecentDistinct(uses[1..]);
      WithoutDistinct(Recent(uses[1..]), uses[0]);
      WithoutMembers(Recent(uses[1..]), uses[0]);
    }
  }

  lemma {:induction false} UseTakes(order: seq<Key>, key: Key, n: nat)
    requires Distinct(order) && n >= 1
    ensures Take(n, MoveToFront(Take(n, order), key)) == Take(n, MoveToFront(order, key))
  {
    WithoutTake(order, key, n);
    var l, r := Without(Take(n, order), key), Without(order, key);
    assert ([key] + l)[1..] == l && ([key] + r)[1..] == r;
  }

  /** What the cache holds are exactly the most recently used keys: a hit, or a
      put that is not refused, is a use. */
  lemma {:induction false} HoldsMostRecent<S>(
      cache: Cache<S>, uses: seq<Key>, key: Key, shape: Shape<S>, state: S, last: nat)
    requires Valid(cache) && cache.order == Take(cache.maxSubjects, Recent(uses))
    ensures key in cache.entries ==> Get(cache, key).1.order == Take(cache.maxSubjects, Recent([key] + uses))
    ensures (key in cache.entries ==> ShapeEquals(cache.entries[key].shape, shape)) ==>
      Put(cache, key, shape, state, last).order == Take(cache.maxSubjects, Recent([key] + uses))
  {
    assert ([key] + uses)[1..] == uses;
    assert Recent([key] + uses) == MoveToFront(Recent(uses), key);
    hide Recent;
    RecentDistinct(uses);
    UseTakes(Recent(uses), key, cache.maxSubjects);
    WithoutDistinct(cache.order, key);
    WithoutMembers(cache.order, key);
    TakeIsPrefix(cache.maxSubjects, MoveToFront(cache.order, key));
  }

  class StateCache<S(==)> {
    const maxSubjects: nat
    var entries: map<Key, Entry<S>>
    var order: seq<Key>

    ghost function Contents(): Cache<S>
      reads this
    {
      Cache(maxSubjects, entries, order)
    }

    /** NewStore creates a cache only for at least one subject. */
    constructor (maxSubjects: nat)
      requires maxSubjects >= 1
      ensures Contents() == Cache(maxSubjects, map[], []) && Valid(Contents())
    {
      this.maxSubjects := maxSubjects;
      entries := map[];
      order := [];
    }

    method GetEntry(key: Key) returns (entry: Option<Entry<S>>)
      requires Valid(Contents())
      modifies this
      ensures Valid(Contents())
      ensures (entry, Contents()) == Get(old(Contents()), key)
    {
      GetKeeps(Contents(), key);
      if key !in entries {
        return None;
      }
      order := MoveToFront(order, key);
      return Some(entries[key]);
    }

    method PutState(key: Key, shape: Shape<S>, state: S, last: nat)
      requires Valid(Contents())
      modifies this
      ensures Valid(Contents())
      ensures Contents() == Put(old(Contents()), key, shape, state, last)
    {
      PutKeeps(Contents(), key, shape, state, last);
      if key in entries {
        var entry := entries[key];
        if !ShapeEquals(entry.shape, shape) {
          return;
        }
        if last >= entry.last {
          entries := entries[key := entry.(state := state, last := last)];
        }
        order := MoveToFront(order, key);
        assert last < entry.last ==> entries == entries[key := entry];
        return;
      }
      entries := entries[key := Entry(shape, state, last)];
      order := [key] + order;
      if |order| > maxSubjects {
        var oldest := order[|order| - 1];
        order := order[..|order| - 1];
        entries := entries - {oldest};
      }
    }
  }

  /** A cached state is the state of a stretch of the stream that starts with its
      first event and ends with the event the entry names. */
  ghost predicate Covers<S>(rules: Rules<S>, stream: Log, state: S, last: nat) {
    exists n :: 0 < n <= |stream| && stream[n - 1].id == last && Meaning(rules, stream[..n]) == Ok(state)
  }

  /** Two states that build the same from the same events. */
  ghost predicate SameRules<S(!new)>(a: Rules<S>, b: Rules<S>) {
    && a.initial == b.initial && a.fromLatest == b.fromLatest
    && forall s: S, e: Stored :: Step(a, s, e) == Step(b, s, e)
  }

  /** What the documentation of WithStateCache demands of an application: states
      of the same type that look alike compute the same. */
  ghost predicate EqualShapesMeanEqualRules<S(!new)>(team: seq<Rules<S>>) {
    forall i, j | 0 <= i < |team| && 0 <= j < |team| ::
      team[i].typeName == team[j].typeName && ShapeEquals(ShapeOf(team[i]), ShapeOf(team[j])) ==>
        SameRules(team[i], team[j])
  }

  /** What the cache may hold, given the states in use and the log. */
  ghost predicate EntrySound<S(!new)>(team: seq<Rules<S>>, log: Log, key: Key, entry: Entry<S>) {
    && (exists i :: 0 <= i < |team| && team[i].typeName == key.typeName && entry.shape == ShapeOf(team[i]))
    && (forall i | 0 <= i < |team| :: team[i].typeName == key.typeName && ShapeEquals(entry.shape, ShapeOf(team[i])) ==>
          Covers(team[i], Stream(log, key.subject), entry.state, entry.last))
  }

  ghost predicate Sound<S(!new)>(team: seq<Rules<S>>, log: Log, cache: Cache<S>) {
    forall key | key in cache.entries :: EntrySound(team, log, key, cache.entries[key])
  }

  lemma {:induction false} SameFold<S(!new)>(a: Rules<S>, b: Rules<S>, s: S, events: Log)
    requires SameRules(a, b)
    ensures FoldFrom(a, s, events) == FoldFrom(b, s, events)
  {
    if events != [] && Step(a, s, events[0]).Ok? {
      SameFold(a, b, Step(a, s, events[0]).value, events[1..]);
    }
  }

  lemma {:induction false} SameCoverage<S(!new)>(a: Rules<S>, b: Rules<S>, stream: Log, state: S, last: nat)
    requires SameRules(a, b) && Covers(a, stream, state, last)
    ensures Covers(b, stream, state, last)
  {
    var n :| 0 < n <= |stream| && stream[n - 1].id == last && Meaning(a, stream[..n]) == Ok(state);
    SameFold(a, b, a.initial, stream[..n][StartIndex(a, stream[..n])..]);
  }

  /** Whatever else is written, what is covered stays covered. */
  lemma {:induction false} CoverageGrows<S>(rules: Rules<S>, stream: Log, more: Log, state: S, last: nat)
    requires Covers(rules, stream, state, last)
    ensures Covers(rules, stream + more, state, last)
  {
    var n :| 0 < n <= |stream| && stream[n - 1].id == last && Meaning(rules, stream[..n]) == Ok(state);
    assert (stream + more)[..n] == stream[..n];
  }

  lemma {:induction false} SoundGrows<S(!new)>(team: seq<Rules<S>>, log: Log, more: Log, cache: Cache<S>)
    requires Sound(team, log, cache)
    ensures Sound(team, log + more, cache)
  {
    forall key | key in cache.entries
      ensures EntrySound(team, log + more, key, cache.entries[key])
    {
      var entry := cache.entries[key];
      StreamGrows(log, more, key.subject);
      forall i | 0 <= i < |team| && team[i].typeName == key.typeName && ShapeEquals(entry.shape, ShapeOf(team[i]))
        ensures Covers(team[i], Stream(log + more, key.subject), entry.state, entry.last)
      {
        CoverageGrows(team[i], Stream(log, key.subject), Stream(more, key.subject), entry.state, entry.last);
      }
    }
  }

  /** Putting a state that covers its stream keeps the cache sound for every
      state in use. */
  lemma {:induction false} SoundPut<S(!new)>(
      team: seq<Rules<S>>, log: Log, cache: Cache<S>, me: nat, subject: string, state: S, last: nat)
    requires Valid(cache) && Sound(team, log, cache) && EqualShapesMeanEqualRules(team) && me < |team|
    requires Covers(team[me], Stream(log, subject), state, last)
    ensures Sound(team, log, Put(cache, Key(team[me].typeName, subject), ShapeOf(team[me]), state, last))
  {
    hide Covers, Valid, EqualShapesMeanEqualRules, Put, ShapeEquals;
    var key, shape := Key(team[me].typeName, subject), ShapeOf(team[me]);
    var after := Put(cache, key, shape, state, last);
    PutKeeps(cache, key, shape, state, last);
    PutStores(cache, key, shape, state, last);
    if key in after.entries && (key in cache.entries ==> after.entries[key] != cache.entries[key]) {
      assert after.entries[key].shape == shape || EntrySound(team, log, key, cache.entries[key]);
      PutEntryIsSound(team, log, me, subject, after.entries[key]);
    }
  }

  /** An entry that is not the old one holds what was put, under a shape like its own. */
  lemma {:induction false} PutStores<S>(cache: Cache<S>, key: Key, shape: Shape<S>, state: S, last: nat)
    ensures var after := Put(cache, key, shape, state, last).entries;
      key in after && (key in cache.entries ==> after[key] != cache.entries[key]) ==>
        && after[key].state == state && after[key].last == last && ShapeEquals(after[key].shape, shape)
        && after[key].shape == if key in cache.entries then cache.entries[key].shape else shape
  {
    hide MoveToFront;
  }

  lemma {:induction false} PutEntryIsSound<S(!new)>(
      team: seq<Rules<S>>, log: Log, me: nat, subject: string, entry: Entry<S>)
    requires EqualShapesMeanEqualRules(team) && me < |team| && ShapeEquals(entry.shape, ShapeOf(team[me]))
    requires exists i :: 0 <= i < |team| && team[i].typeName == team[me].typeName && entry.shape == ShapeOf(team[i])
    requires Covers(team[me], Stream(log, subject), entry.state, entry.last)
    ensures EntrySound(team, log, Key(team[me].typeName, subject), entry)
  {
    var typeName := team[me].typeName;
    hide Covers, SameRules;
    var origin :| 0 <= origin < |team| && team[origin].typeName == typeName && entry.shape == ShapeOf(team[origin]);
    forall i | 0 <= i < |team| && team[i].typeName == typeName && ShapeEquals(entry.shape, ShapeOf(team[i]))
      ensures Covers(team[i], Stream(log, subject), entry.state, entry.last)
    {
      assert SameRules(team[origin], team[me]) && SameRules(team[origin], team[i]);
      SameAsOrigin(team[origin], team[me], team[i]);
      SameCoverage(team[me], team[i], Stream(log, subject), entry.state, entry.last);
    }
  }

  lemma {:induction false} SameAsOrigin<S(!new)>(origin: Rules<S>, a: Rules<S>, b: Rules<S>)
    requires SameRules(origin, a) && SameRules(origin, b)
    ensures SameRules(a, b)
  {
    forall s: S, e: Stored ensures Step(a, s, e) == Step(b, s, e) {
      assert Step(origin, s, e) == Step(a, s, e);
    }
  }
}
