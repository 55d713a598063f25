/** InMemoryView and its secondary indexes, which store their items as
    ViewStorage describes, and show what ViewModel says
    (architecturekit/in_memory_view.go). Every operation holds the lock of the
    view, so each of them is one step. */
module InMemoryViews {
  import opened Basics
  import opened ViewModel
  import opened ViewStorage

  class InMemoryView<K(==, !new), I, V(==, !new)> {
    const config: Config<K, I>
    var entries: map<K, Entry<I>>
    var order: seq<K>
    var indexes: seq<Index<K, I, V>>

    ghost predicate Valid()
      reads this
    {
      && Placed(entries, order)
      && |order| < 2 * |entries| + 16
      && forall i | 0 <= i < |indexes| :: Agrees(indexes[i], entries)
    }

    /** What the view holds. */
    ghost function Shown(): Contents<K, I>
      reads this
    {
      Live(entries, order, |order|)
    }

    /** Every operation keeps which values the indexes are by. */
    ghost predicate SameIndexes(before: seq<Index<K, I, V>>)
      reads this
    {
      |indexes| == |before| && forall i | 0 <= i < |indexes| :: indexes[i].valueOf == before[i].valueOf
    }

    /** What the indexes are by. */
    function ValuesOf(): seq<I -> V>
      reads this
    {
      seq(|indexes|, i requires 0 <= i < |indexes| reads this => indexes[i].valueOf)
    }

    constructor (config: Config<K, I>)
      ensures Valid() && Shown() == [] && indexes == [] && this.config == config
    {
      this.config := config;
      entries, order, indexes := map[], [], [];
    }

    method Get(key: K) returns (item: Option<I>)
      requires Valid()
      ensures item == match IndexOf(Shown(), key) { case None => None case Some(i) => Some(Shown()[i].item) }
    {
      FindLive(entries, order, key);
      if key !in entries {
        return None;
      }
      return Some(entries[key].item);
    }

    method All() returns (items: seq<I>)
      requires Valid()
      ensures items == Items(Shown())
      ensures |items| == |Shown()| && forall i | 0 <= i < |items| :: items[i] == Shown()[i].item
    {
      items := [];
      for position := 0 to |order|
        invariant items == Items(Live(entries, order, position))
      {
        var key := order[position];
        if key in entries && entries[key].position == position {
          items := items + [entries[key].item];
        }
      }
    }

    /** The keys of the matching items, in the order of the view. */
    method KeysMatching(matches: I -> bool) returns (keys: seq<K>)
      requires Valid()
      ensures keys == KeysWhere(Shown(), matches)
    {
      hide Live, KeysWhere, Placed, Agrees;
      keys := [];
      NothingWhere(entries, order, matches);
      for position := 0 to |order|
        invariant keys == KeysWhere(Live(entries, order, position), matches)
      {
        var key := order[position];
        KeysWhereOneMore(entries, order, position, matches);
        if key in entries && entries[key].position == position && matches(entries[key].item) {
          keys := keys + [key];
        }
      }
    }

    /** add stores a new item, whose key is free. */
    method Add(key: K, item: I, event: Stamp)
      requires Valid() && key !in entries
      modifies this
      ensures Valid() && SameIndexes(old(indexes))
      ensures Shown() == old(Shown()) + [SlotOf(config, key, item, event)]
    {
      hide Live, Agrees, Placed;
      var marked := Marked(config, item, event);
      ghost var before := entries;
      var entry := Entry(marked, event.number, event.part, |order|);
      LiveAppend(entries, order, key, entry);
      entries := entries[key := entry];
      order := order + [key];
      var i := 0;
      while i < |indexes|
        invariant 0 <= i <= |indexes| && SameIndexes(old(indexes))
        invariant entries == before[key := entry] && order == old(order) + [key]
        invariant forall j | 0 <= j < i :: Agrees(indexes[j], entries)
        invariant forall j | i <= j < |indexes| :: Agrees(indexes[j], before)
      {
        AgreesAdd(indexes[i], before, key, entry);
        indexes := indexes[i := IndexAdd(indexes[i], key, marked)];
        i := i + 1;
      }
    }

    /** change applies a change to one item, if the part of the event is newer. */
    method ChangeOne(key: K, event: Stamp, change: I -> I) returns (r: Result<Outcome, ViewError>)
      requires Valid()
      modifies this
      ensures Valid() && SameIndexes(old(indexes))
      ensures (Shown(), r) == Change(config, old(Shown()), key, event, change)
    {
      FindLive(entries, order, key);
      if key !in entries {
        return Ok(Missing);
      }
      var entry := entries[key];
      if !IsNewer(event, entry.revision, entry.part) {
        return Ok(AlreadyApplied);
      }
      var changed := change(Cloned(config, entry.item));
      if config.keyOf(changed) != key {
        return Err(KeyChanged);
      }
      changed := Marked(config, changed, event);
      var next := Entry(changed, event.number, event.part, entry.position);
      var i := 0;
      while i < |indexes|
        invariant 0 <= i <= |indexes| && SameIndexes(old(indexes))
        invariant entries == old(entries) && order == old(order)
        invariant forall j | 0 <= j < i :: Agrees(indexes[j], entries[key := next])
        invariant forall j | i <= j < |indexes| :: Agrees(indexes[j], entries)
      {
        AgreesChange(indexes[i], entries, key, next);
        indexes := indexes[i := IndexAdd(IndexRemove(indexes[i], key, entry.item), key, changed)];
        i := i + 1;
      }
      LiveUpdate(entries, order, key, next);
      entries := entries[key := next];
      return Ok(Applied);
    }

    /** delete removes one item, if the part of the event is newer. */
    method DeleteOne(key: K, event: Stamp) returns (outcome: Outcome)
      requires Valid()
      modifies this
      ensures Valid() && SameIndexes(old(indexes))
      ensures (Shown(), outcome) == ViewModel.Delete(old(Shown()), key, event)
    {
      FindLive(entries, order, key);
      if key !in entries {
        return Missing;
      }
      var entry := entries[key];
      if !IsNewer(event, entry.revision, entry.part) {
        return AlreadyApplied;
      }
      var i := 0;
      while i < |indexes|
        invariant 0 <= i <= |indexes| && SameIndexes(old(indexes))
        invariant entries == old(entries) && order == old(order)
        invariant forall j | 0 <= j < i :: Agrees(indexes[j], entries - {key})
        invariant forall j | i <= j < |indexes| :: Agrees(indexes[j], entries)
      {
        AgreesRemove(indexes[i], entries, key);
        indexes := indexes[i := IndexRemove(indexes[i], key, entry.item)];
        i := i + 1;
      }
      LiveRemove(entries, order, key);
      entries := entries - {key};
      Compact();
      return Applied;
    }

    /** compact drops the keys of deleted items once they make up most of the
        order. Nobody can tell, and the order stays within its bound. */
    method Compact()
      requires Placed(entries, order) && forall i | 0 <= i < |indexes| :: Agrees(indexes[i], entries)
      modifies this`entries, this`order
      ensures Valid() && Shown() == old(Shown())
    {
      if |order| < 2 * |entries| + 16 {
        return;
      }
      ghost var was := entries;
      var kept := Renumber();
      hide Renumbered, ShownPart, Live, Placed, Agrees;
      RenumberedIsCompacted(was, order, entries, kept);
      AllAgreeMoved(indexes, was, entries);
      order := kept;
    }

    /** The loop of compact, which gives every entry its new place. */
    method Renumber() returns (kept: seq<K>)
      requires Placed(entries, order)
      modifies this`entries
      ensures entries.Keys == old(entries).Keys && ShownPart(old(entries), order, |order|, kept)
      ensures Renumbered(old(entries), entries, |order|, kept)
    {
      kept := [];
      ghost var was := entries;
      for position := 0 to |order|
        invariant entries.Keys == was.Keys
        invariant ShownPart(was, order, position, kept) && Renumbered(was, entries, position, kept)
      {
        hide Renumbered, ShownPart, Live, Placed;
        var key := order[position];
        CompactStep(was, order, position, entries, kept);
        if key in entries && entries[key].position == position {
          entries := entries[key := entries[key].(position := |kept|)];
          kept := kept + [key];
        }
      }
    }

    // ----- The operations -----

    /** An ID that is no revision is refused, and nothing changes. */
    method Insert(eventId: string, part: nat, item: I) returns (r: Result<Outcome, ViewError>)
      requires Valid()
      modifies this
      ensures Valid() && SameIndexes(old(indexes))
      ensures var stamp := StampOf(eventId, part);
        (Shown(), r) == if stamp.Err? then (old(Shown()), Err(stamp.error))
          else ViewModel.Insert(config, old(Shown()), stamp.value, item)
    {
      var stamp := StampOf(eventId, part);
      if stamp.Err? {
        return Err(stamp.error);
      }
      var key := config.keyOf(item);
      FindLive(entries, order, key);
      if key in entries {
        if !IsNewer(stamp.value, entries[key].revision, entries[key].part) {
          return Ok(AlreadyApplied);
        }
        return Err(KeyTaken);
      }
      Add(key, item, stamp.value);
      return Ok(Added);
    }

    method Upsert(zero: I, key: K, eventId: string, part: nat, change: I -> I) returns (r: Result<Outcome, ViewError>)
      requires Valid()
      modifies this
      ensures Valid() && SameIndexes(old(indexes))
      ensures var stamp := StampOf(eventId, part);
        (Shown(), r) == if stamp.Err? then (old(Shown()), Err(stamp.error))
          else ViewModel.Upsert(config, old(Shown()), zero, key, stamp.value, change)
    {
      var stamp := StampOf(eventId, part);
      if stamp.Err? {
        return Err(stamp.error);
      }
      FindLive(entries, order, key);
      if key in entries {
        r := ChangeOne(key, stamp.value, change);
        return;
      }
      var item := change(zero);
      if config.keyOf(item) != key {
        return Err(KeyChanged);
      }
      Add(key, item, stamp.value);
      return Ok(Added);
    }

    method Update(key: K, eventId: string, part: nat, change: I -> I) returns (r: Result<Outcome, ViewError>)
      requires Valid()
      modifies this
      ensures Valid() && SameIndexes(old(indexes))
      ensures var stamp := StampOf(eventId, part);
        (Shown(), r) == if stamp.Err? then (old(Shown()), Err(stamp.error))
          else Change(config, old(Shown()), key, stamp.value, change)
    {
      var stamp := StampOf(eventId, part);
      if stamp.Err? {
        return Err(stamp.error);
      }
      r := ChangeOne(key, stamp.value, change);
    }

    method Delete(key: K, eventId: string, part: nat) returns (r: Result<Outcome, ViewError>)
      requires Valid()
      modifies this
      ensures Valid() && SameIndexes(old(indexes))
      ensures var stamp := StampOf(eventId, part);
        if stamp.Err? then Shown() == old(Shown()) && r == Err(stamp.error)
        else r.Ok? && (Shown(), r.value) == ViewModel.Delete(old(Shown()), key, stamp.value)
    {
      var stamp := StampOf(eventId, part);
      if stamp.Err? {
        return Err(stamp.error);
      }
      var outcome := DeleteOne(key, stamp.value);
      return Ok(outcome);
    }

    /** changeAll keeps what it has changed before an error. */
    method ChangeEach(keys: seq<K>, event: Stamp, change: I -> I) returns (changed: nat, err: Option<ViewError>)
      requires Valid()
      modifies this
      ensures Valid() && SameIndexes(old(indexes))
      ensures (Shown(), changed, err) == ChangeAll(config, old(Shown()), keys, event, change)
    {
      hide Valid, Live, Change;
      changed := 0;
      for i := 0 to |keys|
        invariant Valid() && SameIndexes(old(indexes))
        invariant ChangeAll(config, old(Shown()), keys, event, change) ==
          var (c, n, e) := ChangeAll(config, Shown(), keys[i..], event, change); (c, changed + n, e)
      {
        assert keys[i..][1..] == keys[i + 1..];
        var outcome := ChangeOne(keys[i], event, change);
        if outcome.Err? {
          return changed, Some(outcome.error);
        }
        if outcome.value == Applied {
          changed := changed + 1;
        }
      }
      return changed, None;
    }

    method DeleteEach(keys: seq<K>, event: Stamp) returns (removed: nat)
      requires Valid()
      modifies this
      ensures Valid() && SameIndexes(old(indexes))
      ensures (Shown(), removed) == DeleteAll(old(Shown()), keys, event)
    {
      hide Live, Placed, Agrees, ViewModel.Delete;
      removed := 0;
      for i := 0 to |keys|
        invariant Valid() && SameIndexes(old(indexes))
        invariant DeleteAll(old(Shown()), keys, event) ==
          var (c, n) := DeleteAll(Shown(), keys[i..], event); (c, removed + n)
      {
        assert keys[i..][0] == keys[i] && keys[i..][1..] == keys[i + 1..];
        var outcome := DeleteOne(keys[i], event);
        if outcome == Applied {
          removed := removed + 1;
        }
      }
      assert keys[|keys|..] == [];
    }

    method UpdateWhere(matches: I -> bool, eventId: string, part: nat, change: I -> I)
      returns (changed: nat, err: Option<ViewError>)
      requires Valid()
      modifies this
      ensures Valid() && SameIndexes(old(indexes))
      ensures var stamp := StampOf(eventId, part);
        (Shown(), changed, err) == if stamp.Err? then (old(Shown()), 0, Some(stamp.error))
          else ChangeAll(config, old(Shown()), KeysWhere(old(Shown()), matches), stamp.value, change)
    {
      var stamp := StampOf(eventId, part);
      if stamp.Err? {
        return 0, Some(stamp.error);
      }
      var keys := KeysMatching(matches);
      changed, err := ChangeEach(keys, stamp.value, change);
    }

    method DeleteWhere(matches: I -> bool, eventId: string, part: nat) returns (r: Result<nat, ViewError>)
      requires Valid()
      modifies this
      ensures Valid() && SameIndexes(old(indexes))
      ensures var stamp := StampOf(eventId, part);
        if stamp.Err? then Shown() == old(Shown()) && r == Err(stamp.error)
        else r.Ok? && (Shown(), r.value) == DeleteAll(old(Shown()), KeysWhere(old(Shown()), matches), stamp.value)
    {
      var stamp := StampOf(eventId, part);
      if stamp.Err? {
        return Err(stamp.error);
      }
      var keys := KeysMatching(matches);
      var removed := DeleteEach(keys, stamp.value);
      return Ok(removed);
    }

    // ----- Secondary indexes -----

    /** Index adds a secondary index that agrees with the view at once. It looks at
        every place of the order, live or not, so it may add a key twice. */
    method AddIndex(valueOf: I -> V)
      requires Valid()
      modifies this
      ensures Valid() && Shown() == old(Shown())
      ensures |indexes| == |old(indexes)| + 1 && indexes[..|old(indexes)|] == old(indexes) &&
        indexes[|old(indexes)|].valueOf == valueOf
    {
      var index := Index(valueOf, map[]);
      for position := 0 to |order|
        invariant index.valueOf == valueOf
        invariant forall value, key :: Holds(index, value, key) <==>
          key in entries && valueOf(entries[key].item) == value && key in order[..position]
        invariant forall value | value in index.keys :: index.keys[value] != {}
      {
        var key := order[position];
        assert order[..position + 1] == order[..position] + [key];
        if key in entries {
          ghost var before := index;
          index := IndexAdd(index, key, entries[key].item);
          assert forall v, k :: Holds(index, v, k) <==>
            Holds(before, v, k) || (v == valueOf(entries[key].item) && k == key);
        }
      }
      assert forall key | key in entries :: order[entries[key].position] in order[..|order|];
      indexes := indexes + [index];
    }

    /** keysOf sorts the keys of a value by their position: they are the keys of
        the items with that value, in the order of the view. */
    method KeysOf(i: nat, value: V) returns (keys: seq<K>)
      requires Valid() && i < |indexes|
      ensures keys == KeysWhere(Shown(), ByValue(indexes[i].valueOf, value))
    {
      var rest := if value in indexes[i].keys then indexes[i].keys[value] else {};
      ghost var all := rest;
      assert forall key :: key in all <==> Holds(indexes[i], value, key);
      keys := [];
      while rest != {}
        invariant rest <= all && Sorted(entries, keys)
        invariant forall key :: key in all <==> key in keys || key in rest
        invariant forall key | key in keys :: key !in rest
        decreases |rest|
      {
        var key :| key in rest;
        rest := rest - {key};
        var at := 0;
        while at < |keys| && entries[keys[at]].position < entries[key].position
          invariant 0 <= at <= |keys|
          invariant forall j | 0 <= j < at :: entries[keys[j]].position < entries[key].position
        {
          at := at + 1;
        }
        SortedInsert(entries, order, keys, key, at);
        keys := keys[..at] + [key] + keys[at..];
      }
      KeysWhereIsSorted(entries, order, ByValue(indexes[i].valueOf, value), |order|);
      SortedIsUnique(entries, keys, KeysWhere(Shown(), ByValue(indexes[i].valueOf, value)));
    }

    /** Lookup hands out what All hands out, filtered by the value. */
    method Lookup(i: nat, value: V) returns (items: seq<I>)
      requires Valid() && i < |indexes|
      ensures items == Filter(ByValue(indexes[i].valueOf, value), Items(Shown()))
    {
      var keys := KeysOf(i, value);
      items := [];
      for k := 0 to |keys|
        invariant |items| == k
        invariant forall j | 0 <= j < k :: keys[j] in entries && items[j] == entries[keys[j]].item
      {
        KeysWhereIsSorted(entries, order, ByValue(indexes[i].valueOf, value), |order|);
        items := items + [entries[keys[k]].item];
      }
      LiveIsEntries(entries, order, |order|);
      ItemsOfKeys(entries, Shown(), ByValue(indexes[i].valueOf, value), items, |order|);
    }

    /** Changing the items with a value is UpdateWhere for that value. */
    method IndexUpdate(i: nat, value: V, eventId: string, part: nat, change: I -> I)
      returns (changed: nat, err: Option<ViewError>)
      requires Valid() && i < |indexes|
      modifies this
      ensures Valid() && SameIndexes(old(indexes))
      ensures var stamp := StampOf(eventId, part);
        (Shown(), changed, err) == if stamp.Err? then (old(Shown()), 0, Some(stamp.error))
          else ChangeAll(config, old(Shown()), KeysWhere(old(Shown()), ByValue(old(indexes)[i].valueOf, value)),
              stamp.value, change)
    {
      var stamp := StampOf(eventId, part);
      if stamp.Err? {
        return 0, Some(stamp.error);
      }
      var keys := KeysOf(i, value);
      changed, err := ChangeEach(keys, stamp.value, change);
    }

    /** Removing the items with a value is DeleteWhere for that value. */
    method IndexDelete(i: nat, value: V, eventId: string, part: nat) returns (r: Result<nat, ViewError>)
      requires Valid() && i < |indexes|
      modifies this
      ensures Valid() && SameIndexes(old(indexes))
      ensures var stamp := StampOf(eventId, part);
        if stamp.Err? then Shown() == old(Shown()) && r == Err(stamp.error)
        else
          r.Ok? && (Shown(), r.value) ==
            DeleteAll(old(Shown()), KeysWhere(old(Shown()), ByValue(old(indexes)[i].valueOf, value)), stamp.value)
    {
      var stamp := StampOf(eventId, part);
      if stamp.Err? {
        return Err(stamp.error);
      }
      var keys := KeysOf(i, value);
      var removed := DeleteEach(keys, stamp.value);
      return Ok(removed);
    }
  }

  function ByValue<I, V(==)>(valueOf: I -> V, value: V): I -> bool { (item: I) => valueOf(item) == value }

  lemma {:induction false} SortedInsert<K, I>(entries: map<K, Entry<I>>, order: seq<K>, keys: seq<K>, key: K, at: nat)
    requires Placed(entries, order) && Sorted(entries, keys) && key in entries && key !in keys && at <= |keys|
    requires forall j | 0 <= j < at :: entries[keys[j]].position < entries[key].position
    requires at < |keys| ==> entries[keys[at]].position >= entries[key].position
    ensures Sorted(entries, keys[..at] + [key] + keys[at..])
    ensures forall k :: k in keys[..at] + [key] + keys[at..] <==> k in keys || k == key
  {
    HoldsOneMore(keys, key, at);
    if at < |keys| {
      assert order[entries[keys[at]].position] == keys[at] && order[entries[key].position] == key;
      assert keys[at] in keys;
    }
  }

  lemma {:induction false} HoldsOneMore<K>(keys: seq<K>, key: K, at: nat)
    requires at <= |keys|
    ensures forall k :: k in keys[..at] + [key] + keys[at..] <==> k in keys || k == key
  {
    assert keys == keys[..at] + keys[at..];
  }

  /** The keys of exactly the matching items among the first places, sorted. */
  ghost predicate AreMatching<K, I>(entries: map<K, Entry<I>>, keys: seq<K>, matches: I -> bool, n: nat) {
    && Sorted(entries, keys)
    && (forall i | 0 <= i < |keys| :: entries[keys[i]].position < n && matches(entries[keys[i]].item))
    && (forall key | key in entries && entries[key].position < n && matches(entries[key].item) :: key in keys)
  }

  lemma {:induction false} NothingMatches<K, I>(entries: map<K, Entry<I>>, matches: I -> bool)
    ensures AreMatching(entries, [], matches, 0)
  {
  }

  lemma {:induction false} KeysWhereIsSorted<K, I>(entries: map<K, Entry<I>>, order: seq<K>, matches: I -> bool, n: nat)
    requires Placed(entries, order) && n <= |order|
    ensures AreMatching(entries, KeysWhere(Live(entries, order, n), matches), matches, n)
  {
    hide AreMatching;
    if n == 0 {
      NothingMatches(entries, matches);
    } else {
      KeysWhereIsSorted(entries, order, matches, n - 1);
      var before := Live(entries, order, n - 1);
      var last := if IsLive(entries, order[n - 1], n - 1) then [SlotAt(entries, order[n - 1])] else [];
      KeysWhereAppend(before, last, matches);
      assert last != [] ==> last[1..] == [];
      assert KeysWhere(last, matches) == if last != [] && matches(last[0].item) then [order[n - 1]] else [];
      OneMoreMatching(entries, order, KeysWhere(before, matches), matches, n);
    }
  }

  lemma {:induction false} OneMoreMatching<K, I>(
      entries: map<K, Entry<I>>, order: seq<K>, keys: seq<K>, matches: I -> bool, n: nat)
    requires Placed(entries, order) && 0 < n <= |order| && AreMatching(entries, keys, matches, n - 1)
    ensures var key := order[n - 1];
      AreMatching(entries, keys + (if IsLive(entries, key, n - 1) && matches(entries[key].item) then [key] else []),
          matches, n)
  {
    var key := order[n - 1];
    var more := if IsLive(entries, key, n - 1) && matches(entries[key].item) then [key] else [];
    forall k | k in entries && entries[k].position < n && matches(entries[k].item) ensures k in keys + more {
      assert entries[k].position == n - 1 ==> k == key;
    }
  }

  /** The items under the matching keys are the matching items. */
  lemma {:induction false} ItemsOfKeys<K, I>(
      entries: map<K, Entry<I>>, c: Contents<K, I>, matches: I -> bool, items: seq<I>, n: nat)
    requires forall i | 0 <= i < |c| :: IsSlot(entries, c[i], n)
    requires |items| == |KeysWhere(c, matches)|
    requires forall j | 0 <= j < |items| ::
      KeysWhere(c, matches)[j] in entries && items[j] == entries[KeysWhere(c, matches)[j]].item
    ensures items == Filter(matches, Items(c))
  {
    if c != [] {
      assert Items(c) == [c[0].item] + Items(c[1..]);
      assert IsSlot(entries, c[0], n);
      var rest := KeysWhere(c[1..], matches);
      if matches(c[0].item) {
        assert KeysWhere(c, matches) == [c[0].key] + rest;
        assert forall j | 0 <= j < |rest| :: rest[j] == KeysWhere(c, matches)[j + 1];
        ItemsOfKeys(entries, c[1..], matches, items[1..], n);
        assert items == [items[0]] + items[1..];
      } else {
        assert KeysWhere(c, matches) == rest;
        ItemsOfKeys(entries, c[1..], matches, items, n);
      }
    }
  }

  /** kept are the keys of what is live among the first places. */
  ghost predicate ShownPart<K, I>(entries: map<K, Entry<I>>, order: seq<K>, n: nat, kept: seq<K>)
    requires n <= |order|
  {
    |kept| <= n && |kept| == |Live(entries, order, n)| && forall i | 0 <= i < |kept| ::
      kept[i] == Live(entries, order, n)[i].key
  }

  /** The entries at the first places know their place in kept, and the others
      are as they were. */
  ghost predicate Renumbered<K, I>(entries: map<K, Entry<I>>, after: map<K, Entry<I>>, n: nat, kept: seq<K>) {
    && after.Keys == entries.Keys
    && (forall key | key in entries && entries[key].position >= n :: after[key] == entries[key])
    && (forall key | key in entries && entries[key].position < n ::
          && after[key] == entries[key].(position := after[key].position)
          && after[key].position < |kept| && kept[after[key].position] == key)
  }

  lemma {:induction false} CompactStep<K, I>(
      entries: map<K, Entry<I>>, order: seq<K>, n: nat, after: map<K, Entry<I>>, kept: seq<K>)
    requires n < |order| && Placed(entries, order) && ShownPart(entries, order, n, kept) &&
      Renumbered(entries, after, n, kept)
    ensures var key := order[n];
      if IsLive(after, key, n) then
        && ShownPart(entries, order, n + 1, kept + [key])
        && Renumbered(entries, after[key := after[key].(position := |kept|)], n + 1, kept + [key])
      else ShownPart(entries, order, n + 1, kept) && Renumbered(entries, after, n + 1, kept)
  {
    var key := order[n];
    assert IsLive(after, key, n) <==> IsLive(entries, key, n);
    if IsLive(entries, key, n) {
      assert Live(entries, order, n + 1) == Live(entries, order, n) + [SlotAt(entries, key)];
    } else {
      assert Live(entries, order, n + 1) == Live(entries, order, n) + [];
    }
  }

  lemma {:induction false} RenumberedIsCompacted<K(!new), I>(
      entries: map<K, Entry<I>>, order: seq<K>, after: map<K, Entry<I>>, kept: seq<K>)
    requires Placed(entries, order) && ShownPart(entries, order, |order|, kept) &&
      Renumbered(entries, after, |order|, kept)
    ensures Placed(after, kept) && Live(after, kept, |kept|) == Live(entries, order, |order|) && |kept| == |after|
    ensures forall key | key in entries :: after[key].item == entries[key].item
  {
    var c := Live(entries, order, |order|);
    LiveIsEntries(entries, order, |order|);
    LiveDistinct(entries, order);
    forall i | 0 <= i < |kept| ensures kept[i] in entries && after[kept[i]] == entries[kept[i]].(position := i) {
      assert IsSlot(entries, c[i], |order|);
      var p := after[kept[i]].position;
      assert c[p].key == kept[p] == c[i].key;
    }
    Compacted(entries, order, after, kept);
    LiveCount(entries, order);
    assert |after| == |after.Keys| == |entries.Keys| == |entries|;
  }

  lemma {:induction false} NothingWhere<K, I>(entries: map<K, Entry<I>>, order: seq<K>, matches: I -> bool)
    ensures KeysWhere(Live(entries, order, 0), matches) == []
  {
  }

  lemma {:induction false} KeysWhereOneMore<K, I>(
      entries: map<K, Entry<I>>, order: seq<K>, n: nat, matches: I -> bool)
    requires n < |order|
    ensures var key, keys := order[n], KeysWhere(Live(entries, order, n), matches);
      KeysWhere(Live(entries, order, n + 1), matches) ==
        if IsLive(entries, key, n) && matches(entries[key].item) then keys + [key] else keys
  {
    var key, before := order[n], Live(entries, order, n);
    if IsLive(entries, key, n) {
      var last := [SlotAt(entries, key)];
      assert last[1..] == [];
      KeysWhereAppend(before, last, matches);
      var keys := KeysWhere(before, matches);
      assert keys + [] == keys;
    } else {
      assert before + [] == before;
    }
  }

  lemma {:induction false} AllAgreeMoved<K(!new), I, V(!new)>(
      indexes: seq<Index<K, I, V>>, entries: map<K, Entry<I>>, after: map<K, Entry<I>>)
    requires after.Keys == entries.Keys && forall i | 0 <= i < |indexes| :: Agrees(indexes[i], entries)
    requires forall key | key in entries :: after[key].item == entries[key].item
    ensures forall i | 0 <= i < |indexes| :: Agrees(indexes[i], after)
  {
    forall i | 0 <= i < |indexes| ensures Agrees(indexes[i], after) {
      AgreesMoved(indexes[i], entries, after);
    }
  }

  lemma {:induction false} KeysWhereAppend<K, I>(c: Contents<K, I>, d: Contents<K, I>, matches: I -> bool)
    ensures KeysWhere(c + d, matches) == KeysWhere(c, matches) + KeysWhere(d, matches)
  {
    if c == [] {
      assert c + d == d;
      assert [] + KeysWhere(d, matches) == KeysWhere(d, matches);
    } else {
      var first := if matches(c[0].item) then [c[0].key] else [];
      assert (c + d)[0] == c[0] && (c + d)[1..] == c[1..] + d;
      KeysWhereAppend(c[1..], d, matches);
      Associates(first, KeysWhere(c[1..], matches), KeysWhere(d, matches));
    }
  }
}
