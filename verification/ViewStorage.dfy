/** How a view in memory stores its items: entries by key, and an order list that
    may still hold keys that were deleted since. Only the key at the position its
    entry names is live (architecturekit/in_memory_view.go). */
module ViewStorage {
  import opened ViewModel

  datatype Entry<I> = Entry(item: I, revision: nat, part: nat, position: nat)

  predicate IsLive<K(==), I>(entries: map<K, Entry<I>>, key: K, position: nat) {
    key in entries && entries[key].position == position
  }

  function SlotAt<K, I>(entries: map<K, Entry<I>>, key: K): Slot<K, I>
    requires key in entries
  {
    Slot(key, entries[key].item, entries[key].revision, entries[key].part)
  }

  /** The live slots among the first n places of the order. */
  function Live<K(==), I>(entries: map<K, Entry<I>>, order: seq<K>, n: nat): Contents<K, I>
    requires n <= |order|
  {
    if n == 0 then []
    else
      Live(entries, order, n - 1) + if IsLive(entries, order[n - 1], n - 1) then [SlotAt(entries, order[n - 1])] else []
  }

  /** Every entry knows where its key is. */
  ghost predicate Placed<K, I>(entries: map<K, Entry<I>>, order: seq<K>) {
    forall key | key in entries :: entries[key].position < |order| && order[entries[key].position] == key
  }

  ghost predicate IsSlot<K, I>(entries: map<K, Entry<I>>, slot: Slot<K, I>, n: nat) {
    slot.key in entries && entries[slot.key].position < n && slot == SlotAt(entries, slot.key)
  }

  /** The live slots are the entries, each once, by position. */
  ghost predicate AreEntries<K, I>(entries: map<K, Entry<I>>, c: Contents<K, I>, n: nat) {
    && (forall i | 0 <= i < |c| :: IsSlot(entries, c[i], n))
    && (forall i, j | 0 <= i < j < |c| :: entries[c[i].key].position < entries[c[j].key].position)
    && (forall key | key in entries && entries[key].position < n :: exists i :: 0 <= i < |c| && c[i].key == key)
  }

  lemma {:induction false} LiveIsEntries<K, I>(entries: map<K, Entry<I>>, order: seq<K>, n: nat)
    requires Placed(entries, order) && n <= |order|
    ensures AreEntries(entries, Live(entries, order, n), n)
  {
    if n > 0 {
      LiveIsEntries(entries, order, n - 1);
      OneMoreIsEntries(entries, order, n, Live(entries, order, n - 1));
    }
  }

  lemma {:induction false} OneMoreIsEntries<K, I>(
      entries: map<K, Entry<I>>, order: seq<K>, n: nat, before: Contents<K, I>)
    requires Placed(entries, order) && 0 < n <= |order| && AreEntries(entries, before, n - 1)
    ensures AreEntries(entries, before + (if IsLive(entries, order[n - 1], n - 1) then [SlotAt(entries, order[n - 1])]
      else []), n)
  {
    var live := before + if IsLive(entries, order[n - 1], n - 1) then [SlotAt(entries, order[n - 1])] else [];
    forall i | 0 <= i < |live| ensures IsSlot(entries, live[i], n) {
      assert i < |before| ==> IsSlot(entries, before[i], n - 1);
    }
    forall key | key in entries && entries[key].position < n
      ensures exists i :: 0 <= i < |live| && live[i].key == key
    {
      if entries[key].position < n - 1 {
        var i :| 0 <= i < |before| && before[i].key == key;
        assert live[i].key == key;
      } else {
        assert live[|before|].key == key;
      }
    }
  }

  /** In contents that are sorted by position, each key is once. */
  lemma {:induction false} LiveDistinct<K, I>(entries: map<K, Entry<I>>, order: seq<K>)
    requires Placed(entries, order)
    ensures Distinct(Live(entries, order, |order|))
  {
    LiveIsEntries(entries, order, |order|);
  }

  lemma {:induction false} FindLive<K, I>(entries: map<K, Entry<I>>, order: seq<K>, key: K)
    requires Placed(entries, order)
    ensures var c := Live(entries, order, |order|);
      && (key in entries <==> IndexOf(c, key).Some?)
      && (key in entries ==> c[IndexOf(c, key).value] == SlotAt(entries, key))
  {
    LiveIsEntries(entries, order, |order|);
  }

  /** What is elsewhere in the order does not matter. */
  lemma {:induction false} LiveSame<K, I>(
      a: map<K, Entry<I>>, b: map<K, Entry<I>>, order: seq<K>, longer: seq<K>, n: nat)
    requires n <= |order| && order <= longer
    requires forall i | 0 <= i < n :: IsLive(a, order[i], i) <==> IsLive(b, order[i], i)
    requires forall i | 0 <= i < n && IsLive(a, order[i], i) && IsLive(b, order[i], i) ::
      SlotAt(a, order[i]) == SlotAt(b, order[i])
    ensures Live(a, order, n) == Live(b, longer, n)
  {
    if n > 0 {
      LiveSame(a, b, order, longer, n - 1);
    }
  }

  lemma {:induction false} LiveAppend<K, I>(entries: map<K, Entry<I>>, order: seq<K>, key: K, entry: Entry<I>)
    requires Placed(entries, order) && key !in entries && entry.position == |order|
    ensures var grown := entries[key := entry];
      && Placed(grown, order + [key])
      && Live(grown, order + [key], |order| + 1) == Live(entries, order, |order|) + [SlotAt(grown, key)]
  {
    LiveSame(entries, entries[key := entry], order, order + [key], |order|);
  }

  /** A changed entry stays where it is. */
  lemma {:induction false} LiveUpdate<K, I>(entries: map<K, Entry<I>>, order: seq<K>, key: K, entry: Entry<I>)
    requires Placed(entries, order) && key in entries && entry.position == entries[key].position
    ensures var c, after := Live(entries, order, |order|), entries[key := entry];
      && Placed(after, order) && IndexOf(c, key).Some?
      && Live(after, order, |order|) == c[IndexOf(c, key).value := SlotAt(after, key)]
  {
    var c := Live(entries, order, |order|);
    FindLive(entries, order, key);
    LiveDistinct(entries, order);
    LiveReplaced(entries, order, key, entry, |order|);
  }

  lemma {:induction false} LiveReplaced<K, I>(entries: map<K, Entry<I>>, order: seq<K>, key: K, entry: Entry<I>, n: nat)
    requires key in entries && entry.position == entries[key].position && n <= |order|
    ensures var c, d, after := Live(entries, order, n), Live(entries[key := entry], order, n), entries[key := entry];
      |d| == |c| && forall i | 0 <= i < |c| :: d[i] == if c[i].key == key then SlotAt(after, key) else c[i]
  {
    if n > 0 {
      LiveReplaced(entries, order, key, entry, n - 1);
    }
  }

  /** Without its entry, a key is no longer handed out. */
  lemma {:induction false} LiveRemove<K, I>(entries: map<K, Entry<I>>, order: seq<K>, key: K)
    requires Placed(entries, order) && key in entries
    ensures var c := Live(entries, order, |order|);
      && Placed(entries - {key}, order) && IndexOf(c, key).Some?
      && Live(entries - {key}, order, |order|) == c[..IndexOf(c, key).value] + c[IndexOf(c, key).value + 1..]
  {
    var c, p := Live(entries, order, |order|), entries[key].position;
    LiveSplit(entries, order, key, |order|);
    var before, after := Live(entries, order, p), Live(entries - {key}, order, |order|);
    FindLive(entries, order, key);
    LiveDistinct(entries, order);
    IndexIsUnique(c, |before|);
  }

  /** The slot of a key divides what is live into what is before and after. */
  lemma {:induction false} LiveSplit<K, I>(entries: map<K, Entry<I>>, order: seq<K>, key: K, n: nat)
    requires Placed(entries, order) && key in entries && entries[key].position < n <= |order|
    ensures var before, c := Live(entries, order, entries[key].position), Live(entries, order, n);
      && |before| < |c| && c[|before|] == SlotAt(entries, key)
      && Live(entries - {key}, order, n) == c[..|before|] + c[|before| + 1..]
  {
    if n - 1 > entries[key].position {
      LiveSplit(entries, order, key, n - 1);
      LiveSplitLater(entries, order, key, n);
    } else {
      LiveSplitThere(entries, order, key);
    }
  }

  lemma {:induction false} LiveSplitThere<K, I>(entries: map<K, Entry<I>>, order: seq<K>, key: K)
    requires Placed(entries, order) && key in entries
    ensures var p := entries[key].position;
      var before, c := Live(entries, order, p), Live(entries, order, p + 1);
      && |before| < |c| && c[|before|] == SlotAt(entries, key)
      && Live(entries - {key}, order, p + 1) == c[..|before|] + c[|before| + 1..]
  {
    var p := entries[key].position;
    var before, c := Live(entries, order, p), Live(entries, order, p + 1);
    LiveSame(entries, entries - {key}, order, order, p);
    assert c == before + [SlotAt(entries, key)];
    assert Live(entries - {key}, order, p + 1) == before + [];
  }

  lemma {:induction false} LiveSplitLater<K, I>(entries: map<K, Entry<I>>, order: seq<K>, key: K, n: nat)
    requires Placed(entries, order) && key in entries && entries[key].position < n - 1 < |order|
    requires var before, c := Live(entries, order, entries[key].position), Live(entries, order, n - 1);
      && |before| < |c| && c[|before|] == SlotAt(entries, key)
      && Live(entries - {key}, order, n - 1) == c[..|before|] + c[|before| + 1..]
    ensures var before, c := Live(entries, order, entries[key].position), Live(entries, order, n);
      && |before| < |c| && c[|before|] == SlotAt(entries, key)
      && Live(entries - {key}, order, n) == c[..|before|] + c[|before| + 1..]
  {
    var before, shorter := |Live(entries, order, entries[key].position)|, Live(entries, order, n - 1);
    var last := if IsLive(entries, order[n - 1], n - 1) then [SlotAt(entries, order[n - 1])] else [];
    assert Live(entries, order, n) == shorter + last;
    assert Live(entries - {key}, order, n) == (shorter[..before] + shorter[before + 1..]) + last;
    hide Live;
    RemoveThenAppend(shorter, before, last);
  }

  lemma {:induction false} RemoveThenAppend<T>(s: seq<T>, i: nat, last: seq<T>)
    requires i < |s|
    ensures (s[..i] + s[i + 1..]) + last == (s + last)[..i] + (s + last)[i + 1..] && (s + last)[i] == s[i]
  {
  }

  // ----- Compaction -----

  /** An order that holds just the live keys, and entries that know their place
      in it, have the same contents. */
  lemma {:induction false} Compacted<K, I>(
      entries: map<K, Entry<I>>, order: seq<K>, after: map<K, Entry<I>>, kept: seq<K>)
    requires Placed(entries, order) && after.Keys == entries.Keys
    requires |kept| == |Live(entries, order, |order|)|
    requires forall i | 0 <= i < |kept| ::
      && kept[i] == Live(entries, order, |order|)[i].key
      && kept[i] in entries && after[kept[i]] == entries[kept[i]].(position := i)
    ensures Placed(after, kept) && Live(after, kept, |kept|) == Live(entries, order, |order|)
  {
    LiveIsEntries(entries, order, |order|);
    var c := Live(entries, order, |order|);
    hide Live;
    StaysPlaced(entries, after, kept, c);
    forall i | 0 <= i < |kept| ensures IsLive(after, kept[i], i) && SlotAt(after, kept[i]) == c[i] {
      assert IsSlot(entries, c[i], |order|);
    }
    hide IsSlot, Placed, IsLive, SlotAt;
    AllLive(after, kept, c, |kept|);
    assert c[..|kept|] == c;
  }

  lemma {:induction false} StaysPlaced<K, I>(
      entries: map<K, Entry<I>>, after: map<K, Entry<I>>, kept: seq<K>, c: Contents<K, I>)
    requires after.Keys == entries.Keys && |kept| == |c|
    requires forall key | key in entries :: exists i :: 0 <= i < |c| && c[i].key == key
    requires forall i | 0 <= i < |kept| ::
      kept[i] == c[i].key && kept[i] in entries && after[kept[i]] == entries[kept[i]].(position := i)
    ensures Placed(after, kept)
  {
    forall key | key in after ensures after[key].position < |kept| && kept[after[key].position] == key {
      var i :| 0 <= i < |c| && c[i].key == key;
      assert kept[i] == key;
    }
  }

  lemma {:induction false} AllLive<K, I>(after: map<K, Entry<I>>, kept: seq<K>, c: Contents<K, I>, n: nat)
    requires n <= |kept| == |c|
    requires forall i | 0 <= i < |kept| :: IsLive(after, kept[i], i) && SlotAt(after, kept[i]) == c[i]
    ensures Live(after, kept, n) == c[..n]
  {
    if n > 0 {
      AllLive(after, kept, c, n - 1);
    }
  }

  /** As many slots are live as there are entries. */
  lemma {:induction false} LiveCount<K(!new), I>(entries: map<K, Entry<I>>, order: seq<K>)
    requires Placed(entries, order)
    ensures |Live(entries, order, |order|)| == |entries|
  {
    var c := Live(entries, order, |order|);
    LiveIsEntries(entries, order, |order|);
    LiveDistinct(entries, order);
    KeyCount(c);
    forall key ensures key in KeySet(c) <==> key in entries {
      if key in entries {
        var i :| 0 <= i < |c| && c[i].key == key;
      }
      if key in KeySet(c) {
        var i :| 0 <= i < |c| && c[i].key == key;
        assert IsSlot(entries, c[i], |order|);
      }
    }
    assert KeySet(c) == entries.Keys;
    assert |entries| == |entries.Keys|;
  }

  function KeySet<K, I>(c: Contents<K, I>): set<K> { set i | 0 <= i < |c| :: c[i].key }

  lemma {:induction false} KeyCount<K, I>(c: Contents<K, I>)
    requires Distinct(c)
    ensures |KeySet(c)| == |c|
  {
    if c != [] {
      var rest, last := c[..|c| - 1], c[|c| - 1].key;
      KeyCount(rest);
      assert last !in KeySet(rest);
      KeysAreOneMore(rest, c[|c| - 1]);
      assert c == rest + [c[|c| - 1]];
      hide Distinct, KeySet;
    }
  }

  lemma {:induction false} KeysAreOneMore<K, I>(c: Contents<K, I>, slot: Slot<K, I>)
    ensures KeySet(c + [slot]) == KeySet(c) + {slot.key}
  {
    assert (c + [slot])[|c|] == slot;
    forall key | key in KeySet(c) ensures key in KeySet(c + [slot]) {
      var i :| 0 <= i < |c| && c[i].key == key;
      assert (c + [slot])[i].key == key;
    }
  }

  // ----- Secondary indexes -----

  datatype Index<!K, !I, V> = Index(valueOf: I -> V, keys: map<V, set<K>>)

  function IndexAdd<K, I, V>(index: Index<K, I, V>, key: K, item: I): Index<K, I, V> {
    var value := index.valueOf(item);
    var keys := if value in index.keys then index.keys[value] else {};
    index.(keys := index.keys[value := keys + {key}])
  }

  function IndexRemove<K, I, V>(index: Index<K, I, V>, key: K, item: I): Index<K, I, V> {
    var value := index.valueOf(item);
    var keys := if value in index.keys then index.keys[value] - {key} else {};
    index.(keys := if keys == {} then index.keys - {value} else index.keys[value := keys])
  }

  predicate Holds<K, I, V>(index: Index<K, I, V>, value: V, key: K) { value in index.keys && key in index.keys[value] }

  /** An index holds every item under its value, and nothing else, neither a key
      without an entry nor a value without keys. */
  ghost predicate Agrees<K(!new), I, V(!new)>(index: Index<K, I, V>, entries: map<K, Entry<I>>) {
    && (forall value, key :: Holds(index, value, key) <==> key in entries && index.valueOf(entries[key].item) == value)
    && (forall value | value in index.keys :: index.keys[value] != {})
  }

  lemma {:induction false} AgreesAdd<K(!new), I, V(!new)>(
      index: Index<K, I, V>, entries: map<K, Entry<I>>, key: K, entry: Entry<I>)
    requires Agrees(index, entries) && key !in entries
    ensures Agrees(IndexAdd(index, key, entry.item), entries[key := entry])
  {
    var after, value := IndexAdd(index, key, entry.item), index.valueOf(entry.item);
    forall v, k ensures Holds(after, v, k) <==> Holds(index, v, k) || (v == value && k == key) {
    }
  }

  lemma {:induction false} AgreesRemove<K(!new), I, V(!new)>(index: Index<K, I, V>, entries: map<K, Entry<I>>, key: K)
    requires Agrees(index, entries) && key in entries
    ensures Agrees(IndexRemove(index, key, entries[key].item), entries - {key})
  {
    var after, value := IndexRemove(index, key, entries[key].item), index.valueOf(entries[key].item);
    assert Holds(index, value, key);
    forall v, k ensures Holds(after, v, k) <==> Holds(index, v, k) && k != key {
      assert v != value && k == key ==> !Holds(index, v, k);
    }
  }

  /** A change is a removal of the old item followed by an addition of the new
      one. */
  lemma {:induction false} AgreesChange<K(!new), I, V(!new)>(
      index: Index<K, I, V>, entries: map<K, Entry<I>>, key: K, entry: Entry<I>)
    requires Agrees(index, entries) && key in entries
    ensures Agrees(IndexAdd(IndexRemove(index, key, entries[key].item), key, entry.item), entries[key := entry])
  {
    AgreesRemove(index, entries, key);
    AgreesAdd(IndexRemove(index, key, entries[key].item), entries - {key}, key, entry);
    assert (entries - {key})[key := entry] == entries[key := entry];
  }

  /** Where an entry is does not matter to an index. */
  lemma {:induction false} AgreesMoved<K(!new), I, V(!new)>(
      index: Index<K, I, V>, entries: map<K, Entry<I>>, after: map<K, Entry<I>>)
    requires Agrees(index, entries) && after.Keys == entries.Keys
    requires forall key | key in entries :: after[key].item == entries[key].item
    ensures Agrees(index, after)
  {
  }

  // ----- Sorted keys -----

  ghost predicate Sorted<K, I>(entries: map<K, Entry<I>>, keys: seq<K>) {
    && (forall i | 0 <= i < |keys| :: keys[i] in entries)
    && (forall i, j | 0 <= i < j < |keys| :: entries[keys[i]].position < entries[keys[j]].position)
  }

  ghost predicate Among<K>(a: seq<K>, b: seq<K>) { forall i | 0 <= i < |a| :: a[i] in b }

  lemma {:induction false} TailAmong<K, I>(entries: map<K, Entry<I>>, a: seq<K>, b: seq<K>)
    requires Sorted(entries, a) && a != [] && b != [] && a[0] == b[0] && Among(a, b)
    ensures Among(a[1..], b[1..])
  {
    forall i | 0 <= i < |a[1..]| ensures a[1..][i] in b[1..] {
      assert a[i + 1] in b && a[i + 1] != a[0];
      var m :| 0 <= m < |b| && b[m] == a[i + 1];
      assert b[1..][m - 1] == b[m];
    }
  }

  lemma {:induction false} SameHead<K, I>(entries: map<K, Entry<I>>, a: seq<K>, b: seq<K>)
    requires Sorted(entries, a) && Sorted(entries, b) && Among(a, b) && Among(b, a) && a != [] && b != []
    ensures a[0] == b[0]
  {
    assert a[0] in b && b[0] in a;
    var i :| 0 <= i < |b| && b[i] == a[0];
    var j :| 0 <= j < |a| && a[j] == b[0];
    assert i == 0;
  }

  lemma {:induction false} TailSorted<K, I>(entries: map<K, Entry<I>>, a: seq<K>)
    requires Sorted(entries, a) && a != []
    ensures Sorted(entries, a[1..])
  {
  }

  /** Two lists of the same keys, both sorted by position, are the same list. */
  lemma {:induction false} SortedIsUnique<K, I>(entries: map<K, Entry<I>>, a: seq<K>, b: seq<K>)
    requires Sorted(entries, a) && Sorted(entries, b) && Among(a, b) && Among(b, a)
    ensures a == b
  {
    if a != [] && b != [] {
      SameHead(entries, a, b);
      TailSorted(entries, a);
      TailSorted(entries, b);
      TailAmong(entries, a, b);
      TailAmong(entries, b, a);
      hide Sorted, Among;
      SortedIsUnique(entries, a[1..], b[1..]);
      assert a == [a[0]] + a[1..] && b == [b[0]] + b[1..];
    } else if a != [] {
      NeedsAny(a, b);
    } else if b != [] {
      NeedsAny(b, a);
    }
  }

  lemma {:induction false} NeedsAny<K>(a: seq<K>, b: seq<K>)
    requires a != [] && Among(a, b)
    ensures b != []
  {
    assert a[0] in b;
  }
}
