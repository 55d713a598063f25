/** What the operations of a view do to it as a map from keys to items: to the items they
    are about, to the others, and with several items at once
    (architecturekit/in_memory_view.go). */
module ViewEffects {
  import opened Basics
  import opened Revisions
  import opened ViewModel
  import opened ViewHistory

  /** What a view knows of one item. */
  datatype Known<I> = Known(item: I, revision: nat, part: nat)

  function KnownOf<K, I>(slot: Slot<K, I>): Known<I> { Known(slot.item, slot.revision, slot.part) }

  ghost predicate HasKey<K, I>(c: Contents<K, I>, key: K) { exists i | 0 <= i < |c| :: c[i].key == key }

  /** The map and the contents say the same of every key. */
  ghost predicate IsMapOf<K(!new), I>(m: map<K, Known<I>>, c: Contents<K, I>) {
    && (forall i | 0 <= i < |c| :: c[i].key in m && m[c[i].key] == KnownOf(c[i]))
    && (forall key <- m :: HasKey(c, key))
  }

  /** The event is newer than what changed the item last: it has a higher ID, or it is a
      later part of the same event. */
  predicate Concerns<I>(stamp: Stamp, known: Known<I>) {
    known.revision < stamp.number || (known.revision == stamp.number && known.part < stamp.part)
  }

  /** An item as it is stored: RevisionIn writes the ID of the event into it. */
  function Written<K, I>(config: Config<K, I>, item: I, stamp: Stamp): Known<I> {
    Known(if config.revisionIn.Some? then config.revisionIn.value(item, stamp.id) else item, stamp.number, stamp.part)
  }

  function CopyOf<K, I>(config: Config<K, I>, item: I): I {
    if config.clone.Some? then config.clone.value(item) else item
  }

  /** What a change leaves of an item: the changed copy if the event is newer. */
  function Changed<K, I>(config: Config<K, I>, known: Known<I>, stamp: Stamp, change: I -> I): Known<I> {
    if Concerns(stamp, known) then Written(config, change(CopyOf(config, known.item)), stamp) else known
  }

  predicate MovesKey<K(==), I>(config: Config<K, I>, key: K, known: Known<I>, stamp: Stamp, change: I -> I) {
    Concerns(stamp, known) && config.keyOf(change(CopyOf(config, known.item))) != key
  }

  // ----- One item -----

  lemma {:induction false} FoundAt<K(!new), I>(c: Contents<K, I>, m: map<K, Known<I>>, key: K)
    requires Distinct(c) && IsMapOf(m, c)
    ensures IndexOf(c, key).Some? <==> key in m
    ensures key in m ==> m[key] == KnownOf(c[IndexOf(c, key).value])
  {
    if key in m {
      assert HasKey(c, key);
    }
  }

  lemma {:induction false} MapOfMore<K(!new), I>(c: Contents<K, I>, m: map<K, Known<I>>, slot: Slot<K, I>)
    requires IsMapOf(m, c) && slot.key !in m
    ensures IsMapOf(m[slot.key := KnownOf(slot)], c + [slot])
  {
    var d, n := c + [slot], m[slot.key := KnownOf(slot)];
    assert d[|c|] == slot;
    forall key | key in n ensures HasKey(d, key) {
      if key in m {
        var i :| 0 <= i < |c| && c[i].key == key;
        assert d[i].key == key;
      }
    }
  }

  lemma {:induction false} MapOfChanged<K(!new), I>(c: Contents<K, I>, m: map<K, Known<I>>, i: nat, slot: Slot<K, I>)
    requires Distinct(c) && IsMapOf(m, c) && i < |c| && slot.key == c[i].key
    ensures IsMapOf(m[slot.key := KnownOf(slot)], c[i := slot]) && Distinct(c[i := slot])
  {
    var d, n := c[i := slot], m[slot.key := KnownOf(slot)];
    forall key | key in n ensures HasKey(d, key) {
      var j :| 0 <= j < |c| && c[j].key == key;
      assert d[j].key == key;
    }
  }

  lemma {:induction false} MapOfLess<K(!new), I>(c: Contents<K, I>, m: map<K, Known<I>>, i: nat)
    requires Distinct(c) && IsMapOf(m, c) && i < |c|
    ensures IsMapOf(m - {c[i].key}, c[..i] + c[i + 1..]) && Distinct(c[..i] + c[i + 1..])
  {
    var d, n := c[..i] + c[i + 1..], m - {c[i].key};
    RemovedAt(c, d, i);
    forall key | key in n ensures HasKey(d, key) {
      var j :| 0 <= j < |c| && c[j].key == key;
      assert d[if j < i then j else j - 1].key == key;
    }
  }

  /** An item is inserted exactly under a key that is free, and nothing else changes. */
  lemma {:induction false} InsertsOne<K(!new), I>(
      config: Config<K, I>, c: Contents<K, I>, m: map<K, Known<I>>, stamp: Stamp, item: I)
    requires Distinct(c) && IsMapOf(m, c)
    ensures var (d, r), key := Insert(config, c, stamp, item), config.keyOf(item);
      && (key !in m ==> IsMapOf(m[key := Written(config, item, stamp)], d) && r == Ok(Added))
      && (key in m ==> d == c && r == if Concerns(stamp, m[key]) then Err(KeyTaken) else Ok(AlreadyApplied))
  {
    var key := config.keyOf(item);
    FoundAt(c, m, key);
    if key !in m {
      MapOfMore(c, m, SlotOf(config, key, item, stamp));
    }
  }

  /** A change reaches exactly the item with the key, if the event is newer and the key
      stays. */
  lemma {:induction false} ChangesOne<K(!new), I>(
      config: Config<K, I>, c: Contents<K, I>, m: map<K, Known<I>>, key: K, stamp: Stamp, change: I -> I)
    requires Distinct(c) && IsMapOf(m, c)
    ensures var (d, r) := Change(config, c, key, stamp, change);
      && Distinct(d)
      && (key !in m ==> d == c && r == Ok(Missing))
      && (key in m && MovesKey(config, key, m[key], stamp, change) ==> d == c && r == Err(KeyChanged))
      && (key in m && !MovesKey(config, key, m[key], stamp, change) ==>
            && IsMapOf(m[key := Changed(config, m[key], stamp, change)], d)
            && r == Ok(if Concerns(stamp, m[key]) then Applied else AlreadyApplied))
  {
    FoundAt(c, m, key);
    if key in m && Concerns(stamp, m[key]) {
      var i := IndexOf(c, key).value;
      MapOfChanged(c, m, i, SlotOf(config, key, change(CopyOf(config, c[i].item)), stamp));
    } else if key in m {
      assert m[key := m[key]] == m;
    }
  }

  /** An upsert changes the item with the key, or makes one of the zero value. */
  lemma {:induction false} UpsertsOne<K(!new), I>(
      config: Config<K, I>, c: Contents<K, I>, m: map<K, Known<I>>, zero: I, key: K, stamp: Stamp, change: I -> I)
    requires Distinct(c) && IsMapOf(m, c)
    ensures var (d, r) := Upsert(config, c, zero, key, stamp, change);
      && (key in m ==> (d, r) == Change(config, c, key, stamp, change))
      && (key !in m && config.keyOf(change(zero)) != key ==> d == c && r == Err(KeyChanged))
      && (key !in m && config.keyOf(change(zero)) == key ==>
            IsMapOf(m[key := Written(config, change(zero), stamp)], d) && r == Ok(Added))
  {
    FoundAt(c, m, key);
    if key !in m {
      MapOfMore(c, m, SlotOf(config, key, change(zero), stamp));
    }
  }

  /** A removal removes exactly the item with the key, if the event is newer. */
  lemma {:induction false} DeletesTheOne<K(!new), I>(c: Contents<K, I>, m: map<K, Known<I>>, key: K, stamp: Stamp)
    requires Distinct(c) && IsMapOf(m, c)
    ensures var (d, outcome) := Delete(c, key, stamp);
      && Distinct(d)
      && IsMapOf(if key in m && Concerns(stamp, m[key]) then m - {key} else m, d)
      && outcome == if key !in m then Missing else if Concerns(stamp, m[key]) then Applied else AlreadyApplied
  {
    FoundAt(c, m, key);
    if key in m && Concerns(stamp, m[key]) {
      MapOfLess(c, m, IndexOf(c, key).value);
    }
  }

  // ----- Several items at once -----

  ghost predicate AllDistinct<K>(keys: seq<K>) { forall i, j | 0 <= i < j < |keys| :: keys[i] != keys[j] }

  /** The keys of the matching items, each once. */
  lemma {:induction false} KeysOfMatching<K(!new), I>(c: Contents<K, I>, matches: I -> bool)
    requires Distinct(c)
    ensures AllDistinct(KeysWhere(c, matches))
    ensures forall key :: key in KeysWhere(c, matches) <==> IsMatching(c, matches, key)
  {
    if c != [] {
      var rest := c[1..];
      KeysOfMatching(rest, matches);
      assert forall i | 0 <= i < |rest| :: rest[i] == c[i + 1];
      assert !IsMatching(rest, matches, c[0].key);
      forall key ensures key in KeysWhere(c, matches) <==> IsMatching(c, matches, key) {
        if i :| 0 <= i < |c| && c[i].key == key && matches(c[i].item) {
          assert i > 0 ==> rest[i - 1].key == key;
        }
      }
    }
  }

  /** They come in the order of the view. */
  lemma {:induction false} KeysInOrder<K(!new), I>(c: Contents<K, I>, matches: I -> bool, i: nat, j: nat)
    requires Distinct(c) && i < j < |KeysWhere(c, matches)|
    ensures var keys := KeysWhere(c, matches);
      exists a, b | 0 <= a < b < |c| :: c[a].key == keys[i] && c[b].key == keys[j]
  {
    var rest, keys := c[1..], KeysWhere(c, matches);
    var skipped := if matches(c[0].item) then 1 else 0;
    assert forall k | 0 <= k < |rest| :: rest[k] == c[k + 1];
    assert keys[skipped..] == KeysWhere(rest, matches);
    if i < skipped {
      KeysOfMatching(rest, matches);
      assert keys[j] in KeysWhere(rest, matches);
      var b :| 0 <= b < |rest| && rest[b].key == keys[j];
      assert c[0].key == keys[i] && c[b + 1].key == keys[j];
    } else {
      KeysInOrder(rest, matches, i - skipped, j - skipped);
      var a, b :| 0 <= a < b < |rest| && rest[a].key == keys[i] && rest[b].key == keys[j];
      assert c[a + 1].key == keys[i] && c[b + 1].key == keys[j];
    }
  }

  ghost predicate IsMatching<K, I>(c: Contents<K, I>, matches: I -> bool, key: K) {
    exists i | 0 <= i < |c| :: c[i].key == key && matches(c[i].item)
  }

  lemma {:induction false} MatchingByMap<K(!new), I>(
      c: Contents<K, I>, m: map<K, Known<I>>, matches: I -> bool, key: K)
    requires Distinct(c) && IsMapOf(m, c)
    ensures key in KeysWhere(c, matches) <==> key in m && matches(m[key].item)
  {
    KeysOfMatching(c, matches);
    if key in m {
      var i :| 0 <= i < |c| && c[i].key == key;
    }
  }

  ghost function ChangedUnder<K, I>(
      config: Config<K, I>, m: map<K, Known<I>>, keys: seq<K>, stamp: Stamp, change: I -> I): map<K, Known<I>>
  {
    map key <- m :: if key in keys then Changed(config, m[key], stamp, change) else m[key]
  }

  ghost predicate MovesAny<K, I>(
      config: Config<K, I>, m: map<K, Known<I>>, keys: seq<K>, stamp: Stamp, change: I -> I)
  {
    exists key <- keys :: key in m && MovesKey(config, key, m[key], stamp, change)
  }

  /** The keys of the items that the event is newer than. */
  ghost function Concerned<K, I>(m: map<K, Known<I>>, keys: seq<K>, stamp: Stamp): set<K> {
    set key | key in keys && key in m && Concerns(stamp, m[key])
  }

  lemma {:induction false} ConcernedOneMore<K, I>(
      m: map<K, Known<I>>, next: map<K, Known<I>>, keys: seq<K>, stamp: Stamp)
    requires keys != [] && AllDistinct(keys)
    requires forall key <- keys[1..] :: (key in m <==> key in next) && (key in m ==> m[key] == next[key])
    ensures |Concerned(m, keys, stamp)| == |Concerned(next, keys[1..], stamp)| +
      if keys[0] in m && Concerns(stamp, m[keys[0]]) then 1 else 0
  {
    hide Concerns;
    var key, rest := keys[0], Concerned(next, keys[1..], stamp);
    assert forall k :: k in keys <==> k == key || k in keys[1..];
    assert key !in keys[1..];
    assert Concerned(m, keys, stamp) == if key in m && Concerns(stamp, m[key]) then rest + {key} else rest;
  }

  lemma {:induction false} ChangesAll<K(!new), I>(
      config: Config<K, I>, c: Contents<K, I>, m: map<K, Known<I>>, keys: seq<K>, stamp: Stamp, change: I -> I)
    requires Distinct(c) && IsMapOf(m, c) && AllDistinct(keys)
    ensures var (d, n, err) := ChangeAll(config, c, keys, stamp, change);
      if MovesAny(config, m, keys, stamp, change) then err == Some(KeyChanged)
      else
        && err.None? && n == |Concerned(m, keys, stamp)|
        && IsMapOf(ChangedUnder(config, m, keys, stamp, change), d)
    decreases |keys|
  {
    hide Change, MovesKey, Changed, IsMapOf, Distinct;
    if keys == [] {
      assert ChangedUnder(config, m, keys, stamp, change) == m && Concerned(m, keys, stamp) == {};
    } else {
      var key, rest := keys[0], keys[1..];
      ChangesOne(config, c, m, key, stamp, change);
      assert forall k :: k in keys <==> k == key || k in rest;
      if !(key in m && MovesKey(config, key, m[key], stamp, change)) {
        var next := if key in m then m[key := Changed(config, m[key], stamp, change)] else m;
        ChangesAll(config, Change(config, c, key, stamp, change).0, next, rest, stamp, change);
        assert forall k | k in rest :: k != key && (k in m <==> k in next) && (k in m ==> m[k] == next[k]);
        ConcernedOneMore(m, next, keys, stamp);
        assert ChangedUnder(config, next, rest, stamp, change) == ChangedUnder(config, m, keys, stamp, change);
      }
    }
  }

  /** If a change moves an item, exactly the ones before it have been changed. */
  lemma {:induction false} ChangesUpToError<K(!new), I>(
      config: Config<K, I>, c: Contents<K, I>, m: map<K, Known<I>>, keys: seq<K>, stamp: Stamp, change: I -> I)
    returns (n: nat)
    requires Distinct(c) && IsMapOf(m, c) && AllDistinct(keys) && MovesAny(config, m, keys, stamp, change)
    ensures n < |keys| && keys[n] in m && MovesKey(config, keys[n], m[keys[n]], stamp, change)
    ensures !MovesAny(config, m, keys[..n], stamp, change)
    ensures ChangeAll(config, c, keys, stamp, change) ==
      (ChangeAll(config, c, keys[..n], stamp, change).0, |Concerned(m, keys[..n], stamp)|, Some(KeyChanged))
    ensures IsMapOf(ChangedUnder(config, m, keys[..n], stamp, change),
      ChangeAll(config, c, keys, stamp, change).0)
    decreases |keys|
  {
    hide Change, MovesKey, Changed, IsMapOf, Distinct, Concerns;
    n := FirstMoved(config, m, keys, stamp, change);
    ChangesAll(config, c, m, keys[..n], stamp, change);
    ChangeAllAppend(config, c, keys[..n], keys[n..], stamp, change);
    assert keys[..n] + keys[n..] == keys && keys[n..][0] == keys[n];
    var d := ChangeAll(config, c, keys[..n], stamp, change).0;
    var m0 := ChangedUnder(config, m, keys[..n], stamp, change);
    StaysDistinct(config, c, keys[..n], stamp, change);
    assert m0[keys[n]] == m[keys[n]];
    ChangesOne(config, d, m0, keys[n], stamp, change);
  }

  lemma {:induction false} FirstMoved<K, I>(
      config: Config<K, I>, m: map<K, Known<I>>, keys: seq<K>, stamp: Stamp, change: I -> I) returns (n: nat)
    requires MovesAny(config, m, keys, stamp, change)
    ensures n < |keys| && keys[n] in m && MovesKey(config, keys[n], m[keys[n]], stamp, change)
    ensures !MovesAny(config, m, keys[..n], stamp, change)
  {
    hide MovesKey;
    if keys[0] in m && MovesKey(config, keys[0], m[keys[0]], stamp, change) {
      n := 0;
    } else {
      n := FirstMoved(config, m, keys[1..], stamp, change);
      n := n + 1;
      assert forall key | key in keys[..n] :: key == keys[0] || key in keys[1..][..n - 1];
    }
  }

  lemma {:induction false} ChangeAllAppend<K, I>(
      config: Config<K, I>, c: Contents<K, I>, a: seq<K>, b: seq<K>, stamp: Stamp, change: I -> I)
    ensures ChangeAll(config, c, a + b, stamp, change) ==
      var (d, n, err) := ChangeAll(config, c, a, stamp, change);
      if err.Some? then (d, n, err)
      else
        var (last, more, failed) := ChangeAll(config, d, b, stamp, change);
        (last, n + more, failed)
    decreases |a|
  {
    hide Change;
    if a == [] {
      assert a + b == b;
    } else {
      assert (a + b)[0] == a[0] && (a + b)[1..] == a[1..] + b;
      ChangeAllAppend(config, Change(config, c, a[0], stamp, change).0, a[1..], b, stamp, change);
    }
  }

  lemma {:induction false} StaysDistinct<K, I>(
      config: Config<K, I>, c: Contents<K, I>, keys: seq<K>, stamp: Stamp, change: I -> I)
    requires Distinct(c)
    ensures Distinct(ChangeAll(config, c, keys, stamp, change).0)
  {
    ChangeAllKeepsKeys(config, c, keys, stamp, change);
    hide ChangeAll;
  }

  /** UpdateWhere changes every item that matches, as it was before, and no other: as if
      all at once. It fails if a change would move one of them. */
  lemma {:induction false} UpdatesAtOnce<K(!new), I>(
      config: Config<K, I>, c: Contents<K, I>, m: map<K, Known<I>>, matches: I -> bool, stamp: Stamp, change: I -> I)
    requires Distinct(c) && IsMapOf(m, c)
    ensures var (d, n, err) := ChangeAll(config, c, KeysWhere(c, matches), stamp, change);
      if exists key <- m :: matches(m[key].item) && MovesKey(config, key, m[key], stamp, change)
      then err == Some(KeyChanged)
      else
        && err.None? && n == |set key <- m | matches(m[key].item) && Concerns(stamp, m[key])|
        && IsMapOf(map key <- m :: if matches(m[key].item) then Changed(config, m[key], stamp, change) else m[key], d)
  {
    hide ChangeAll, MovesKey, Changed, Concerns, IsMapOf, Distinct, KeysWhere;
    var keys := KeysWhere(c, matches);
    KeysOfMatching(c, matches);
    ChangesAll(config, c, m, keys, stamp, change);
    forall key ensures key in keys <==> key in m && matches(m[key].item) {
      MatchingByMap(c, m, matches, key);
    }
    assert Concerned(m, keys, stamp) == set key <- m | matches(m[key].item) && Concerns(stamp, m[key]);
    assert ChangedUnder(config, m, keys, stamp, change) ==
      map key <- m :: if matches(m[key].item) then Changed(config, m[key], stamp, change) else m[key];
  }

  ghost function LeftWithout<K, I>(m: map<K, Known<I>>, keys: seq<K>, stamp: Stamp): map<K, Known<I>> {
    map key <- m | !(key in keys && Concerns(stamp, m[key])) :: m[key]
  }

  lemma {:induction false} DeletesAll<K(!new), I>(
      c: Contents<K, I>, m: map<K, Known<I>>, keys: seq<K>, stamp: Stamp)
    requires Distinct(c) && IsMapOf(m, c) && AllDistinct(keys)
    ensures IsMapOf(LeftWithout(m, keys, stamp), DeleteAll(c, keys, stamp).0)
    ensures DeleteAll(c, keys, stamp).1 == |Concerned(m, keys, stamp)|
    decreases |keys|
  {
    hide Delete, Concerns, IsMapOf, Distinct;
    if keys == [] {
      assert LeftWithout(m, keys, stamp) == m && Concerned(m, keys, stamp) == {};
    } else {
      var key, rest := keys[0], keys[1..];
      DeletesTheOne(c, m, key, stamp);
      var next := if key in m && Concerns(stamp, m[key]) then m - {key} else m;
      DeletesAll(Delete(c, key, stamp).0, next, rest, stamp);
      assert forall k :: k in keys <==> k == key || k in rest;
      assert key !in rest;
      ConcernedOneMore(m, next, keys, stamp);
      assert LeftWithout(next, rest, stamp) == LeftWithout(m, keys, stamp);
    }
  }

  /** DeleteWhere removes exactly the items that match and that the event is newer than. */
  lemma {:induction false} DeletesAtOnce<K(!new), I>(
      c: Contents<K, I>, m: map<K, Known<I>>, matches: I -> bool, stamp: Stamp)
    requires Distinct(c) && IsMapOf(m, c)
    ensures IsMapOf(
      map key <- m | !(matches(m[key].item) && Concerns(stamp, m[key])) :: m[key],
      DeleteAll(c, KeysWhere(c, matches), stamp).0)
    ensures DeleteAll(c, KeysWhere(c, matches), stamp).1 ==
      |set key <- m | matches(m[key].item) && Concerns(stamp, m[key])|
  {
    hide DeleteAll, Concerns, IsMapOf, Distinct, KeysWhere;
    var keys := KeysWhere(c, matches);
    KeysOfMatching(c, matches);
    DeletesAll(c, m, keys, stamp);
    forall key ensures key in keys <==> key in m && matches(m[key].item) {
      MatchingByMap(c, m, matches, key);
    }
    assert Concerned(m, keys, stamp) == set key <- m | matches(m[key].item) && Concerns(stamp, m[key]);
    assert LeftWithout(m, keys, stamp) == map key <- m | !(matches(m[key].item) && Concerns(stamp, m[key])) :: m[key];
  }

  // ----- Every action -----

  /** What an action makes of the map, or why it fails. A failing UpdatesWhere may have
      changed some of the items before. */
  ghost predicate Does<K(!new), I>(
      config: Config<K, I>, m: map<K, Known<I>>, stamp: Stamp, action: Action<K, I>, d: Contents<K, I>,
      err: Option<ViewError>)
  {
    match action
    case Inserts(item) =>
      var key := config.keyOf(item);
      if key !in m then err.None? && IsMapOf(m[key := Written(config, item, stamp)], d)
      else IsMapOf(m, d) && err == if Concerns(stamp, m[key]) then Some(KeyTaken) else None
    case Updates(key, change) => ChangesIn(config, m, key, stamp, change, d, err)
    case Upserts(zero, key, change) =>
      if key in m then ChangesIn(config, m, key, stamp, change, d, err)
      else if config.keyOf(change(zero)) != key then IsMapOf(m, d) && err == Some(KeyChanged)
      else err.None? && IsMapOf(m[key := Written(config, change(zero), stamp)], d)
    case UpdatesWhere(matches, change) =>
      if exists key <- m :: matches(m[key].item) && MovesKey(config, key, m[key], stamp, change)
      then err == Some(KeyChanged)
      else
        && err.None?
        && IsMapOf(map key <- m :: if matches(m[key].item) then Changed(config, m[key], stamp, change) else m[key], d)
    case Deletes(key) => err.None? && IsMapOf(if key in m && Concerns(stamp, m[key]) then m - {key} else m, d)
    case DeletesWhere(matches) =>
      err.None? && IsMapOf(map key <- m | !(matches(m[key].item) && Concerns(stamp, m[key])) :: m[key], d)
  }

  ghost predicate ChangesIn<K(!new), I>(
      config: Config<K, I>, m: map<K, Known<I>>, key: K, stamp: Stamp, change: I -> I, d: Contents<K, I>,
      err: Option<ViewError>)
  {
    if key !in m then err.None? && IsMapOf(m, d)
    else if MovesKey(config, key, m[key], stamp, change) then IsMapOf(m, d) && err == Some(KeyChanged)
    else err.None? && IsMapOf(m[key := Changed(config, m[key], stamp, change)], d)
  }

  /** Every call on a view does that to it, for the event with the ID, and only an ID that
      is no revision is refused before. */
  lemma {:induction false} ActsOnMap<K(!new), I>(
      config: Config<K, I>, c: Contents<K, I>, m: map<K, Known<I>>, op: Planned<K, I>)
    requires Distinct(c) && IsMapOf(m, c)
    ensures var (d, err) := Act(config, c, op);
      match ParseRevision(op.eventId)
      case None => d == c && err == Some(ViewError.NotARevision)
      case Some(number) => Does(config, m, Stamp(op.eventId, number, op.part), op.action, d, err)
  {
    hide Insert, Change, ChangeAll, Delete, DeleteAll, KeysWhere, Distinct, IsMapOf, Changed, MovesKey, Concerns;
    hide ParseRevision;
    var number := ParseRevision(op.eventId);
    if number.Some? {
      var stamp := Stamp(op.eventId, number.value, op.part);
      match op.action
      case Inserts(item) => InsertsOne(config, c, m, stamp, item);
      case Updates(key, change) => ChangesOne(config, c, m, key, stamp, change);
      case Upserts(zero, key, change) =>
        ChangesOne(config, c, m, key, stamp, change);
        UpsertsOne(config, c, m, zero, key, stamp, change);
      case UpdatesWhere(matches, change) => UpdatesAtOnce(config, c, m, matches, stamp, change);
      case Deletes(key) => DeletesTheOne(c, m, key, stamp);
      case DeletesWhere(matches) => DeletesAtOnce(c, m, matches, stamp);
    }
  }

  // ----- The field of RevisionIn -----

  /** Reading the field that RevisionIn writes yields what it has written. */
  ghost predicate ReadsBack<K, I(!new)>(config: Config<K, I>, revisionOf: I -> string) {
    config.revisionIn.Some? &&
    forall item: I, id: string :: revisionOf(config.revisionIn.value(item, id)) == id
  }

  ghost predicate TellsRevision<K, I>(c: Contents<K, I>, revisionOf: I -> string) {
    forall i | 0 <= i < |c| :: ParseRevision(revisionOf(c[i].item)) == Some(c[i].revision)
  }

  ghost predicate IsStamp(stamp: Stamp) { ParseRevision(stamp.id) == Some(stamp.number) }

  lemma {:induction false} ChangeTellsRevision<K(!new), I(!new)>(
      config: Config<K, I>, c: Contents<K, I>, revisionOf: I -> string, key: K, stamp: Stamp, change: I -> I)
    requires ReadsBack(config, revisionOf) && TellsRevision(c, revisionOf) && IsStamp(stamp)
    ensures TellsRevision(Change(config, c, key, stamp, change).0, revisionOf)
  {
    hide ParseRevision;
  }

  lemma {:induction false} ChangeAllTellsRevision<K(!new), I(!new)>(
      config: Config<K, I>, c: Contents<K, I>, revisionOf: I -> string, keys: seq<K>, stamp: Stamp, change: I -> I)
    requires ReadsBack(config, revisionOf) && TellsRevision(c, revisionOf) && IsStamp(stamp)
    ensures TellsRevision(ChangeAll(config, c, keys, stamp, change).0, revisionOf)
    decreases |keys|
  {
    hide Change, TellsRevision, ReadsBack;
    if keys != [] {
      ChangeTellsRevision(config, c, revisionOf, keys[0], stamp, change);
      ChangeAllTellsRevision(
        config, Change(config, c, keys[0], stamp, change).0, revisionOf, keys[1..], stamp, change);
    }
  }

  lemma {:induction false} DeleteAllTellsRevision<K(!new), I>(
      c: Contents<K, I>, revisionOf: I -> string, keys: seq<K>, stamp: Stamp)
    requires TellsRevision(c, revisionOf)
    ensures TellsRevision(DeleteAll(c, keys, stamp).0, revisionOf)
    decreases |keys|
  {
    hide ParseRevision;
    if keys != [] {
      DeleteAllTellsRevision(Delete(c, keys[0], stamp).0, revisionOf, keys[1..], stamp);
    }
  }

  lemma {:induction false} ActTellsRevision<K(!new), I(!new)>(
      config: Config<K, I>, c: Contents<K, I>, revisionOf: I -> string, op: Planned<K, I>)
    requires ReadsBack(config, revisionOf) && TellsRevision(c, revisionOf)
    ensures TellsRevision(Act(config, c, op).0, revisionOf)
  {
    hide ParseRevision;
    var stamp := StampOf(op.eventId, op.part);
    if stamp.Ok? {
      match op.action
      case Updates(key, change) => ChangeTellsRevision(config, c, revisionOf, key, stamp.value, change);
      case Upserts(zero, key, change) => ChangeTellsRevision(config, c, revisionOf, key, stamp.value, change);
      case UpdatesWhere(matches, change) =>
        ChangeAllTellsRevision(config, c, revisionOf, KeysWhere(c, matches), stamp.value, change);
      case DeletesWhere(matches) => DeleteAllTellsRevision(c, revisionOf, KeysWhere(c, matches), stamp.value);
      case _ =>
    }
  }

  /** Whatever is done to a view, the field that RevisionIn names holds, in every item that
      Get and All show, the ID of the event that changed the item last. */
  lemma {:induction false} ItemsTellTheirRevision<K(!new), I(!new)>(
      config: Config<K, I>, revisionOf: I -> string, ops: seq<Planned<K, I>>)
    requires ReadsBack(config, revisionOf)
    ensures var c := DoAll(config, ops);
      forall i | 0 <= i < |c| :: ParseRevision(revisionOf(Items(c)[i])) == Some(c[i].revision)
  {
    AllTellRevision(config, revisionOf, ops);
  }

  lemma {:induction false} AllTellRevision<K(!new), I(!new)>(
      config: Config<K, I>, revisionOf: I -> string, ops: seq<Planned<K, I>>)
    requires ReadsBack(config, revisionOf)
    ensures TellsRevision(DoAll(config, ops), revisionOf)
  {
    hide Act;
    if ops != [] {
      AllTellRevision(config, revisionOf, ops[..|ops| - 1]);
      hide TellsRevision;
      ActTellsRevision(config, DoAll(config, ops[..|ops| - 1]), revisionOf, ops[|ops| - 1]);
    }
  }
}
