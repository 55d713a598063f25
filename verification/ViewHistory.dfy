/** Sequences of operations on a view: whatever they are, the view holds what was
    inserted and not removed since, in the order of last insertion
    (architecturekit/in_memory_view.go). */
module ViewHistory {
  import opened Basics
  import opened InMemoryViews
  import opened ViewModel
  import opened ViewStorage

  /** What is done to a view, by an event and a part of it. */
  datatype Action<!K, !I> =
    | Inserts(item: I)
    | Upserts(zero: I, key: K, change: I -> I)
    | Updates(key: K, change: I -> I)
    | UpdatesWhere(matches: I -> bool, change: I -> I)
    | Deletes(key: K)
    | DeletesWhere(matches: I -> bool)

  datatype Planned<!K, !I> = Planned(eventId: string, part: nat, action: Action<K, I>)

  function Act<K(==), I>(config: Config<K, I>, c: Contents<K, I>, planned: Planned<K, I>):
    (Contents<K, I>, Option<ViewError>)
  {
    match StampOf(planned.eventId, planned.part)
    case Err(e) => (c, Some(e))
    case Ok(stamp) =>
      match planned.action
      case Inserts(item) => Plainly(Insert(config, c, stamp, item))
      case Upserts(zero, key, change) => Plainly(Upsert(config, c, zero, key, stamp, change))
      case Updates(key, change) => Plainly(Change(config, c, key, stamp, change))
      case UpdatesWhere(matches, change) =>
        var (d, _, err) := ChangeAll(config, c, KeysWhere(c, matches), stamp, change);
        (d, err)
      case Deletes(key) => (Delete(c, key, stamp).0, None)
      case DeletesWhere(matches) => (DeleteAll(c, KeysWhere(c, matches), stamp).0, None)
  }

  function Plainly<K, I>(r: (Contents<K, I>, Result<Outcome, ViewError>)): (Contents<K, I>, Option<ViewError>) {
    (r.0, if r.1.Err? then Some(r.1.error) else None)
  }

  // ----- Calls of a view -----

  /** A function of the view, or one of its indexes, by the place of the index. */
  datatype Call<!K, !I, V> =
    | Direct(action: Action<K, I>)
    | IndexUpdates(index: nat, value: V, change: I -> I)
    | IndexDeletes(index: nat, value: V)

  predicate HasIndex<K, I, V>(call: Call<K, I, V>, count: nat) { call.Direct? || call.index < count }

  /** Through an index, one changes and removes what has the value. */
  function Meaning<K, I, V(==)>(valuesOf: seq<I -> V>, call: Call<K, I, V>): Action<K, I>
    requires HasIndex(call, |valuesOf|)
  {
    match call
    case Direct(action) => action
    case IndexUpdates(i, value, change) => UpdatesWhere(ByValue(valuesOf[i], value), change)
    case IndexDeletes(i, value) => DeletesWhere(ByValue(valuesOf[i], value))
  }

  method Perform<K(==, !new), I, V(==, !new)>(
      view: InMemoryView<K, I, V>, eventId: string, part: nat, call: Call<K, I, V>)
    returns (err: Option<ViewError>)
    requires view.Valid() && HasIndex(call, |view.indexes|)
    modifies view
    ensures view.Valid() && view.ValuesOf() == old(view.ValuesOf())
    ensures (view.Shown(), err) ==
      Act(view.config, old(view.Shown()), Planned(eventId, part, Meaning(old(view.ValuesOf()), call)))
  {
    match call {
      case Direct(action) => err := PerformDirectly(view, eventId, part, action);
      case IndexUpdates(i, value, change) =>
        var _, failed := view.IndexUpdate(i, value, eventId, part, change);
        err := failed;
      case IndexDeletes(i, value) =>
        var r := view.IndexDelete(i, value, eventId, part);
        err := if r.Err? then Some(r.error) else None;
    }
  }

  method PerformDirectly<K(==, !new), I, V(==, !new)>(
      view: InMemoryView<K, I, V>, eventId: string, part: nat, action: Action<K, I>)
    returns (err: Option<ViewError>)
    requires view.Valid()
    modifies view
    ensures view.Valid() && view.ValuesOf() == old(view.ValuesOf())
    ensures (view.Shown(), err) == Act(view.config, old(view.Shown()), Planned(eventId, part, action))
  {
    hide Insert, Upsert, Change, ChangeAll, Delete, DeleteAll, KeysWhere;
    var r: Result<Outcome, ViewError>;
    match action {
      case Inserts(item) => r := view.Insert(eventId, part, item);
      case Upserts(zero, key, change) => r := view.Upsert(zero, key, eventId, part, change);
      case Updates(key, change) => r := view.Update(key, eventId, part, change);
      case UpdatesWhere(matches, change) =>
        var _, failed := view.UpdateWhere(matches, eventId, part, change);
        return failed;
      case Deletes(key) => r := view.Delete(key, eventId, part);
      case DeletesWhere(matches) =>
        var removed := view.DeleteWhere(matches, eventId, part);
        return if removed.Err? then Some(removed.error) else None;
    }
    return if r.Err? then Some(r.error) else None;
  }

  // ----- Whole histories -----

  /** What an operation reports to have added and removed. */
  function Reported<K(==), I>(config: Config<K, I>, c: Contents<K, I>, op: Planned<K, I>): seq<Happened<K>> {
    var stamp := StampOf(op.eventId, op.part);
    if stamp.Err? then []
    else
      match op.action
      case Inserts(item) =>
        if Insert(config, c, stamp.value, item).1 == Ok(Added) then [Inserted(config.keyOf(item))] else []
      case Upserts(zero, key, change) =>
        if Upsert(config, c, zero, key, stamp.value, change).1 == Ok(Added) then [Inserted(key)] else []
      case Deletes(key) => Deleted(c, [key], stamp.value)
      case DeletesWhere(matches) => Deleted(c, KeysWhere(c, matches), stamp.value)
      case _ => []
  }

  function Deleted<K(==), I>(c: Contents<K, I>, keys: seq<K>, event: Stamp): seq<Happened<K>>
    decreases |keys|
  {
    if keys == [] then []
    else
      var (next, outcome) := Delete(c, keys[0], event);
      (if outcome == Applied then [Removed(keys[0])] else []) + Deleted(next, keys[1..], event)
  }

  function DoAll<K(==), I>(config: Config<K, I>, ops: seq<Planned<K, I>>): Contents<K, I> {
    if ops == [] then [] else Act(config, DoAll(config, ops[..|ops| - 1]), ops[|ops| - 1]).0
  }

  function History<K(==), I>(config: Config<K, I>, ops: seq<Planned<K, I>>): seq<Happened<K>> {
    if ops == [] then []
    else
      var earlier := ops[..|ops| - 1];
      History(config, earlier) + Reported(config, DoAll(config, earlier), ops[|ops| - 1])
  }

  ghost predicate SameKeys<K, I>(c: Contents<K, I>, d: Contents<K, I>) {
    |d| == |c| && forall i | 0 <= i < |c| :: d[i].key == c[i].key
  }

  lemma {:induction false} ChangeAllKeepsKeys<K, I>(
      config: Config<K, I>, c: Contents<K, I>, keys: seq<K>, event: Stamp, change: I -> I)
    ensures SameKeys(c, ChangeAll(config, c, keys, event, change).0)
    decreases |keys|
  {
    if keys != [] {
      ChangeAllKeepsKeys(config, Change(config, c, keys[0], event, change).0, keys[1..], event, change);
    }
  }

  lemma {:induction false} DeleteOneInOrder<K(!new), I>(
      history: seq<Happened<K>>, c: Contents<K, I>, key: K, event: Stamp)
    requires Distinct(c) && InOrderOfLastInsertion(history, c)
    ensures var (next, outcome) := Delete(c, key, event);
      Distinct(next) &&
      InOrderOfLastInsertion(history + (if outcome == Applied then [Removed(key)] else []), next)
  {
    hide InOrderOfLastInsertion, Distinct, LastInsertion;
    var (next, outcome) := Delete(c, key, event);
    OrderIsKept(history, c, next, if outcome == Applied then [Removed(key)] else []);
  }

  lemma {:induction false} DeleteAllInOrder<K(!new), I>(
      history: seq<Happened<K>>, c: Contents<K, I>, keys: seq<K>, event: Stamp)
    requires Distinct(c) && InOrderOfLastInsertion(history, c)
    ensures var d := DeleteAll(c, keys, event).0;
      Distinct(d) && InOrderOfLastInsertion(history + Deleted(c, keys, event), d)
    decreases |keys|
  {
    hide InOrderOfLastInsertion, Distinct, Delete;
    if keys == [] {
      assert history + [] == history;
    } else {
      var (next, outcome) := Delete(c, keys[0], event);
      var now := if outcome == Applied then [Removed(keys[0])] else [];
      DeleteOneInOrder(history, c, keys[0], event);
      DeleteAllInOrder(history + now, next, keys[1..], event);
      assert history + (now + Deleted(next, keys[1..], event)) == (history + now) + Deleted(next, keys[1..], event);
    }
  }

  lemma {:induction false} ActInOrder<K(!new), I>(
      config: Config<K, I>, history: seq<Happened<K>>, c: Contents<K, I>, op: Planned<K, I>)
    requires Distinct(c) && InOrderOfLastInsertion(history, c)
    ensures var d := Act(config, c, op).0;
      Distinct(d) && InOrderOfLastInsertion(history + Reported(config, c, op), d)
  {
    hide InOrderOfLastInsertion, Distinct;
    var stamp := StampOf(op.eventId, op.part);
    if stamp.Err? {
      OrderIsKept(history, c, c, []);
    } else {
      match op.action
      case Deletes(key) =>
        DeletesOne(c, key, stamp.value);
        DeleteAllInOrder(history, c, [key], stamp.value);
      case DeletesWhere(matches) => DeleteAllInOrder(history, c, KeysWhere(c, matches), stamp.value);
      case UpdatesWhere(matches, change) =>
        ChangeAllKeepsKeys(config, c, KeysWhere(c, matches), stamp.value, change);
        OrderIsKept(history, c, Act(config, c, op).0, []);
      case _ => OrderIsKept(history, c, Act(config, c, op).0, Reported(config, c, op));
    }
  }

  lemma {:induction false} DeletesOne<K, I>(c: Contents<K, I>, key: K, event: Stamp)
    ensures DeleteAll(c, [key], event).0 == Delete(c, key, event).0
  {
    hide Delete;
    assert [key][1..] == [];
  }

  /** After every sequence of operations, the view holds exactly the live keys,
      each once, in the order of their last insertion. */
  lemma {:induction false} AllInOrderOfLastInsertion<K(!new), I>(config: Config<K, I>, ops: seq<Planned<K, I>>)
    ensures Distinct(DoAll(config, ops)) && InOrderOfLastInsertion(History(config, ops), DoAll(config, ops))
  {
    if ops != [] {
      var earlier := ops[..|ops| - 1];
      AllInOrderOfLastInsertion(config, earlier);
      ActInOrder(config, History(config, earlier), DoAll(config, earlier), ops[|ops| - 1]);
    }
  }

  /** A call with the event and the part it is for. */
  datatype Made<!K, !I, V> = Made(eventId: string, part: nat, call: Call<K, I, V>)

  function Meanings<K, I, V(==)>(valuesOf: seq<I -> V>, calls: seq<Made<K, I, V>>): seq<Planned<K, I>>
    requires forall i | 0 <= i < |calls| :: HasIndex(calls[i].call, |valuesOf|)
  {
    seq(|calls|, i requires 0 <= i < |calls| =>
      Planned(calls[i].eventId, calls[i].part, Meaning(valuesOf, calls[i].call)))
  }

  method WithIndexes<K(==, !new), I, V(==, !new)>(config: Config<K, I>, valuesOf: seq<I -> V>)
    returns (view: InMemoryView<K, I, V>)
    ensures fresh(view) && view.Valid() && view.config == config
    ensures view.Shown() == [] && view.ValuesOf() == valuesOf
  {
    hide Live, Placed, Agrees;
    view := new InMemoryView(config);
    for i := 0 to |valuesOf|
      invariant fresh(view) && view.Valid() && view.Shown() == [] && view.ValuesOf() == valuesOf[..i]
    {
      view.AddIndex(valuesOf[i]);
    }
  }

  /** A view with the given indexes, and all that is done to it over its life: it
      shows what was inserted and not removed since, each item once, in the order of
      last insertion, its indexes agree with it, and its order stays within bounds. */
  method LiveOn<K(==, !new), I, V(==, !new)>(config: Config<K, I>, valuesOf: seq<I -> V>, calls: seq<Made<K, I, V>>)
    returns (view: InMemoryView<K, I, V>)
    requires forall i | 0 <= i < |calls| :: HasIndex(calls[i].call, |valuesOf|)
    ensures fresh(view) && view.Valid() && view.config == config && view.ValuesOf() == valuesOf
    ensures view.Shown() == DoAll(config, Meanings(valuesOf, calls))
    ensures Distinct(view.Shown()) && InOrderOfLastInsertion(History(config, Meanings(valuesOf, calls)), view.Shown())
    ensures |view.order| < 2 * |view.entries| + 16
    ensures forall i | 0 <= i < |view.indexes| :: Agrees(view.indexes[i], view.entries)
  {
    view := WithIndexes(config, valuesOf);
    ghost var ops := Meanings(valuesOf, calls);
    for i := 0 to |calls|
      invariant fresh(view) && view.Valid() && view.ValuesOf() == valuesOf
      invariant view.Shown() == DoAll(config, ops[..i])
    {
      var _ := Perform(view, calls[i].eventId, calls[i].part, calls[i].call);
      assert ops[..i + 1][..i] == ops[..i];
    }
    assert ops[..|ops|] == ops;
    AllInOrderOfLastInsertion(config, ops);
  }

  // ----- Items under their keys -----

  /** What RevisionIn demands: the field it writes is not part of the key. */
  ghost predicate MarkKeepsKey<K, I(!new)>(config: Config<K, I>) {
    config.revisionIn.Some? ==>
      forall item: I, id: string :: config.keyOf(config.revisionIn.value(item, id)) == config.keyOf(item)
  }

  ghost predicate UnderOwnKeys<K, I>(config: Config<K, I>, c: Contents<K, I>) {
    forall i | 0 <= i < |c| :: config.keyOf(c[i].item) == c[i].key
  }

  lemma {:induction false} ChangeAllUnderOwnKeys<K, I(!new)>(
      config: Config<K, I>, c: Contents<K, I>, keys: seq<K>, event: Stamp, change: I -> I)
    requires MarkKeepsKey(config) && UnderOwnKeys(config, c)
    ensures UnderOwnKeys(config, ChangeAll(config, c, keys, event, change).0)
    decreases |keys|
  {
    if keys != [] {
      ChangeAllUnderOwnKeys(config, Change(config, c, keys[0], event, change).0, keys[1..], event, change);
    }
  }

  lemma {:induction false} DeleteAllUnderOwnKeys<K, I>(
      config: Config<K, I>, c: Contents<K, I>, keys: seq<K>, event: Stamp)
    requires UnderOwnKeys(config, c)
    ensures UnderOwnKeys(config, DeleteAll(c, keys, event).0)
    decreases |keys|
  {
    if keys != [] {
      DeleteAllUnderOwnKeys(config, Delete(c, keys[0], event).0, keys[1..], event);
    }
  }

  /** Every item is always found under its own key. */
  lemma {:induction false} AllUnderOwnKeys<K, I(!new)>(config: Config<K, I>, ops: seq<Planned<K, I>>)
    requires MarkKeepsKey(config)
    ensures UnderOwnKeys(config, DoAll(config, ops))
  {
    if ops != [] {
      var c, op := DoAll(config, ops[..|ops| - 1]), ops[|ops| - 1];
      AllUnderOwnKeys(config, ops[..|ops| - 1]);
      var stamp := StampOf(op.eventId, op.part);
      if stamp.Ok? {
        match op.action
        case UpdatesWhere(matches, change) =>
          ChangeAllUnderOwnKeys(config, c, KeysWhere(c, matches), stamp.value, change);
        case DeletesWhere(matches) => DeleteAllUnderOwnKeys(config, c, KeysWhere(c, matches), stamp.value);
        case _ =>
      }
    }
  }
}
