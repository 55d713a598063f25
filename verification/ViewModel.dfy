/** What a view in memory is meant to be: its live items, each under its own key,
    in the order in which they were last inserted, each with the event and the
    part that changed it last (architecturekit/in_memory_view.go). */
module ViewModel {
  import opened Basics
  import opened Revisions

  /** The event a change applies; part is its place among the events that an
      upcaster split the stored event into. */
  datatype Stamp = Stamp(id: string, number: nat, part: nat)

  datatype Outcome = Applied | Missing | AlreadyApplied | Added

  /** Every one of them belongs to ErrPermanent. */
  datatype ViewError = NotARevision | KeyTaken | KeyChanged

  datatype Config<!K, !I> = Config(keyOf: I -> K, revisionIn: Option<(I, string) -> I>, clone: Option<I -> I>)

  datatype Slot<K, I> = Slot(key: K, item: I, revision: nat, part: nat)

  type Contents<K, I> = seq<Slot<K, I>>

  function StampOf(eventId: string, part: nat): Result<Stamp, ViewError> {
    match ParseRevision(eventId)
    case None => Err(NotARevision)
    case Some(number) => Ok(Stamp(eventId, number, part))
  }

  /** A higher event ID is newer, and for the same ID a later part. */
  predicate IsNewer(event: Stamp, revision: nat, part: nat) {
    if event.number == revision then event.part > part else event.number > revision
  }

  function Marked<K, I>(config: Config<K, I>, item: I, event: Stamp): I {
    if config.revisionIn.Some? then config.revisionIn.value(item, event.id) else item
  }

  function Cloned<K, I>(config: Config<K, I>, item: I): I {
    if config.clone.Some? then config.clone.value(item) else item
  }

  ghost predicate Distinct<K, I>(c: Contents<K, I>) {
    forall i, j | 0 <= i < j < |c| :: c[i].key != c[j].key
  }

  function IndexOf<K(==), I>(c: Contents<K, I>, key: K): (i: Option<nat>)
    ensures i.Some? ==> i.value < |c| && c[i.value].key == key
    ensures i.None? ==> forall j | 0 <= j < |c| :: c[j].key != key
  {
    if c == [] then None
    else if c[0].key == key then Some(0)
    else
      match IndexOf(c[1..], key)
      case None => None
      case Some(i) => Some(i + 1)
  }

  function SlotOf<K, I>(config: Config<K, I>, key: K, item: I, event: Stamp): Slot<K, I> {
    Slot(key, Marked(config, item, event), event.number, event.part)
  }

  // ----- What every operation does to the contents -----

  function Insert<K(==), I>(
      config: Config<K, I>, c: Contents<K, I>, event: Stamp, item: I): (Contents<K, I>, Result<Outcome, ViewError>)
  {
    var key := config.keyOf(item);
    match IndexOf(c, key)
    case None => (c + [SlotOf(config, key, item, event)], Ok(Added))
    case Some(i) => (c, if IsNewer(event, c[i].revision, c[i].part) then Err(KeyTaken) else Ok(AlreadyApplied))
  }

  function Change<K(==), I>(
      config: Config<K, I>, c: Contents<K, I>, key: K, event: Stamp, change: I -> I):
    (Contents<K, I>, Result<Outcome, ViewError>)
  {
    match IndexOf(c, key)
    case None => (c, Ok(Missing))
    case Some(i) =>
      if !IsNewer(event, c[i].revision, c[i].part) then (c, Ok(AlreadyApplied))
      else
        var changed := change(Cloned(config, c[i].item));
        if config.keyOf(changed) != key then (c, Err(KeyChanged))
        else (c[i := SlotOf(config, key, changed, event)], Ok(Applied))
  }

  function Upsert<K(==), I>(
      config: Config<K, I>, c: Contents<K, I>, zero: I, key: K, event: Stamp, change: I -> I):
    (Contents<K, I>, Result<Outcome, ViewError>)
  {
    if IndexOf(c, key).Some? then Change(config, c, key, event, change)
    else
      var item := change(zero);
      if config.keyOf(item) != key then (c, Err(KeyChanged))
      else (c + [SlotOf(config, key, item, event)], Ok(Added))
  }

  function Delete<K(==), I>(c: Contents<K, I>, key: K, event: Stamp): (Contents<K, I>, Outcome) {
    match IndexOf(c, key)
    case None => (c, Missing)
    case Some(i) => if IsNewer(event, c[i].revision, c[i].part) then (c[..i] + c[i + 1..], Applied)
      else (c, AlreadyApplied)
  }

  function KeysWhere<K, I>(c: Contents<K, I>, matches: I -> bool): seq<K> {
    if c == [] then [] else (if matches(c[0].item) then [c[0].key] else []) + KeysWhere(c[1..], matches)
  }

  /** Changing several items stops at the first error, and keeps what it has
      changed before. */
  function ChangeAll<K(==), I>(config: Config<K, I>, c: Contents<K, I>, keys: seq<K>, event: Stamp, change: I -> I):
    (Contents<K, I>, nat, Option<ViewError>)
    decreases |keys|
  {
    if keys == [] then (c, 0, None)
    else
      var (next, outcome) := Change(config, c, keys[0], event, change);
      if outcome.Err? then (next, 0, Some(outcome.error))
      else
        var (last, n, err) := ChangeAll(config, next, keys[1..], event, change);
        (last, n + (if outcome.value == Applied then 1 else 0), err)
  }

  function DeleteAll<K(==), I>(c: Contents<K, I>, keys: seq<K>, event: Stamp): (Contents<K, I>, nat)
    decreases |keys|
  {
    if keys == [] then (c, 0)
    else
      var (next, outcome) := Delete(c, keys[0], event);
      var (last, n) := DeleteAll(next, keys[1..], event);
      (last, n + (if outcome == Applied then 1 else 0))
  }

  /** The items, as All hands them out. */
  function Items<K, I>(c: Contents<K, I>): seq<I> {
    seq(|c|, i requires 0 <= i < |c| => c[i].item)
  }

  // ----- Each key once, and what an item is under -----

  /** Where the slot of a key is, in contents with each key once. */
  lemma {:induction false} IndexIsUnique<K, I>(c: Contents<K, I>, i: nat)
    requires Distinct(c) && i < |c|
    ensures IndexOf(c, c[i].key) == Some(i)
  {
  }

  // ----- The order of last insertion -----

  datatype Happened<K> = Inserted(key: K) | Removed(key: K)

  /** When a key was inserted last, and whether it has stayed. */
  function LastInsertion<K(==)>(history: seq<Happened<K>>, key: K): (at: Option<nat>)
    ensures at.Some? ==> at.value < |history| && history[at.value] == Inserted(key)
  {
    if history == [] then None
    else
      var latest := history[|history| - 1];
      if latest.key == key then (if latest.Inserted? then Some(|history| - 1) else None)
      else LastInsertion(history[..|history| - 1], key)
  }

  /** The contents hold exactly the keys that were inserted and not removed since,
      in the order of their last insertion. */
  ghost predicate InOrderOfLastInsertion<K(!new), I>(history: seq<Happened<K>>, c: Contents<K, I>) {
    && (forall key: K :: LastInsertion(history, key).Some? <==> exists i :: 0 <= i < |c| && c[i].key == key)
    && (forall i | 0 <= i < |c| :: LastInsertion(history, c[i].key).Some?)
    && (forall i, j | 0 <= i < j < |c| ::
        LastInsertion(history, c[i].key).value < LastInsertion(history, c[j].key).value)
  }

  /** What an operation that turns c into d has inserted and removed. */
  ghost predicate Explains<K, I>(c: Contents<K, I>, d: Contents<K, I>, happened: seq<Happened<K>>) {
    || (happened == [] && |d| == |c| && forall i | 0 <= i < |c| :: d[i].key == c[i].key)
    || (|d| == |c| + 1 && d[..|c|] == c && IndexOf(c, d[|c|].key).None? && happened == [Inserted(d[|c|].key)])
    || (exists i :: 0 <= i < |c| && d == c[..i] + c[i + 1..] && happened == [Removed(c[i].key)])
  }

  lemma {:induction false} OneMore<K>(history: seq<Happened<K>>, latest: Happened<K>, key: K)
    ensures LastInsertion(history + [latest], key) ==
      if latest.key != key then LastInsertion(history, key) else if latest.Inserted? then Some(|history|) else None
  {
    assert (history + [latest])[..|history|] == history;
  }

  /** Whatever an operation does, the order of last insertion is kept. */
  lemma {:induction false} OrderIsKept<K(!new), I>(
      history: seq<Happened<K>>, c: Contents<K, I>, d: Contents<K, I>, happened: seq<Happened<K>>)
    requires Distinct(c) && InOrderOfLastInsertion(history, c) && Explains(c, d, happened)
    ensures InOrderOfLastInsertion(history + happened, d) && Distinct(d)
  {
    if happened == [] {
      assert history + happened == history;
      forall key ensures LastInsertion(history, key).Some? <==> exists i :: 0 <= i < |d| && d[i].key == key {
        if i :| 0 <= i < |c| && c[i].key == key { assert d[i].key == key; }
        if i :| 0 <= i < |d| && d[i].key == key { assert c[i].key == key; }
      }
    } else {
      forall key ensures LastInsertion(history + happened, key) ==
        if happened[0].key != key then LastInsertion(history, key) else if happened[0].Inserted? then Some(|history|)
          else None
      {
        OneMore(history, happened[0], key);
      }
      if happened[0].Inserted? {
        AppendedInOrder(history, c, d);
      } else {
        var i :| 0 <= i < |c| && d == c[..i] + c[i + 1..] && happened == [Removed(c[i].key)];
        RemovedInOrder(history, c, d, i);
      }
    }
  }

  lemma {:induction false} AppendedInOrder<K(!new), I>(history: seq<Happened<K>>, c: Contents<K, I>, d: Contents<K, I>)
    requires Distinct(c) && InOrderOfLastInsertion(history, c)
    requires |d| == |c| + 1 && d[..|c|] == c && IndexOf(c, d[|c|].key).None?
    ensures InOrderOfLastInsertion(history + [Inserted(d[|c|].key)], d) && Distinct(d)
  {
    hide LastInsertion;
    var newest := d[|c|].key;
    assert d == c + [d[|c|]];
    forall key
      ensures LastInsertion(history + [Inserted(newest)], key) ==
        if newest != key then LastInsertion(history, key) else Some(|history|)
    {
      OneMore(history, Inserted(newest), key);
    }
    assert d[|c|].key == newest;
    assert forall i | 0 <= i < |c| :: d[i] == c[i];
  }

  lemma {:induction false} RemovedInOrder<K(!new), I>(
      history: seq<Happened<K>>, c: Contents<K, I>, d: Contents<K, I>, i: nat)
    requires Distinct(c) && InOrderOfLastInsertion(history, c) && i < |c| && d == c[..i] + c[i + 1..]
    ensures InOrderOfLastInsertion(history + [Removed(c[i].key)], d) && Distinct(d)
  {
    var gone, longer := c[i].key, history + [Removed(c[i].key)];
    RemovedAt(c, d, i);
    forall key ensures LastInsertion(longer, key).Some? <==> exists j :: 0 <= j < |d| && d[j].key == key {
      OneMore(history, Removed(gone), key);
      RemovedMember(c, d, i, key);
    }
    forall j | 0 <= j < |d| ensures LastInsertion(longer, d[j].key) == LastInsertion(history, d[j].key) {
      OneMore(history, Removed(gone), d[j].key);
    }
  }

  lemma {:induction false} RemovedMember<K, I>(c: Contents<K, I>, d: Contents<K, I>, i: nat, key: K)
    requires Distinct(c) && i < |c| && d == c[..i] + c[i + 1..]
    ensures (exists j :: 0 <= j < |d| && d[j].key == key) <==>
      key != c[i].key && exists j :: 0 <= j < |c| && c[j].key == key
  {
    RemovedAt(c, d, i);
    if j :| 0 <= j < |d| && d[j].key == key {
      assert c[if j < i then j else j + 1].key == key;
    }
    if key != c[i].key {
      if j :| 0 <= j < |c| && c[j].key == key {
        assert d[if j < i then j else j - 1].key == key;
      }
    }
  }

  lemma {:induction false} RemovedAt<K, I>(c: Contents<K, I>, d: Contents<K, I>, i: nat)
    requires Distinct(c) && i < |c| && d == c[..i] + c[i + 1..]
    ensures |d| == |c| - 1 && Distinct(d)
    ensures forall j | 0 <= j < |d| :: d[j] == c[if j < i then j else j + 1] && d[j].key != c[i].key
  {
  }
}
