/** Typed projections, which hand every part of a stored event to a handler, and
    what applying an event again does to the view the handlers write to
    (architecturekit/typed_projection.go). */
module TypedProjections {
  import opened Basics
  import opened EventLog
  import opened Failures
  import opened Upcasting
  import opened Revisions
  import opened ViewModel
  import opened InMemoryViews
  import opened ViewHistory

  /** The handler of an event type says what is to be done for an event of it. */
  type Handlers<!K, !I> = map<string, Stored -> seq<Action<K, I>>>

  /** A handler as it is registered: it calls the view and its indexes. */
  type Callers<!K, !I, V> = map<string, Stored -> seq<Call<K, I, V>>>

  ghost predicate HaveIndexes<K, I, V>(callers: Callers<K, I, V>, count: nat) {
    forall typ <- callers, e: Stored, i | 0 <= i < |callers[typ](e)| :: HasIndex(callers[typ](e)[i], count)
  }

  ghost function HandlersOf<K, I, V>(valuesOf: seq<I -> V>, callers: Callers<K, I, V>): Handlers<K, I>
    requires HaveIndexes(callers, |valuesOf|)
  {
    map typ <- callers :: (e: Stored) => ActionsOf(valuesOf, callers[typ](e))
  }

  function ActionsOf<K, I, V(==)>(valuesOf: seq<I -> V>, calls: seq<Call<K, I, V>>): seq<Action<K, I>> {
    seq(|calls|, i requires 0 <= i < |calls| =>
      if HasIndex(calls[i], |valuesOf|) then Meaning(valuesOf, calls[i]) else DeletesWhere(_ => false))
  }

  /** The actions in their order, up to the first error. */
  function Run<K(==), I>(
      config: Config<K, I>, c: Contents<K, I>, plan: seq<Planned<K, I>>): (Contents<K, I>, Option<ViewError>)
    decreases |plan|
  {
    if plan == [] then (c, None)
    else
      var (d, err) := Act(config, c, plan[0]);
      if err.Some? then (d, err) else Run(config, d, plan[1..])
  }

  function PlanOf<K, I>(eventId: string, part: nat, actions: seq<Action<K, I>>): seq<Planned<K, I>> {
    seq(|actions|, i requires 0 <= i < |actions| => Planned(eventId, part, actions[i]))
  }

  /** What the handlers do for the parts of an event, from a part on. A part
      without a handler is skipped. */
  function Plan<K, I>(handlers: Handlers<K, I>, parts: seq<Stored>, part: nat): seq<Planned<K, I>>
    requires part <= |parts|
    decreases |parts| - part
  {
    if part == |parts| then []
    else
      var event := parts[part];
      (if event.typ in handlers then PlanOf(Decimal(event.id), part, handlers[event.typ](event)) else [])
        + Plan(handlers, parts, part + 1)
  }

  /** What every part of an event asks of the view: its own handler, for itself. */
  ghost predicate AreParts<K, I, V>(
      valuesOf: seq<I -> V>, callers: Callers<K, I, V>, parts: seq<Stored>, pieces: seq<seq<Planned<K, I>>>)
    requires HaveIndexes(callers, |valuesOf|)
  {
    && |pieces| == |parts|
    && forall k | 0 <= k < |parts| ::
         if parts[k].typ !in callers then pieces[k] == [] else IsPart(valuesOf, callers, parts[k], k, pieces[k])
  }

  ghost predicate IsPart<K, I, V>(
      valuesOf: seq<I -> V>, callers: Callers<K, I, V>, part: Stored, k: nat, piece: seq<Planned<K, I>>)
    requires HaveIndexes(callers, |valuesOf|) && part.typ in callers
  {
    var calls := callers[part.typ](part);
    && |piece| == |calls|
    && forall j | 0 <= j < |calls| :: piece[j] == Planned(Decimal(part.id), k, Meaning(valuesOf, calls[j]))
  }

  /** The plan is what the parts ask for one after the other, in the order of the parts and
      of the calls of each, with the ID and the place of the part, and nothing else. */
  lemma {:induction false} PlanInOrder<K, I, V>(
      valuesOf: seq<I -> V>, callers: Callers<K, I, V>, parts: seq<Stored>, pieces: seq<seq<Planned<K, I>>>)
    requires HaveIndexes(callers, |valuesOf|) && AreParts(valuesOf, callers, parts, pieces)
    ensures Plan(HandlersOf(valuesOf, callers), parts, 0) == Flat(pieces)
  {
    PlanInOrderFrom(valuesOf, callers, parts, pieces, 0);
    assert pieces[0..] == pieces;
  }

  /** Every call of the handler of every part is planned, behind all that is planned for
      the parts before it, for its own part. */
  lemma {:induction false} PlannedForItsPart<K, I, V>(
      valuesOf: seq<I -> V>, callers: Callers<K, I, V>, parts: seq<Stored>, pieces: seq<seq<Planned<K, I>>>, k: nat,
      j: nat)
    requires HaveIndexes(callers, |valuesOf|) && AreParts(valuesOf, callers, parts, pieces)
    requires k < |parts| && parts[k].typ in callers && j < |callers[parts[k].typ](parts[k])|
    ensures var plan, at := Plan(HandlersOf(valuesOf, callers), parts, 0), |Flat(pieces[..k])| + j;
      at < |plan| &&
      plan[at] == Planned(Decimal(parts[k].id), k, Meaning(valuesOf, callers[parts[k].typ](parts[k])[j]))
  {
    PlanInOrder(valuesOf, callers, parts, pieces);
    hide Plan, Flat;
    assert IsPart(valuesOf, callers, parts[k], k, pieces[k]);
    FlatAt(pieces, k, j);
  }

  lemma {:induction false} PlanInOrderFrom<K, I, V>(
      valuesOf: seq<I -> V>, callers: Callers<K, I, V>, parts: seq<Stored>, pieces: seq<seq<Planned<K, I>>>, part: nat)
    requires HaveIndexes(callers, |valuesOf|) && AreParts(valuesOf, callers, parts, pieces) && part <= |parts|
    ensures Plan(HandlersOf(valuesOf, callers), parts, part) == Flat(pieces[part..])
    decreases |parts| - part
  {
    if part < |parts| {
      hide IsPart, PlanOf;
      PlanInOrderFrom(valuesOf, callers, parts, pieces, part + 1);
      PieceOfPlan(valuesOf, callers, parts[part], part, pieces[part]);
      assert pieces[part..][1..] == pieces[part + 1..];
    }
  }

  lemma {:induction false} PieceOfPlan<K, I, V>(
      valuesOf: seq<I -> V>, callers: Callers<K, I, V>, part: Stored, k: nat, piece: seq<Planned<K, I>>)
    requires HaveIndexes(callers, |valuesOf|)
    requires part.typ in callers ==> IsPart(valuesOf, callers, part, k, piece)
    ensures part.typ in callers ==>
      piece == PlanOf(Decimal(part.id), k, HandlersOf(valuesOf, callers)[part.typ](part))
  {
    hide Decimal, Meaning;
  }

  lemma {:induction false} RunAppend<K, I>(
      config: Config<K, I>, c: Contents<K, I>, a: seq<Planned<K, I>>, b: seq<Planned<K, I>>)
    ensures Run(config, c, a + b) ==
      var (d, err) := Run(config, c, a); if err.Some? then (d, err) else Run(config, d, b)
    decreases |a|
  {
    if a == [] {
      assert a + b == b;
    } else {
      assert (a + b)[0] == a[0] && (a + b)[1..] == a[1..] + b;
      RunAppend(config, Act(config, c, a[0]).0, a[1..], b);
    }
  }

  // ----- TypedProjection.Apply -----

  datatype Failed = Upcast(failure: Failure) | InView(error: ViewError)

  /** Apply upcasts the event, and hands every part to its handler, with its place
      among the parts. */
  method Apply<K(==, !new), I, V(==, !new)>(
      view: InMemoryView<K, I, V>, upcasters: Upcasters, callers: Callers<K, I, V>, event: Stored)
    returns (failed: Option<Failed>)
    requires view.Valid() && HaveIndexes(callers, |view.indexes|)
    modifies view
    ensures view.Valid() && view.ValuesOf() == old(view.ValuesOf())
    ensures var parts := Upcasting.Apply(upcasters, event);
      if parts.Err? then view.Shown() == old(view.Shown()) && failed == Some(Upcast(parts.error))
      else
        var plan := Plan(HandlersOf(view.ValuesOf(), callers), parts.value, 0);
        var (c, err) := Run(view.config, old(view.Shown()), plan);
        view.Shown() == c && failed == if err.Some? then Some(InView(err.value)) else None
  {
    var upcasted := ApplyWithBudget(upcasters, event, MAX_UPCAST_STEPS);
    if upcasted.Err? {
      return Some(Upcast(upcasted.error));
    }
    var parts := upcasted.value;
    ghost var handlers := HandlersOf(view.ValuesOf(), callers);
    hide Upcasting.Apply;
    for part := 0 to |parts|
      invariant view.Valid() && view.ValuesOf() == old(view.ValuesOf())
      invariant Run(view.config, old(view.Shown()), Plan(handlers, parts, 0))
        == Run(view.config, view.Shown(), Plan(handlers, parts, part))
    {
      if parts[part].typ in callers {
        ghost var rest := Plan(handlers, parts, part + 1);
        var calls := callers[parts[part].typ](parts[part]);
        ghost var plan := PlanOf(Decimal(parts[part].id), part, ActionsOf(view.ValuesOf(), calls));
        RunAppend(view.config, view.Shown(), plan, rest);
        var err := Handle(view, Decimal(parts[part].id), part, calls);
        if err.Some? {
          return Some(InView(err.value));
        }
      } else {
        assert Plan(handlers, parts, part) == [] + Plan(handlers, parts, part + 1) == Plan(handlers, parts, part + 1);
      }
    }
    return None;
  }

  /** A handler makes its calls one after the other, up to the first error. */
  method Handle<K(==, !new), I, V(==, !new)>(
      view: InMemoryView<K, I, V>, eventId: string, part: nat, calls: seq<Call<K, I, V>>)
    returns (err: Option<ViewError>)
    requires view.Valid() && forall i | 0 <= i < |calls| :: HasIndex(calls[i], |view.indexes|)
    modifies view
    ensures view.Valid() && view.ValuesOf() == old(view.ValuesOf())
    ensures (view.Shown(), err) ==
      Run(view.config, old(view.Shown()), PlanOf(eventId, part, ActionsOf(view.ValuesOf(), calls)))
  {
    ghost var plan := PlanOf(eventId, part, ActionsOf(view.ValuesOf(), calls));
    for i := 0 to |calls|
      invariant view.Valid() && view.ValuesOf() == old(view.ValuesOf())
      invariant Run(view.config, old(view.Shown()), plan) == Run(view.config, view.Shown(), plan[i..])
    {
      assert plan[i..][1..] == plan[i + 1..];
      err := Perform(view, eventId, part, calls[i]);
      if err.Some? {
        return;
      }
    }
    err := None;
  }

  // ----- Applying an event again -----

  /** The slot was changed by the event and part, or by something later. */
  predicate IsPast<K, I>(stamp: Stamp, slot: Slot<K, I>) { !IsNewer(stamp, slot.revision, slot.part) }

  ghost predicate HasKey<K, I>(c: Contents<K, I>, key: K) { exists i | 0 <= i < |c| :: c[i].key == key }

  ghost predicate KeyIsPast<K, I>(c: Contents<K, I>, stamp: Stamp, key: K) {
    forall i | 0 <= i < |c| :: c[i].key == key ==> IsPast(stamp, c[i])
  }

  ghost predicate MatchesArePast<K, I>(c: Contents<K, I>, stamp: Stamp, matches: I -> bool) {
    forall i | 0 <= i < |c| :: matches(c[i].item) ==> IsPast(stamp, c[i])
  }

  /** The key under which an action may add an item. */
  function AddedKey<K, I>(config: Config<K, I>, action: Action<K, I>): Option<K> {
    match action
    case Inserts(item) => Some(config.keyOf(item))
    case Upserts(_, key, _) => Some(key)
    case _ => None
  }

  /** Nothing the action could touch is older than the event. */
  ghost predicate Settled<K, I>(config: Config<K, I>, c: Contents<K, I>, stamp: Stamp, action: Action<K, I>) {
    match action
    case Inserts(item) => KeyIsPast(c, stamp, config.keyOf(item))
    case Upserts(_, key, _) => KeyIsPast(c, stamp, key)
    case Updates(key, _) => KeyIsPast(c, stamp, key)
    case UpdatesWhere(matches, _) => MatchesArePast(c, stamp, matches)
    case Deletes(key) => KeyIsPast(c, stamp, key)
    case DeletesWhere(matches) => MatchesArePast(c, stamp, matches)
  }

  predicate NotBefore(later: Stamp, earlier: Stamp) {
    later.number > earlier.number || (later.number == earlier.number && later.part >= earlier.part)
  }

  ghost predicate IsStamped<K, I>(slot: Slot<K, I>, stamp: Stamp) {
    slot.revision == stamp.number && slot.part == stamp.part
  }

  /** From c to d, items were changed or added by the event and part, or removed. */
  ghost predicate Advanced<K, I>(c: Contents<K, I>, d: Contents<K, I>, stamp: Stamp) {
    forall i | 0 <= i < |d| :: d[i] in c || IsStamped(d[i], stamp)
  }

  /** The keys that match, and where they are. */
  lemma {:induction false} KeysWhereAt<K, I>(c: Contents<K, I>, matches: I -> bool, i: nat)
    requires i < |c| && matches(c[i].item)
    ensures c[i].key in KeysWhere(c, matches)
  {
    if i > 0 {
      KeysWhereAt(c[1..], matches, i - 1);
    }
  }

  lemma {:induction false} OnlyMatching<K, I>(c: Contents<K, I>, matches: I -> bool, key: K)
    requires key in KeysWhere(c, matches)
    ensures exists i :: 0 <= i < |c| && c[i].key == key && matches(c[i].item)
  {
    if c != [] && !(matches(c[0].item) && c[0].key == key) {
      OnlyMatching(c[1..], matches, key);
      var i :| 0 <= i < |c[1..]| && c[1..][i].key == key && matches(c[1..][i].item);
      assert c[i + 1] == c[1..][i];
    }
  }

  /** What changing several items does, if it does not fail: exactly those that
      are not past the event are changed. */
  lemma {:induction false} ChangeAllEffect<K, I>(
      config: Config<K, I>, c: Contents<K, I>, keys: seq<K>, stamp: Stamp, change: I -> I)
    requires Distinct(c)
    ensures var (d, _, err) := ChangeAll(config, c, keys, stamp, change);
      && Distinct(d) && |d| == |c|
      && (forall i | 0 <= i < |c| :: d[i].key == c[i].key && (d[i] == c[i] || IsStamped(d[i], stamp)))
      && (err.None? ==> forall i | 0 <= i < |c| && c[i].key in keys :: IsPast(stamp, d[i]))
    decreases |keys|
  {
    if keys != [] {
      var (next, outcome) := Change(config, c, keys[0], stamp, change);
      if outcome.Ok? {
        ChangeAllEffect(config, next, keys[1..], stamp, change);
        var (d, _, err) := ChangeAll(config, next, keys[1..], stamp, change);
        if err.None? {
          forall i | 0 <= i < |c| && c[i].key in keys ensures IsPast(stamp, d[i]) {
            if c[i].key == keys[0] {
              IndexIsUnique(c, i);
              assert IsPast(stamp, next[i]);
            } else {
              assert next[i].key in keys[1..];
            }
          }
        }
      }
    }
  }

  /** What removing several items leaves: exactly those that are past the event, or
      have another key. */
  lemma {:induction false} DeleteAllEffect<K, I>(c: Contents<K, I>, keys: seq<K>, stamp: Stamp)
    requires Distinct(c)
    ensures var d := DeleteAll(c, keys, stamp).0;
      && Distinct(d) && (forall i | 0 <= i < |d| :: d[i] in c)
      && (forall i | 0 <= i < |d| && d[i].key in keys :: IsPast(stamp, d[i]))
    decreases |keys|
  {
    if keys != [] {
      var next := Delete(c, keys[0], stamp).0;
      DeleteEffect(c, keys[0], stamp);
      hide Delete;
      DeleteAllEffect(next, keys[1..], stamp);
      var d := DeleteAll(next, keys[1..], stamp).0;
      forall i | 0 <= i < |d| && d[i].key in keys ensures IsPast(stamp, d[i]) {
        if d[i].key == keys[0] {
          var j :| 0 <= j < |next| && next[j] == d[i];
        }
      }
    }
  }

  lemma {:induction false} DeleteEffect<K, I>(c: Contents<K, I>, key: K, stamp: Stamp)
    requires Distinct(c)
    ensures var d := Delete(c, key, stamp).0;
      Distinct(d) && (forall i | 0 <= i < |d| :: d[i] in c) && KeyIsPast(d, stamp, key)
  {
    var d := Delete(c, key, stamp).0;
    var at := IndexOf(c, key);
    if at.Some? {
      if IsNewer(stamp, c[at.value].revision, c[at.value].part) {
        RemovedAt(c, d, at.value);
      } else {
        forall i | 0 <= i < |d| && d[i].key == key ensures IsPast(stamp, d[i]) {
          IndexIsUnique(c, i);
        }
      }
    }
  }

  lemma {:induction false} NothingToChange<K, I>(
      config: Config<K, I>, c: Contents<K, I>, keys: seq<K>, stamp: Stamp, change: I -> I)
    requires forall i | 0 <= i < |c| && c[i].key in keys :: IsPast(stamp, c[i])
    ensures ChangeAll(config, c, keys, stamp, change) == (c, 0, None)
    decreases |keys|
  {
    if keys != [] {
      assert Change(config, c, keys[0], stamp, change).0 == c;
      NothingToChange(config, c, keys[1..], stamp, change);
    }
  }

  lemma {:induction false} NothingToDelete<K, I>(c: Contents<K, I>, keys: seq<K>, stamp: Stamp)
    requires forall i | 0 <= i < |c| && c[i].key in keys :: IsPast(stamp, c[i])
    ensures DeleteAll(c, keys, stamp) == (c, 0)
    decreases |keys|
  {
    if keys != [] {
      assert Delete(c, keys[0], stamp).0 == c;
      NothingToDelete(c, keys[1..], stamp);
    }
  }

  lemma {:induction false} MatchingArePast<K, I>(c: Contents<K, I>, stamp: Stamp, matches: I -> bool)
    requires Distinct(c) && MatchesArePast(c, stamp, matches)
    ensures forall i | 0 <= i < |c| && c[i].key in KeysWhere(c, matches) :: IsPast(stamp, c[i])
  {
    forall i | 0 <= i < |c| && c[i].key in KeysWhere(c, matches) ensures IsPast(stamp, c[i]) {
      OnlyMatching(c, matches, c[i].key);
      var j :| 0 <= j < |c| && c[j].key == c[i].key && matches(c[j].item);
      assert i == j;
    }
  }

  ghost predicate KeyStays<K, I>(config: Config<K, I>, c: Contents<K, I>, action: Action<K, I>) {
    var key := AddedKey(config, action);
    key.Some? ==> HasKey(c, key.value)
  }

  /** A settled action changes nothing exactly if what it may add is there. */
  lemma {:induction false} SettledDoesNothingExactly<K, I>(
      config: Config<K, I>, c: Contents<K, I>, stamp: Stamp, planned: Planned<K, I>)
    requires Distinct(c) && StampOf(planned.eventId, planned.part) == Ok(stamp)
    requires Settled(config, c, stamp, planned.action)
    ensures Act(config, c, planned) == (c, None) <==> KeyStays(config, c, planned.action)
  {
    match planned.action
    case Inserts(item) => KeyIsWhere(c, config.keyOf(item));
    case Upserts(_, key, _) => KeyIsWhere(c, key);
    case Updates(key, _) =>
    case UpdatesWhere(matches, change) =>
      MatchingArePast(c, stamp, matches);
      NothingToChange(config, c, KeysWhere(c, matches), stamp, change);
    case Deletes(key) =>
    case DeletesWhere(matches) =>
      MatchingArePast(c, stamp, matches);
      NothingToDelete(c, KeysWhere(c, matches), stamp);
  }

  lemma {:induction false} KeyIsWhere<K, I>(c: Contents<K, I>, key: K)
    ensures HasKey(c, key) <==> IndexOf(c, key).Some?
  {
  }

  /** Once it has been done, an action is settled, and what it may add is there. */
  lemma {:induction false} DoneIsSettled<K, I>(
      config: Config<K, I>, c: Contents<K, I>, stamp: Stamp, planned: Planned<K, I>)
    requires Distinct(c) && StampOf(planned.eventId, planned.part) == Ok(stamp)
    ensures var (d, err) := Act(config, c, planned);
      && Distinct(d) && Advanced(c, d, stamp)
      && (err.None? ==> Settled(config, d, stamp, planned.action) && KeyStays(config, d, planned.action))
  {
    var (d, err) := Act(config, c, planned);
    match planned.action
    case Inserts(item) => AddedIsSettled(config, c, stamp, planned, config.keyOf(item));
    case Upserts(_, key, _) => AddedIsSettled(config, c, stamp, planned, key);
    case Updates(key, _) =>
      forall i | 0 <= i < |d| && d[i].key == key && err.None? ensures IsPast(stamp, d[i]) {
        IndexIsUnique(d, i);
      }
    case UpdatesWhere(matches, change) => UpdatedIsSettled(config, c, stamp, planned);
    case Deletes(key) => DeleteEffect(c, key, stamp);
    case DeletesWhere(matches) => DeletedIsSettled(config, c, stamp, planned);
  }

  lemma {:induction false} AddedIsSettled<K, I>(
      config: Config<K, I>, c: Contents<K, I>, stamp: Stamp, planned: Planned<K, I>, key: K)
    requires Distinct(c) && StampOf(planned.eventId, planned.part) == Ok(stamp)
    requires AddedKey(config, planned.action) == Some(key)
    ensures var (d, err) := Act(config, c, planned);
      Distinct(d) && Advanced(c, d, stamp) && (err.None? ==> KeyIsPast(d, stamp, key) && HasKey(d, key))
  {
    var (d, err) := Act(config, c, planned);
    var at := IndexOf(c, key);
    if err.None? {
      assert d[if at.Some? then at.value else |c|].key == key;
      forall i | 0 <= i < |d| && d[i].key == key ensures IsPast(stamp, d[i]) {
        if i < |c| {
          IndexIsUnique(c, i);
        }
      }
    }
  }

  lemma {:induction false} UpdatedIsSettled<K, I>(
      config: Config<K, I>, c: Contents<K, I>, stamp: Stamp, planned: Planned<K, I>)
    requires Distinct(c) && StampOf(planned.eventId, planned.part) == Ok(stamp) && planned.action.UpdatesWhere?
    ensures var (d, err) := Act(config, c, planned);
      Distinct(d) && Advanced(c, d, stamp) && (err.None? ==> MatchesArePast(d, stamp, planned.action.matches))
  {
    var matches := planned.action.matches;
    var keys := KeysWhere(c, matches);
    var (d, err) := Act(config, c, planned);
    ChangeAllEffect(config, c, keys, stamp, planned.action.change);
    if err.None? {
      forall i | 0 <= i < |d| && matches(d[i].item) ensures IsPast(stamp, d[i]) {
        if d[i] == c[i] {
          KeysWhereAt(c, matches, i);
        }
      }
    }
  }

  lemma {:induction false} DeletedIsSettled<K, I>(
      config: Config<K, I>, c: Contents<K, I>, stamp: Stamp, planned: Planned<K, I>)
    requires Distinct(c) && StampOf(planned.eventId, planned.part) == Ok(stamp) && planned.action.DeletesWhere?
    ensures var (d, err) := Act(config, c, planned);
      Distinct(d) && Advanced(c, d, stamp) && MatchesArePast(d, stamp, planned.action.matches)
  {
    var matches := planned.action.matches;
    var keys := KeysWhere(c, matches);
    var d := DeleteAll(c, keys, stamp).0;
    DeleteAllEffect(c, keys, stamp);
    forall i | 0 <= i < |d| && matches(d[i].item) ensures IsPast(stamp, d[i]) {
      var j :| 0 <= j < |c| && c[j] == d[i];
      KeysWhereAt(c, matches, j);
    }
  }

  /** What the same event or later ones do keeps an action settled. */
  lemma {:induction false} StaysSettled<K, I>(
      config: Config<K, I>, c: Contents<K, I>, d: Contents<K, I>, stamp: Stamp, later: Stamp, action: Action<K, I>)
    requires Settled(config, c, stamp, action) && Advanced(c, d, later) && NotBefore(later, stamp)
    ensures Settled(config, d, stamp, action)
  {
    forall i | 0 <= i < |d| ensures IsPast(stamp, d[i]) || d[i] in c {
      if d[i] !in c {
        assert IsStamped(d[i], later);
      }
    }
  }

  /** A plan whose actions come in the order of events and parts, none of them
      before the given one. */
  ghost predicate Orderly<K, I>(plan: seq<Planned<K, I>>, from: Stamp) {
    && (forall i | 0 <= i < |plan| ::
          StampOf(plan[i].eventId, plan[i].part).Ok? && NotBefore(StampOf(plan[i].eventId, plan[i].part).value, from))
    && (forall i, j | 0 <= i < j < |plan| ::
          NotBefore(StampOf(plan[j].eventId, plan[j].part).value, StampOf(plan[i].eventId, plan[i].part).value))
  }

  ghost predicate AllSettled<K, I>(config: Config<K, I>, c: Contents<K, I>, plan: seq<Planned<K, I>>) {
    forall i | 0 <= i < |plan| ::
      && StampOf(plan[i].eventId, plan[i].part).Ok?
      && Settled(config, c, StampOf(plan[i].eventId, plan[i].part).value, plan[i].action)
  }

  /** Running more of a plan keeps what is settled, and settles what is run. */
  lemma {:induction false} RunSettles<K, I>(
      config: Config<K, I>, c: Contents<K, I>, done: seq<Planned<K, I>>, plan: seq<Planned<K, I>>, from: Stamp)
    requires Distinct(c) && AllSettled(config, c, done) && Orderly(done + plan, from)
    requires Run(config, c, plan).1.None?
    ensures Distinct(Run(config, c, plan).0) && AllSettled(config, Run(config, c, plan).0, done + plan)
    decreases |plan|
  {
    hide Act, Settled, Distinct, Advanced;
    if plan == [] {
      assert done + plan == done;
    } else {
      assert (done + plan)[|done|] == plan[0];
      var stamp := StampOf(plan[0].eventId, plan[0].part).value;
      var d := Act(config, c, plan[0]).0;
      DoneIsSettled(config, c, stamp, plan[0]);
      forall i | 0 <= i < |done| ensures Settled(config, d, StampOf(done[i].eventId, done[i].part).value,
          done[i].action) {
        assert (done + plan)[i] == done[i];
        StaysSettled(config, c, d, StampOf(done[i].eventId, done[i].part).value, stamp, done[i].action);
      }
      assert (done + [plan[0]]) + plan[1..] == done + plan;
      RunSettles(config, d, done + [plan[0]], plan[1..], from);
    }
  }

  /** Every item that the plan may add is there. */
  ghost predicate AddedStay<K, I>(config: Config<K, I>, c: Contents<K, I>, plan: seq<Planned<K, I>>) {
    forall i | 0 <= i < |plan| :: KeyStays(config, c, plan[i].action)
  }

  /** Running the plan never changes anything, however far one has come. */
  ghost predicate IsQuiet<K, I>(config: Config<K, I>, c: Contents<K, I>, plan: seq<Planned<K, I>>) {
    forall n | 0 <= n <= |plan| :: Run(config, c, plan[..n]) == (c, None)
  }

  lemma {:induction false} SettledIsQuietExactly<K, I>(
      config: Config<K, I>, c: Contents<K, I>, plan: seq<Planned<K, I>>)
    requires Distinct(c) && AllSettled(config, c, plan)
    ensures IsQuiet(config, c, plan) <==> AddedStay(config, c, plan)
    decreases |plan|
  {
    hide Act, Settled, Distinct, KeyStays;
    if plan != [] {
      var before, last := plan[..|plan| - 1], plan[|plan| - 1];
      SettledIsQuietExactly(config, c, before);
      SettledDoesNothingExactly(config, c, StampOf(last.eventId, last.part).value, last);
      assert plan == before + [last] && plan[..|plan|] == plan;
      assert forall n | 0 <= n <= |before| :: plan[..n] == before[..n];
      if IsQuiet(config, c, before) {
        assert before[..|before|] == before;
        RunOneMore(config, c, before, last);
      }
      if IsQuiet(config, c, plan) {
        forall n | 0 <= n <= |before| ensures Run(config, c, before[..n]) == (c, None) {
          assert Run(config, c, plan[..n]) == (c, None);
        }
      }
      if AddedStay(config, c, plan) {
        assert KeyStays(config, c, plan[|before|].action);
        forall i | 0 <= i < |before| ensures KeyStays(config, c, before[i].action) {
          assert KeyStays(config, c, plan[i].action);
        }
      }
    } else {
      assert plan[..0] == [];
    }
  }

  lemma {:induction false} RunOneMore<K, I>(
      config: Config<K, I>, c: Contents<K, I>, plan: seq<Planned<K, I>>, last: Planned<K, I>)
    requires Run(config, c, plan) == (c, None)
    ensures Run(config, c, plan + [last]) == Act(config, c, last)
  {
    hide Act;
    RunAppend(config, c, plan, [last]);
    var d := Act(config, c, last);
    assert [last][1..] == [];
  }

  /** The parts of one stored event, as its upcasters hand them out: they carry its
      ID. */
  ghost predicate PartsOf(event: Stored, parts: seq<Stored>) {
    event.id < REVISION_LIMIT && forall k | 0 <= k < |parts| :: parts[k].id == event.id
  }

  lemma {:induction false} PlanIsOrderly<K, I>(handlers: Handlers<K, I>, event: Stored, parts: seq<Stored>, part: nat)
    requires PartsOf(event, parts) && part <= |parts|
    ensures Orderly(Plan(handlers, parts, part), Stamp(Decimal(event.id), event.id, part))
    ensures forall i | 0 <= i < |Plan(handlers, parts, part)| ::
      Plan(handlers, parts, part)[i].eventId == Decimal(event.id)
    decreases |parts| - part
  {
    hide Orderly, Decimal, StampOf;
    var id := Decimal(event.id);
    if part == |parts| {
      NothingIsOrderly<K, I>(Stamp(id, event.id, part));
    } else {
      PlanIsOrderly(handlers, event, parts, part + 1);
      var e, rest := parts[part], Plan(handlers, parts, part + 1);
      var now := if e.typ in handlers then PlanOf(id, part, handlers[e.typ](e)) else [];
      PrependedIsOrderly(now, rest, event.id, part);
    }
  }

  lemma {:induction false} NothingIsOrderly<K, I>(from: Stamp)
    ensures Orderly<K, I>([], from)
  {
  }

  /** Actions for one part go before those for later ones. */
  lemma {:induction false} PrependedIsOrderly<K, I>(
      now: seq<Planned<K, I>>, rest: seq<Planned<K, I>>, id: nat, part: nat)
    requires id < REVISION_LIMIT && forall i | 0 <= i < |now| :: now[i].eventId == Decimal(id) && now[i].part == part
    requires Orderly(rest, Stamp(Decimal(id), id, part + 1))
    ensures Orderly(now + rest, Stamp(Decimal(id), id, part))
  {
    ComparesAsNumbers(id, id);
    var from, later := Stamp(Decimal(id), id, part), Stamp(Decimal(id), id, part + 1);
    assert StampOf(Decimal(id), part) == Ok(from);
    hide Decimal, ParseRevision, StampOf;
    forall i | 0 <= i < |rest|
      ensures NotBefore(StampOf(rest[i].eventId, rest[i].part).value, from)
    {
      assert NotBefore(StampOf(rest[i].eventId, rest[i].part).value, later);
    }
    var whole := now + rest;
    assert forall i | 0 <= i < |whole| :: whole[i] == if i < |now| then now[i] else rest[i - |now|];
  }

  lemma {:induction false} OrderlyTogether<K, I>(plan: seq<Planned<K, I>>, later: seq<Planned<K, I>>, id: nat)
    requires id + 1 < REVISION_LIMIT && Orderly(plan, Stamp(Decimal(id), id, 0))
    requires Orderly(later, Stamp(Decimal(id + 1), id + 1, 0))
    requires forall i | 0 <= i < |plan| :: plan[i].eventId == Decimal(id)
    ensures Orderly(plan + later, Stamp(Decimal(id), id, 0))
  {
    ComparesAsNumbers(id, id);
    var whole := plan + later;
    forall i | 0 <= i < |whole| ensures whole[i] == if i < |plan| then plan[i] else later[i - |plan|] {
    }
  }

  /** What later events do, in their order: they may change, add and remove
      anything. */
  ghost predicate IsLater<K, I>(event: Stored, later: seq<Planned<K, I>>) {
    later == [] || (event.id + 1 < REVISION_LIMIT && Orderly(later, Stamp(Decimal(event.id + 1), event.id + 1, 0)))
  }

  lemma {:induction false} AfterwardsAllSettled<K, I>(
      config: Config<K, I>, handlers: Handlers<K, I>, c: Contents<K, I>, event: Stored, parts: seq<Stored>,
      later: seq<Planned<K, I>>)
    requires Distinct(c) && PartsOf(event, parts) && IsLater(event, later)
    requires Run(config, c, Plan(handlers, parts, 0) + later).1.None?
    ensures var d := Run(config, c, Plan(handlers, parts, 0) + later).0;
      Distinct(d) && AllSettled(config, d, Plan(handlers, parts, 0))
  {
    hide Distinct, Settled, Orderly, Run;
    var plan := Plan(handlers, parts, 0);
    PlanIsOrderly(handlers, event, parts, 0);
    if later == [] {
      assert plan + later == plan;
    } else {
      OrderlyTogether(plan, later, event.id);
    }
    assert [] + (plan + later) == plan + later;
    RunSettles(config, c, [], plan + later, Stamp(Decimal(event.id), event.id, 0));
    assert forall i | 0 <= i < |plan| :: (plan + later)[i] == plan[i];
  }

  /** Handing a stored event to a typed projection again, also after later events,
      never changes anything exactly if every item its handlers may add is in the
      view. Whatever else was removed, by the event itself or by later ones, does
      not matter. */
  lemma {:induction false} AppliedAgainExactly<K, I>(
      config: Config<K, I>, handlers: Handlers<K, I>, c: Contents<K, I>, event: Stored, parts: seq<Stored>,
      later: seq<Planned<K, I>>)
    requires Distinct(c) && PartsOf(event, parts) && IsLater(event, later)
    requires Run(config, c, Plan(handlers, parts, 0) + later).1.None?
    ensures var plan := Plan(handlers, parts, 0);
      var d := Run(config, c, plan + later).0;
      IsQuiet(config, d, plan) <==> AddedStay(config, d, plan)
  {
    AfterwardsAllSettled(config, handlers, c, event, parts, later);
    SettledIsQuietExactly(config, Run(config, c, Plan(handlers, parts, 0) + later).0, Plan(handlers, parts, 0));
  }

  ghost predicate RemovesNothing<K, I>(plan: seq<Planned<K, I>>) {
    forall i | 0 <= i < |plan| :: !plan[i].action.Deletes? && !plan[i].action.DeletesWhere?
  }

  /** If the event's own handlers remove nothing, the view after all of it is the same
      exactly if every item they may add is still there. */
  lemma {:induction false} AppliedAgainChangesNothing<K, I>(
      config: Config<K, I>, handlers: Handlers<K, I>, c: Contents<K, I>, event: Stored, parts: seq<Stored>,
      later: seq<Planned<K, I>>)
    requires Distinct(c) && PartsOf(event, parts) && IsLater(event, later)
    requires Run(config, c, Plan(handlers, parts, 0) + later).1.None?
    ensures var plan := Plan(handlers, parts, 0);
      var d := Run(config, c, plan + later).0;
      && (AddedStay(config, d, plan) ==> Run(config, d, plan) == (d, None))
      && (RemovesNothing(plan) && Run(config, d, plan) == (d, None) ==> AddedStay(config, d, plan))
  {
    AppliedAgainExactly(config, handlers, c, event, parts, later);
    var plan := Plan(handlers, parts, 0);
    var d := Run(config, c, plan + later).0;
    hide Run;
    assert plan[..|plan|] == plan;
    if AddedStay(config, d, plan) {
      assert Run(config, d, plan[..|plan|]) == (d, None);
    }
    if RemovesNothing(plan) && Run(config, d, plan) == (d, None) {
      RunKeepsAdded(config, d, plan);
    }
  }

  ghost predicate KeepsKeys<K, I>(c: Contents<K, I>, d: Contents<K, I>) {
    |c| <= |d| && forall i | 0 <= i < |c| :: d[i].key == c[i].key
  }

  lemma {:induction false} ActKeepsKeys<K, I>(config: Config<K, I>, c: Contents<K, I>, planned: Planned<K, I>)
    requires !planned.action.Deletes? && !planned.action.DeletesWhere?
    ensures var (d, err) := Act(config, c, planned);
      KeepsKeys(c, d) && (err.None? ==> KeyStays(config, d, planned.action))
  {
    var (d, err) := Act(config, c, planned);
    var stamp := StampOf(planned.eventId, planned.part);
    if stamp.Ok? {
      if planned.action.UpdatesWhere? {
        ChangeAllKeepsKeys(config, c, KeysWhere(c, planned.action.matches), stamp.value, planned.action.change);
      } else if err.None? && AddedKey(config, planned.action).Some? {
        var at := IndexOf(c, AddedKey(config, planned.action).value);
        assert d[if at.Some? then at.value else |c|].key == AddedKey(config, planned.action).value;
      }
    }
  }

  lemma {:induction false} KeepsKey<K, I>(
      config: Config<K, I>, c: Contents<K, I>, d: Contents<K, I>, action: Action<K, I>)
    requires KeepsKeys(c, d) && KeyStays(config, c, action)
    ensures KeyStays(config, d, action)
  {
    var key := AddedKey(config, action);
    if key.Some? {
      var i :| 0 <= i < |c| && c[i].key == key.value;
      assert d[i].key == key.value;
    }
  }

  /** What removes nothing keeps every key, and adds what it may add. */
  lemma {:induction false} RunKeepsAdded<K, I>(config: Config<K, I>, c: Contents<K, I>, plan: seq<Planned<K, I>>)
    requires RemovesNothing(plan) && Run(config, c, plan).1.None?
    ensures KeepsKeys(c, Run(config, c, plan).0) && AddedStay(config, Run(config, c, plan).0, plan)
    decreases |plan|
  {
    hide Act, KeyStays;
    if plan != [] {
      var next, d := Act(config, c, plan[0]).0, Run(config, c, plan).0;
      ActKeepsKeys(config, c, plan[0]);
      RunKeepsAdded(config, next, plan[1..]);
      forall i | 0 <= i < |plan| ensures KeyStays(config, d, plan[i].action) {
        if i == 0 {
          KeepsKey(config, next, d, plan[0].action);
        } else {
          assert plan[1..][i - 1] == plan[i];
        }
      }
    }
  }

  /** Applying an event that failed on the way again, from its first part, at whatever
      action of whatever part it failed: what was done before is passed over without
      any change exactly if what it has added is in the view, and then the event
      yields what one application without the failure would have. */
  lemma {:induction false} RetryIsUninterrupted<K, I>(
      config: Config<K, I>, handlers: Handlers<K, I>, c: Contents<K, I>, event: Stored, parts: seq<Stored>, k: nat)
    requires Distinct(c) && PartsOf(event, parts)
    requires k <= |Plan(handlers, parts, 0)| && Run(config, c, Plan(handlers, parts, 0)[..k]).1.None?
    ensures var plan := Plan(handlers, parts, 0);
      var d := Run(config, c, plan[..k]).0;
      && (IsQuiet(config, d, plan[..k]) <==> AddedStay(config, d, plan[..k]))
      && (AddedStay(config, d, plan[..k]) ==> Run(config, d, plan) == Run(config, c, plan))
      && (RemovesNothing(plan[..k]) ==> AddedStay(config, d, plan[..k]))
  {
    var plan := Plan(handlers, parts, 0);
    var d := Run(config, c, plan[..k]).0;
    PrefixIsSettled(config, handlers, c, event, parts, k);
    SettledIsQuietExactly(config, d, plan[..k]);
    if RemovesNothing(plan[..k]) {
      RunKeepsAdded(config, c, plan[..k]);
    }
    hide Run;
    assert plan[..k][..k] == plan[..k] && plan == plan[..k] + plan[k..];
    if AddedStay(config, d, plan[..k]) {
      assert Run(config, d, plan[..k][..k]) == (d, None);
      RunAppend(config, c, plan[..k], plan[k..]);
      RunAppend(config, d, plan[..k], plan[k..]);
    }
  }

  lemma {:induction false} PrefixIsOrderly<K, I>(plan: seq<Planned<K, I>>, k: nat, from: Stamp)
    requires Orderly(plan, from) && k <= |plan|
    ensures Orderly(plan[..k], from)
  {
  }

  lemma {:induction false} NothingIsSettled<K, I>(config: Config<K, I>, c: Contents<K, I>)
    ensures AllSettled(config, c, [])
  {
  }

  lemma {:induction false} PrefixIsSettled<K, I>(
      config: Config<K, I>, handlers: Handlers<K, I>, c: Contents<K, I>, event: Stored, parts: seq<Stored>, k: nat)
    requires Distinct(c) && PartsOf(event, parts)
    requires k <= |Plan(handlers, parts, 0)| && Run(config, c, Plan(handlers, parts, 0)[..k]).1.None?
    ensures var d := Run(config, c, Plan(handlers, parts, 0)[..k]).0;
      Distinct(d) && AllSettled(config, d, Plan(handlers, parts, 0)[..k])
  {
    hide Run, Distinct, Orderly, Settled, Plan;
    var plan := Plan(handlers, parts, 0);
    var from := Stamp(Decimal(event.id), event.id, 0);
    PlanIsOrderly(handlers, event, parts, 0);
    PrefixIsOrderly(plan, k, from);
    assert [] + plan[..k] == plan[..k];
    NothingIsSettled(config, c);
    RunSettles(config, c, [], plan[..k], from);
  }

  /** A removal breaks it: an event that adds an item, applied again after a later
      event has removed the item, adds it again. */
  lemma {:induction false} RemovedItemComesBack()
    ensures exists config: Config<int, int>, adds: Planned<int, int>, removes: Planned<int, int> ::
      var d := Run(config, [], [adds, removes]).0;
      Run(config, [], [adds, removes]).1.None? && Run(config, d, [adds]).0 != d
  {
    var config := Config((item: int) => item, None, None);
    var adds, removes := Planned(Decimal(1), 0, Inserts(7)), Planned(Decimal(2), 0, Deletes(7));
    ComparesAsNumbers(1, 2);
    ComparesAsNumbers(2, 1);
    var added := Act(config, [], adds).0;
    assert added == [Slot(7, 7, 1, 0)];
    IndexIsUnique(added, 0);
    assert added[..0] + added[1..] == [];
    assert Act(config, added, removes) == ([], None);
    assert [adds, removes][1..] == [removes] && [removes][1..] == [] && [adds][1..] == [];
    assert Run(config, added, [removes]) == ([], None);
    assert Run(config, [], [adds, removes]) == ([], None);
    assert Run(config, [], [adds]) == (added, None);
  }

  /** An event whose first part raises the one item, or starts it from zero, and whose
      second part removes the items that have become two. */
  ghost function RaiseThenRemove(): seq<Planned<int, int>> {
    [Planned(Decimal(2), 0, Upserts(0, 0, OneMoreThan)), Planned(Decimal(2), 1, DeletesWhere(IsTwo))]
  }

  function OneMoreThan(item: int): int { item + 1 }

  predicate IsTwo(item: int) { item == 2 }

  ghost function OneKey(): Config<int, int> { Config((item: int) => 0, None, None) }

  lemma {:induction false} RaisedIsRemoved()
    ensures Run(OneKey(), [Slot(0, 1, 1, 0)], RaiseThenRemove()) == ([], None)
  {
    ComparesAsNumbers(2, 2);
    var plan, c, raised := RaiseThenRemove(), [Slot(0, 1, 1, 0)], [Slot(0, 2, 2, 0)];
    assert c[0 := raised[0]] == raised;
    assert Act(OneKey(), c, plan[0]) == (raised, None);
    assert raised[1..] == [] && KeysWhere(raised, IsTwo) == [0] && [0][1..] == [];
    assert raised[..0] + raised[1..] == [];
    assert Act(OneKey(), raised, plan[1]) == ([], None);
    assert plan[1..] == [plan[1]] && [plan[1]][1..] == [];
  }

  lemma {:induction false} StartedAnewStays()
    ensures Run(OneKey(), [], RaiseThenRemove()) == ([Slot(0, 1, 2, 0)], None)
  {
    ComparesAsNumbers(2, 2);
    var plan, anew := RaiseThenRemove(), [Slot(0, 1, 2, 0)];
    assert [] + anew == anew;
    assert Act(OneKey(), [], plan[0]) == (anew, None);
    assert anew[1..] == [] && KeysWhere(anew, IsTwo) == [];
    assert Act(OneKey(), anew, plan[1]) == (anew, None);
    assert plan[1..] == [plan[1]] && [plan[1]][1..] == [];
  }

  /** So does a removal by the event itself: where a later part removes what an
      earlier one has upserted, applying the event again starts that item anew, and
      the view differs from what one application leaves. */
  lemma {:induction false} OwnRemovalIsNotRepeated()
    ensures exists config: Config<int, int>, c: Contents<int, int>, plan: seq<Planned<int, int>> ::
      && Run(config, c, plan).1.None? && Orderly(plan, Stamp(Decimal(2), 2, 0))
      && Run(config, Run(config, c, plan).0, plan) != Run(config, c, plan)
  {
    hide Run;
    ComparesAsNumbers(2, 2);
    RaisedIsRemoved();
    StartedAnewStays();
  }
}
