/** The state a command decides on, and the rules that build it from stored
    events (architecturekit/state.go). */
module StateRules {
  import opened Basics
  import opened EventLog
  import opened Failures
  import opened Upcasting

  type Evolve<!S> = (S, string) -> Result<S, Failure>

  /** A state as it is built. typeName is the Go type of the state and source the
      identity of the *State. startsFromCopy is false for an initial value that
      shares data and has no Clone function, isCopyable is whether a store may
      cache the state. */
  datatype Rules<!S> = Rules(
    typeName: string,
    source: nat,
    initial: S,
    evolve: map<string, Evolve<S>>,
    ignored: set<string>,
    upcasters: Upcasters,
    fromLatest: Option<string>,
    startsFromCopy: bool,
    isCopyable: bool)

  /** The rules applied to events that are upcasted already. */
  function EvolveAll<S>(rules: Rules<S>, current: S, events: seq<Stored>): Result<S, Failure> {
    if events == [] then Ok(current)
    else if events[0].typ !in rules.evolve then Err(Permanent)
    else
      match rules.evolve[events[0].typ](current, events[0].data)
      case Err(e) => Err(e)
      case Ok(next) => EvolveAll(rules, next, events[1..])
  }

  /** One stored event: its upcasters, then the rules. */
  function Step<S>(rules: Rules<S>, current: S, stored: Stored): Result<S, Failure> {
    match Apply(rules.upcasters, stored)
    case Err(e) => Err(e)
    case Ok(events) => EvolveAll(rules, current, events)
  }

  function FoldFrom<S>(rules: Rules<S>, current: S, history: Log): Result<S, Failure> {
    if history == [] then Ok(current)
    else
      match Step(rules, current, history[0])
      case Err(e) => Err(e)
      case Ok(next) => FoldFrom(rules, next, history[1..])
  }

  /** The index of the latest event of a type. */
  function LatestIndex(typ: string, history: Log): (i: Option<nat>)
    ensures i.Some? ==> i.value < |history| && history[i.value].typ == typ
    ensures i.Some? ==> forall j | i.value < j < |history| :: history[j].typ != typ
    ensures i.None? ==> forall j | 0 <= j < |history| :: history[j].typ != typ
  {
    if history == [] then None
    else if history[|history| - 1].typ == typ then Some(|history| - 1)
    else LatestIndex(typ, history[..|history| - 1])
  }

  /** Where a fresh read of a stream starts. */
  function StartIndex<S>(rules: Rules<S>, stream: Log): (i: nat)
    ensures i <= |stream|
  {
    match rules.fromLatest
    case None => 0
    case Some(typ) =>
      match LatestIndex(typ, stream)
      case None => 0
      case Some(i) => i
  }

  /** The state of a stream: what a fresh read without any cache builds. */
  function Meaning<S>(rules: Rules<S>, stream: Log): Result<S, Failure> {
    FoldFrom(rules, rules.initial, stream[StartIndex(rules, stream)..])
  }

  // ----- The order in which events are applied -----

  /** The states that applying the events one after the other goes through, each by the
      rule for the type of its event, from the first event to the last. */
  ghost predicate Passes<S>(rules: Rules<S>, states: seq<S>, events: seq<Stored>) {
    && |states| == |events| + 1
    && forall i | 0 <= i < |events| ::
         events[i].typ in rules.evolve && rules.evolve[events[i].typ](states[i], events[i].data) == Ok(states[i + 1])
  }

  lemma {:induction false} EvolveAppend<S>(rules: Rules<S>, current: S, a: seq<Stored>, b: seq<Stored>)
    ensures EvolveAll(rules, current, a + b) ==
      match EvolveAll(rules, current, a) { case Err(e) => Err(e) case Ok(next) => EvolveAll(rules, next, b) }
  {
    if a == [] {
      assert a + b == b;
    } else {
      assert (a + b)[0] == a[0] && (a + b)[1..] == a[1..] + b;
      if a[0].typ in rules.evolve {
        var next := rules.evolve[a[0].typ](current, a[0].data);
        if next.Ok? {
          EvolveAppend(rules, next.value, a[1..], b);
        }
      }
    }
  }

  lemma {:induction false} EvolveOne<S>(rules: Rules<S>, current: S, e: Stored)
    ensures EvolveAll(rules, current, [e]) ==
      if e.typ in rules.evolve then rules.evolve[e.typ](current, e.data) else Err(Permanent)
  {
    if e.typ in rules.evolve {
      var next := rules.evolve[e.typ](current, e.data);
      assert next.Ok? ==> EvolveAll(rules, next.value, [e][1..]) == next;
    }
  }

  /** Events are applied from the first to the last: the outcome is the last of the states
      they pass. */
  lemma {:induction false} EvolvesInOrder<S>(rules: Rules<S>, states: seq<S>, events: seq<Stored>)
    requires Passes(rules, states, events)
    ensures EvolveAll(rules, states[0], events) == Ok(states[|events|])
  {
    if events != [] {
      var before, latest := events[..|events| - 1], events[|events| - 1];
      assert events == before + [latest];
      EvolvesInOrder(rules, states[..|events|], before);
      EvolveAppend(rules, states[0], before, [latest]);
      EvolveOne(rules, states[|before|], latest);
    }
  }

  /** Whatever the events evolve to, they have passed states on the way. */
  lemma {:induction false} EvolvedHasPassed<S>(rules: Rules<S>, current: S, events: seq<Stored>)
    returns (states: seq<S>)
    requires EvolveAll(rules, current, events).Ok?
    ensures Passes(rules, states, events) && states[0] == current
    ensures states[|events|] == EvolveAll(rules, current, events).value
  {
    states := [current];
    if events != [] {
      var before, latest := events[..|events| - 1], events[|events| - 1];
      assert events == before + [latest];
      EvolveAppend(rules, current, before, [latest]);
      var passed := EvolvedHasPassed(rules, current, before);
      EvolveOne(rules, passed[|before|], latest);
      states := passed + [EvolveAll(rules, current, events).value];
    }
  }

  /** What a stored event folds to is where the events its upcasters made of it lead, in
      their order. */
  lemma {:induction false} StepsInOrder<S(!new)>(rules: Rules<S>, current: S, stored: Stored, next: S)
    ensures Step(rules, current, stored) == Ok(next) <==>
      && Apply(rules.upcasters, stored).Ok?
      && exists states | states != [] && Passes(rules, states, Apply(rules.upcasters, stored).value) ::
           states[0] == current && states[|states| - 1] == next
  {
    var parts := Apply(rules.upcasters, stored);
    hide Apply, EvolveAll, Passes;
    if Step(rules, current, stored) == Ok(next) {
      var states := EvolvedHasPassed(rules, current, parts.value);
      PassesOneMore(rules, states, parts.value);
    }
    if parts.Ok? {
      forall states |
        states != [] && Passes(rules, states, parts.value) && states[0] == current && states[|states| - 1] == next
        ensures Step(rules, current, stored) == Ok(next)
      {
        EvolvesInOrder(rules, states, parts.value);
        PassesOneMore(rules, states, parts.value);
      }
    }
  }

  lemma {:induction false} PassesOneMore<S>(rules: Rules<S>, states: seq<S>, events: seq<Stored>)
    requires Passes(rules, states, events)
    ensures |states| == |events| + 1
  {
  }

  /** An event whose upcasters yield several: folding it is folding the first of them, and
      then the others. */
  lemma {:induction false} StepOfParts<S>(rules: Rules<S>, current: S, stored: Stored, a: seq<Stored>, b: seq<Stored>)
    requires Apply(rules.upcasters, stored) == Ok(a + b)
    ensures Step(rules, current, stored) ==
      match EvolveAll(rules, current, a) { case Err(e) => Err(e) case Ok(next) => EvolveAll(rules, next, b) }
  {
    EvolveAppend(rules, current, a, b);
  }

  lemma {:induction false} FoldAppend<S>(rules: Rules<S>, current: S, a: Log, b: Log)
    ensures FoldFrom(rules, current, a + b) ==
      match FoldFrom(rules, current, a) { case Err(e) => Err(e) case Ok(next) => FoldFrom(rules, next, b) }
  {
    if a == [] {
      assert a + b == b;
    } else {
      assert (a + b)[0] == a[0] && (a + b)[1..] == a[1..] + b;
      var next := Step(rules, current, a[0]);
      if next.Ok? {
        FoldAppend(rules, next.value, a[1..], b);
      }
    }
  }

  lemma {:induction false} FoldOne<S>(rules: Rules<S>, current: S, e: Stored)
    ensures FoldFrom(rules, current, [e]) == Step(rules, current, e)
  {
  }

  /** evolveByStored, with its loop over the upcasted events. */
  method EvolveByStored<S>(rules: Rules<S>, start: S, stored: Stored) returns (r: Result<S, Failure>)
    ensures r == Step(rules, start, stored)
  {
    var upcasted := ApplyWithBudget(rules.upcasters, stored, MAX_UPCAST_STEPS);
    if upcasted.Err? {
      return Err(upcasted.error);
    }
    var events := upcasted.value;
    var current := start;
    hide Apply;
    for i := 0 to |events|
      invariant EvolveAll(rules, start, events) == EvolveAll(rules, current, events[i..])
    {
      assert events[i..][0] == events[i] && events[i..][1..] == events[i + 1..];
      if events[i].typ !in rules.evolve {
        return Err(Permanent);
      }
      var next := rules.evolve[events[i].typ](current, events[i].data);
      if next.Err? {
        return Err(next.error);
      }
      current := next.value;
    }
    return Ok(current);
  }

  /** The events a fresh read of the given ones would hand out, found by the
      search from the end that Replay and ReplayStored share. */
  method SkipToLatest<S>(rules: Rules<S>, given: Log) returns (history: Log)
    ensures history == given[StartIndex(rules, given)..]
  {
    history := given;
    if rules.fromLatest.Some? {
      var i := |given| - 1;
      while i >= 0
        invariant -1 <= i < |given| && history == given
        invariant forall j | i < j < |given| :: given[j].typ != rules.fromLatest.value
      {
        if given[i].typ == rules.fromLatest.value {
          return given[i..];
        }
        i := i - 1;
      }
    }
  }

  lemma {:induction false} FoldNext<S>(rules: Rules<S>, start: S, history: Log, i: nat, current: S)
    requires i < |history| && FoldFrom(rules, start, history[..i]) == Ok(current)
    ensures FoldFrom(rules, start, history[..i + 1]) == Step(rules, current, history[i])
    ensures Step(rules, current, history[i]).Err? ==>
      FoldFrom(rules, start, history) == Step(rules, current, history[i])
  {
    assert history[..i + 1] == history[..i] + [history[i]];
    FoldAppend(rules, start, history[..i], [history[i]]);
    FoldOne(rules, current, history[i]);
    assert history == history[..i + 1] + history[i + 1..];
    FoldAppend(rules, start, history[..i + 1], history[i + 1..]);
  }

  /** ReplayStored builds from stored events what reading them would. */
  method ReplayStored<S>(rules: Rules<S>, given: Log) returns (r: Result<S, Failure>)
    ensures r == if rules.startsFromCopy then Meaning(rules, given) else Err(Permanent)
  {
    if !rules.startsFromCopy {
      return Err(Permanent);
    }
    var history := SkipToLatest(rules, given);
    var current := rules.initial;
    for i := 0 to |history|
      invariant FoldFrom(rules, rules.initial, history[..i]) == Ok(current)
    {
      var next := EvolveByStored(rules, current, history[i]);
      FoldNext(rules, rules.initial, history, i, current);
      if next.Err? {
        return Err(next.error);
      }
      current := next.value;
    }
    assert history[..|history|] == history;
    return Ok(current);
  }

  /** What FromLatest demands: an event of the type carries everything the state
      needs from the events before it. */
  ghost predicate IgnoresPast<S(!new)>(rules: Rules<S>) {
    rules.fromLatest.Some? ==>
      forall s: S, t: S, e: Stored | e.typ == rules.fromLatest.value :: Step(rules, s, e) == Step(rules, t, e)
  }

  /** The demand in the terms of the documentation: the rule for the type does
      not depend on the state before it, and the type has no upcaster. */
  lemma {:induction false} RuleIgnoresPast<S(!new)>(rules: Rules<S>)
    requires rules.fromLatest.Some? ==>
      && var typ := rules.fromLatest.value;
      && typ !in rules.upcasters && typ in rules.evolve
      && forall s: S, t: S, data: string :: rules.evolve[typ](s, data) == rules.evolve[typ](t, data)
    ensures IgnoresPast(rules)
  {
    if rules.fromLatest.Some? {
      forall s: S, t: S, e: Stored | e.typ == rules.fromLatest.value
        ensures Step(rules, s, e) == Step(rules, t, e)
      {
        assert Apply(rules.upcasters, e) == Ok([e]);
      }
    }
  }

  /** The latest event of the type FromLatest names, among the given ones. */
  function Latest<S>(rules: Rules<S>, events: Log): (i: Option<nat>)
    ensures i.Some? ==> i.value < |events|
  {
    if rules.fromLatest.None? then None else LatestIndex(rules.fromLatest.value, events)
  }

  /** Folding on from the state of a prefix, as a cached read does, against
      reading the whole stream anew. The two differ only if the fold fails
      before it reaches the latest event that a fresh read starts from. */
  lemma {:induction false} ResumeExactly<S(!new)>(rules: Rules<S>, seen: Log, state: S, rest: Log)
    requires IgnoresPast(rules) && Meaning(rules, seen) == Ok(state)
    ensures Latest(rules, rest).None? ==> FoldFrom(rules, state, rest) == Meaning(rules, seen + rest)
    ensures Latest(rules, rest).Some? ==>
      var before := FoldFrom(rules, state, rest[..Latest(rules, rest).value]);
      FoldFrom(rules, state, rest) == if before.Err? then before else Meaning(rules, seen + rest)
  {
    hide Step, LatestIndex;
    LatestOfWhole(rules, seen, rest);
    if Latest(rules, rest).None? {
      var i := StartIndex(rules, seen);
      assert (seen + rest)[i..] == seen[i..] + rest;
      FoldAppend(rules, rules.initial, seen[i..], rest);
    } else {
      var k := Latest(rules, rest).value;
      assert (seen + rest)[|seen| + k..] == rest[k..];
      assert rest == rest[..k] + rest[k..];
      FoldAppend(rules, state, rest[..k], rest[k..]);
      var before := FoldFrom(rules, state, rest[..k]);
      if before.Ok? {
        FoldForgets(rules, before.value, rules.initial, rest[k..]);
      }
    }
  }

  lemma {:induction false} FoldForgets<S(!new)>(rules: Rules<S>, s: S, t: S, events: Log)
    requires IgnoresPast(rules) && rules.fromLatest.Some?
    requires events != [] && events[0].typ == rules.fromLatest.value
    ensures FoldFrom(rules, s, events) == FoldFrom(rules, t, events)
  {
    assert Step(rules, s, events[0]) == Step(rules, t, events[0]);
  }

  lemma {:induction false} LatestOfWhole<S>(rules: Rules<S>, seen: Log, rest: Log)
    ensures Latest(rules, rest).None? ==> StartIndex(rules, seen + rest) == StartIndex(rules, seen)
    ensures Latest(rules, rest).Some? ==> StartIndex(rules, seen + rest) == |seen| + Latest(rules, rest).value
  {
    var whole := seen + rest;
    assert forall k | 0 <= k < |seen| :: whole[k] == seen[k];
    assert forall k | 0 <= k < |rest| :: whole[|seen| + k] == rest[k];
    if rules.fromLatest.Some? {
      var typ := rules.fromLatest.value;
      var i, j := LatestIndex(typ, whole), LatestIndex(typ, rest);
      assert forall k | |seen| <= k < |whole| :: whole[k] == rest[k - |seen|];
      if j.Some? {
        assert whole[|seen| + j.value].typ == typ;
        assert i.Some?;
      }
    }
  }

  /** A fold that goes on from the state of a prefix and succeeds has built the
      state of the whole stream. */
  lemma {:induction false} ResumeSound<S(!new)>(rules: Rules<S>, seen: Log, state: S, rest: Log, next: S)
    requires IgnoresPast(rules) && Meaning(rules, seen) == Ok(state) && FoldFrom(rules, state, rest) == Ok(next)
    ensures Meaning(rules, seen + rest) == Ok(next)
  {
    ResumeExactly(rules, seen, state, rest);
  }

  /** If every event of a stream folds without error, starting from the latest
      event of a type yields the same state as starting from the first event. */
  lemma {:induction false} FromLatestIsFromFirst<S(!new)>(rules: Rules<S>, stream: Log)
    requires IgnoresPast(rules) && FoldFrom(rules, rules.initial, stream).Ok?
    ensures Meaning(rules, stream) == FoldFrom(rules, rules.initial, stream)
  {
    var k := StartIndex(rules, stream);
    assert stream == stream[..k] + stream[k..];
    FoldAppend(rules, rules.initial, stream[..k], stream[k..]);
    if k > 0 {
      FoldForgets(rules, FoldFrom(rules, rules.initial, stream[..k]).value, rules.initial, stream[k..]);
    }
  }

  /** Without that, the two may differ: a state with the rule "reset" only, which
      starts from the latest one, and an event in between that has no rule. A
      fold that goes on from the first event fails at it, a fresh read skips it. */
  lemma {:induction false} UnruledEventTellsCachedFromFresh()
    ensures exists rules: Rules<int>, seen: Log, state: int, rest: Log ::
      && IgnoresPast(rules) && seen != [] && Meaning(rules, seen) == Ok(state)
      && FoldFrom(rules, state, rest).Err? && Meaning(rules, seen + rest).Ok?
  {
    var reset: Evolve<int> := (s: int, data: string) => Ok(|data|);
    var rules := Rules("counter", 0, 0, map["reset" := reset], {}, map[], Some("reset"), true, true);
    var first, odd, second := Stored(0, "/c", "reset", ""), Stored(1, "/c", "odd", ""), Stored(2, "/c", "reset", "");
    RuleIgnoresPast(rules);
    assert Apply(rules.upcasters, first) == Ok([first]) && Apply(rules.upcasters, odd) == Ok([odd]) &&
      Apply(rules.upcasters, second) == Ok([second]);
    assert EvolveAll(rules, 0, [first]) == EvolveAll(rules, 0, [first][1..]) &&
      EvolveAll(rules, 0, [second]) == EvolveAll(rules, 0, [second][1..]);
    assert Step(rules, 0, first) == Ok(0) && Step(rules, 0, odd) == Err(Permanent) && Step(rules, 0, second) == Ok(0);
    var seen, rest := [first], [odd, second];
    var whole := seen + rest;
    assert whole == [first, odd, second];
    assert StartIndex(rules, seen) == 0 && seen[0..] == [first] && FoldFrom(rules, 0, [first]) == Ok(0);
    assert StartIndex(rules, whole) == 2 && whole[2..] == [second];
    FoldOne(rules, 0, second);
    assert FoldFrom(rules, 0, rest).Err?;
    assert IgnoresPast(rules) && Meaning(rules, seen) == Ok(0) && Meaning(rules, seen + rest).Ok?;
  }
}
