/** What fold makes of a stream from a cached state, against reading it anew. Both
    verify every event they read before they fold it (architecturekit/store.go). */
module CachedReads {
  import opened Basics
  import opened EventLog
  import opened Failures
  import opened Upcasting
  import opened StateRules
  import opened Store

  /** A fresh read, which starts at the latest event of the type. */
  function ReadAnew<S>(isVerified: Stored -> bool, rules: Rules<S>, stream: Log): Result<S, Failure> {
    FoldVerified(isVerified, rules, rules.initial, stream[StartIndex(rules, stream)..])
  }

  lemma {:induction false} FoldVerifiedAppend<S>(
      isVerified: Stored -> bool, rules: Rules<S>, current: S, a: Log, b: Log)
    ensures FoldVerified(isVerified, rules, current, a + b) ==
      match FoldVerified(isVerified, rules, current, a)
      case Err(e) => Err(e)
      case Ok(next) => FoldVerified(isVerified, rules, next, b)
  {
    hide StateRules.Step;
    if a == [] {
      assert a + b == b;
    } else {
      assert (a + b)[0] == a[0] && (a + b)[1..] == a[1..] + b;
      var next := StateRules.Step(rules, current, a[0]);
      if next.Ok? {
        FoldVerifiedAppend(isVerified, rules, next.value, a[1..], b);
      }
    }
  }

  lemma {:induction false} FoldVerifiedForgets<S(!new)>(
      isVerified: Stored -> bool, rules: Rules<S>, s: S, t: S, events: Log)
    requires IgnoresPast(rules) && rules.fromLatest.Some?
    requires events != [] && events[0].typ == rules.fromLatest.value
    ensures FoldVerified(isVerified, rules, s, events) == FoldVerified(isVerified, rules, t, events)
  {
    assert StateRules.Step(rules, s, events[0]) == StateRules.Step(rules, t, events[0]);
  }

  /** Going on from the state that was read of a prefix, against a fresh read of the
      whole: the two differ only if going on fails before the latest of the type. */
  lemma {:induction false} ReadOnExactly<S(!new)>(
      isVerified: Stored -> bool, rules: Rules<S>, seen: Log, state: S, rest: Log)
    requires IgnoresPast(rules) && ReadAnew(isVerified, rules, seen) == Ok(state)
    ensures Latest(rules, rest).None? ==>
      FoldVerified(isVerified, rules, state, rest) == ReadAnew(isVerified, rules, seen + rest)
    ensures Latest(rules, rest).Some? ==>
      var before := FoldVerified(isVerified, rules, state, rest[..Latest(rules, rest).value]);
      FoldVerified(isVerified, rules, state, rest) ==
        if before.Err? then before else ReadAnew(isVerified, rules, seen + rest)
  {
    hide StateRules.Step, LatestIndex, FoldVerified;
    LatestOfWhole(rules, seen, rest);
    if Latest(rules, rest).None? {
      var i := StartIndex(rules, seen);
      assert (seen + rest)[i..] == seen[i..] + rest;
      FoldVerifiedAppend(isVerified, rules, rules.initial, seen[i..], rest);
    } else {
      var k := Latest(rules, rest).value;
      assert (seen + rest)[|seen| + k..] == rest[k..];
      assert rest == rest[..k] + rest[k..];
      FoldVerifiedAppend(isVerified, rules, state, rest[..k], rest[k..]);
      var before := FoldVerified(isVerified, rules, state, rest[..k]);
      if before.Ok? {
        FoldVerifiedForgets(isVerified, rules, before.value, rules.initial, rest[k..]);
      }
    }
  }

  // ----- Which events stop a read -----

  /** No rule can take the event, whatever the state: its upcasters fail, or one of the
      events they make of it has no rule. */
  predicate IsUnruled<S>(rules: Rules<S>, stored: Stored) {
    var parts := Apply(rules.upcasters, stored);
    parts.Err? || exists i | 0 <= i < |parts.value| :: parts.value[i].typ !in rules.evolve
  }

  /** No read gets past the event. */
  predicate Stops<S>(isVerified: Stored -> bool, rules: Rules<S>, stored: Stored) {
    !isVerified(stored) || IsUnruled(rules, stored)
  }

  ghost predicate RulesNeverFail<S(!new)>(rules: Rules<S>) {
    forall typ <- rules.evolve, s: S, data: string :: rules.evolve[typ](s, data).Ok?
  }

  lemma {:induction false} EvolvesExactly<S(!new)>(rules: Rules<S>, current: S, events: seq<Stored>)
    ensures (exists i | 0 <= i < |events| :: events[i].typ !in rules.evolve) ==> EvolveAll(rules, current, events).Err?
    ensures RulesNeverFail(rules) && EvolveAll(rules, current, events).Err? ==>
      exists i | 0 <= i < |events| :: events[i].typ !in rules.evolve
  {
    if events != [] && events[0].typ in rules.evolve {
      var next := rules.evolve[events[0].typ](current, events[0].data);
      if next.Ok? {
        var rest := events[1..];
        EvolvesExactly(rules, next.value, rest);
        assert forall i | 0 < i < |events| :: events[i] == rest[i - 1];
        assert forall i | 0 <= i < |rest| :: rest[i] == events[i + 1];
      }
    }
  }

  lemma {:induction false} StepFailsExactly<S(!new)>(rules: Rules<S>, current: S, stored: Stored)
    ensures IsUnruled(rules, stored) ==> StateRules.Step(rules, current, stored).Err?
    ensures RulesNeverFail(rules) && StateRules.Step(rules, current, stored).Err? ==> IsUnruled(rules, stored)
  {
    var parts := Apply(rules.upcasters, stored);
    hide Apply, EvolveAll, RulesNeverFail;
    if parts.Ok? {
      EvolvesExactly(rules, current, parts.value);
    }
  }

  ghost predicate HasStop<S>(isVerified: Stored -> bool, rules: Rules<S>, events: Log) {
    exists i | 0 <= i < |events| :: Stops(isVerified, rules, events[i])
  }

  lemma {:induction false} StopFirstOrLater<S>(isVerified: Stored -> bool, rules: Rules<S>, events: Log)
    requires events != []
    ensures HasStop(isVerified, rules, events) <==>
      Stops(isVerified, rules, events[0]) || HasStop(isVerified, rules, events[1..])
  {
    hide Stops;
    var rest := events[1..];
    assert forall i | 0 < i < |events| :: events[i] == rest[i - 1];
    assert forall i | 0 <= i < |rest| :: rest[i] == events[i + 1];
  }

  /** An event that is not verified, or that no rule can take, stops a read, and nothing
      else does if the rules themselves do not fail. */
  lemma {:induction false} ReadsExactly<S(!new)>(isVerified: Stored -> bool, rules: Rules<S>, current: S, events: Log)
    ensures HasStop(isVerified, rules, events) ==> FoldVerified(isVerified, rules, current, events).Err?
    ensures RulesNeverFail(rules) && FoldVerified(isVerified, rules, current, events).Err? ==>
      HasStop(isVerified, rules, events)
  {
    hide RulesNeverFail, StateRules.Step, IsUnruled, HasStop;
    if events == [] {
      NothingStops(isVerified, rules);
    } else {
      StepFailsExactly(rules, current, events[0]);
      StopFirstOrLater(isVerified, rules, events);
      var next := StateRules.Step(rules, current, events[0]);
      if next.Ok? {
        ReadsExactly(isVerified, rules, next.value, events[1..]);
      }
    }
  }

  lemma {:induction false} NothingStops<S>(isVerified: Stored -> bool, rules: Rules<S>)
    ensures !HasStop(isVerified, rules, [])
  {
  }

  /** After the cached events and before the latest of the type there is one that stops
      every read. */
  ghost predicate HasStopBetween<S>(isVerified: Stored -> bool, rules: Rules<S>, rest: Log) {
    Latest(rules, rest).Some? && HasStop(isVerified, rules, rest[..Latest(rules, rest).value])
  }

  /** Such an event makes going on from a cached state fail. With rules that do not fail
      themselves, it is the only thing that does where a fresh read succeeds. */
  lemma {:induction false} ReadOnFailsExactly<S(!new)>(
      isVerified: Stored -> bool, rules: Rules<S>, seen: Log, state: S, rest: Log)
    requires IgnoresPast(rules) && ReadAnew(isVerified, rules, seen) == Ok(state)
    ensures HasStopBetween(isVerified, rules, rest) ==> FoldVerified(isVerified, rules, state, rest).Err?
    ensures RulesNeverFail(rules) && ReadAnew(isVerified, rules, seen + rest).Ok? ==>
      (FoldVerified(isVerified, rules, state, rest) == ReadAnew(isVerified, rules, seen + rest) <==>
        !HasStopBetween(isVerified, rules, rest))
  {
    ReadOnExactly(isVerified, rules, seen, state, rest);
    hide FoldVerified, ReadAnew, LatestIndex, HasStop, RulesNeverFail, IgnoresPast;
    if Latest(rules, rest).Some? {
      ReadsExactly(isVerified, rules, state, rest[..Latest(rules, rest).value]);
    }
  }

  // ----- Where the two differ -----

  /** Going on from the cached state fails, and a fresh read does not. */
  ghost predicate TellsApart<S(!new)>(isVerified: Stored -> bool, rules: Rules<S>, seen: Log, rest: Log) {
    && IgnoresPast(rules) && seen != []
    && var cached, anew := ReadAnew(isVerified, rules, seen), ReadAnew(isVerified, rules, seen + rest);
    && cached.Ok? && anew.Ok?
    && FoldVerified(isVerified, rules, cached.value, rest).Err?
  }

  /** A state that a "reset" sets and an "odd" event leaves as it is, if there is a rule
      for that, and that is read from the latest "reset" on. */
  ghost function Counter(hasOddRule: bool): Rules<int> {
    var reset: Evolve<int> := (s: int, data: string) => Ok(|data|);
    var stay: Evolve<int> := (s: int, data: string) => Ok(s);
    var evolve := if hasOddRule then map["reset" := reset, "odd" := stay] else map["reset" := reset];
    Rules("counter", 0, 0, evolve, {}, map[], Some("reset"), true, true)
  }

  const FIRST := Stored.Stored(0, "/c", "reset", "")
  const ODD := Stored.Stored(1, "/c", "odd", "")
  const SECOND := Stored.Stored(2, "/c", "reset", "")

  lemma {:induction false} CounterReads(isVerified: Stored -> bool, hasOddRule: bool)
    requires isVerified(FIRST) && isVerified(SECOND)
    ensures var rules := Counter(hasOddRule);
      && IgnoresPast(rules) && ReadAnew(isVerified, rules, [FIRST]) == Ok(0)
      && ReadAnew(isVerified, rules, [FIRST] + [ODD, SECOND]) == Ok(0)
      && Latest(rules, [ODD, SECOND]) == Some(1)
  {
    var rules := Counter(hasOddRule);
    RuleIgnoresPast(rules);
    assert EvolveAll(rules, 0, [FIRST]) == EvolveAll(rules, 0, [FIRST][1..]);
    assert EvolveAll(rules, 0, [SECOND]) == EvolveAll(rules, 0, [SECOND][1..]);
    assert Apply(rules.upcasters, FIRST) == Ok([FIRST]) && Apply(rules.upcasters, SECOND) == Ok([SECOND]);
    assert StateRules.Step(rules, 0, FIRST) == Ok(0) && StateRules.Step(rules, 0, SECOND) == Ok(0);
    assert rules.fromLatest == Some("reset") && rules.initial == 0;
    hide StateRules.Step, Counter, IgnoresPast;
    var whole := [FIRST] + [ODD, SECOND];
    assert whole == [FIRST, ODD, SECOND];
    assert StartIndex(rules, [FIRST]) == 0 && [FIRST][0..] == [FIRST] && [FIRST][1..] == [];
    assert StartIndex(rules, whole) == 2 && whole[2..] == [SECOND] && [SECOND][1..] == [];
    assert FoldVerified(isVerified, rules, 0, [FIRST]) == Ok(0);
    assert FoldVerified(isVerified, rules, 0, [SECOND]) == Ok(0);
    assert [ODD, SECOND][..1] == [ODD];
    assert LatestIndex("reset", [ODD, SECOND]) == Some(1);
  }

  /** An event between two resets without a rule, or one that does not verify: a read
      that goes on from the first reset fails at it, and a fresh read skips it. */
  lemma {:induction false} StopTellsCachedFromFresh(isVerified: Stored -> bool, hasOddRule: bool)
    requires isVerified(FIRST) && isVerified(SECOND) && (isVerified(ODD) ==> !hasOddRule)
    ensures TellsApart(isVerified, Counter(hasOddRule), [FIRST], [ODD, SECOND])
  {
    var rules, rest := Counter(hasOddRule), [ODD, SECOND];
    CounterReads(isVerified, hasOddRule);
    assert Apply(rules.upcasters, ODD) == Ok([ODD]) && [ODD][0] == ODD;
    assert Stops(isVerified, rules, ODD);
    assert rest[..1][0] == ODD && HasStop(isVerified, rules, rest[..1]);
    hide FoldVerified, ReadAnew, HasStop, Stops, IgnoresPast;
    ReadOnFailsExactly(isVerified, rules, [FIRST], 0, rest);
  }

  /** It can be an event that every rule takes, but that does not verify. */
  lemma {:induction false} UnverifiedEventTellsCachedFromFresh()
    ensures TellsApart((e: Stored) => e.id != 1, Counter(true), [FIRST], [ODD, SECOND])
    ensures RulesNeverFail(Counter(true)) && !IsUnruled(Counter(true), ODD)
  {
    StopTellsCachedFromFresh((e: Stored) => e.id != 1, true);
    assert Apply(Counter(true).upcasters, ODD) == Ok([ODD]);
  }
}
