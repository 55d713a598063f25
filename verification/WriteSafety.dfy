/** What holds in every run of the write protocol: a batch written under
    OnStateRead was decided on exactly the state of the whole stream at the
    moment of the append, and every Execute appends at most once. */
module WriteSafety {
  import opened Basics
  import opened EventLog
  import opened Failures
  import opened Preconditions
  import opened StateCaching
  import opened StateRules
  import opened WriteProtocol

  function RulesOf<S>(team: seq<Command<S>>): seq<Rules<S>> {
    seq(|team|, i requires 0 <= i < |team| => team[i].rules)
  }

  /** What the kit demands of an application. That every stored event folds is
      not among it. */
  ghost predicate Configured<S(!new)>(team: seq<Command<S>>) {
    && (forall i | 0 <= i < |team| :: IgnoresPast(team[i].rules))
    && EqualShapesMeanEqualRules(RulesOf(team))
  }

  // ----- The invariant -----

  /** A state as a fold hands it out, with the last event it was built from. */
  ghost predicate Folded<S>(rules: Rules<S>, stream: Log, state: S, last: Option<nat>) {
    match last
    case None => state == rules.initial
    case Some(id) => Covers(rules, stream, state, id)
  }

  /** A fold under way: nothing is read yet, and the read starts with the first
      event or with the latest of the type, or what is read is folded. */
  ghost predicate Underway<S>(rules: Rules<S>, stream: Log, current: S, last: Option<nat>, cursor: nat, seen: nat) {
    && cursor <= |stream| && seen <= |stream|
    && match last
       case None =>
         && current == rules.initial
         && (cursor == 0 || (cursor < seen && rules.fromLatest == Some(stream[cursor].typ)))
       case Some(id) => 0 < cursor && stream[cursor - 1].id == id && Meaning(rules, stream[..cursor]) == Ok(current)
  }

  /** The batch is what the decider returned for the state, event by event. */
  ghost predicate DecidedOn<S>(cmd: Command<S>, state: S, batch: seq<Candidate>) {
    var decision := cmd.decide(state);
    decision.Decided? && MayBeWritten(cmd.rules, decision.events) && IsBatchOf(decision.events, batch)
  }

  /** The batch was decided on the state of the stream as it was at some moment. */
  ghost predicate DecidedOnSome<S>(cmd: Command<S>, stream: Log, batch: seq<Candidate>) {
    exists n | 0 <= n <= |stream| ::
      Meaning(cmd.rules, stream[..n]).Ok? && DecidedOn(cmd, Meaning(cmd.rules, stream[..n]).value, batch)
  }

  /** What was declared besides the state read holds of the log. */
  ghost predicate ConditionsHold<S>(cmd: Command<S>, log: Log) {
    forall i | 0 <= i < |cmd.declared| && !cmd.declared[i].OnStateRead? ::
      DeclaredHolds(log, cmd.subject, cmd.declared[i], None)
  }

  ghost predicate PhaseInv<S>(cmd: Command<S>, log: Log, phase: Phase<S>) {
    var stream := Stream(log, cmd.subject);
    match phase
    case Starting => true
    case Opening(current, bound) => Check(cmd.declared).Ok? && Folded(cmd.rules, stream, current, bound)
    case Keeping(state, last) => Check(cmd.declared).Ok? && Folded(cmd.rules, stream, state, last)
    case Reading(current, last, cursor, seen) =>
      Check(cmd.declared).Ok? && Underway(cmd.rules, stream, current, last, cursor, seen)
    case Deciding(state, last) => Check(cmd.declared).Ok? && Folded(cmd.rules, stream, state, last)
    case Writing(state, last, batch) =>
      Check(cmd.declared).Ok? && Folded(cmd.rules, stream, state, last) && DecidedOn(cmd, state, batch)
    case Finished(_) => true
  }

  /** An append is in the log, it was decided on a state of the stream, under OnStateRead
      on that of the whole stream as the log was right before it, and what else was
      declared held then. */
  ghost predicate AppendInv<S>(team: seq<Command<S>>, log: Log, append: Append) {
    && append.who < |team|
    && append.at + |append.batch| <= |log|
    && var cmd := team[append.who];
    && Records(cmd.subject, append.batch, log[append.at..append.at + |append.batch|])
    && ConditionsHold(cmd, log[..append.at])
    && DecidedOnSome(cmd, Stream(log[..append.at], cmd.subject), append.batch)
    && (HasOnStateRead(cmd.declared) ==>
          var state := Meaning(cmd.rules, Stream(log[..append.at], cmd.subject));
          state.Ok? && DecidedOn(cmd, state.value, append.batch))
  }

  /** What an executor has appended fits where it stands. */
  ghost predicate Accounted<S>(log: Log, appends: seq<Append>, who: nat, phase: Phase<S>) {
    && (forall k | 0 <= k < |appends| :: appends[k].who == who ==>
          phase.Finished? && (phase.outcome.Returned? || phase.outcome == Failed(OutcomeUnknown)))
    && (phase.Finished? && phase.outcome.Returned? ==>
          exists k :: 0 <= k < |appends| && appends[k].who == who && appends[k].at + |appends[k].batch| <= |log|
            && log[appends[k].at..appends[k].at + |appends[k].batch|] == phase.outcome.events)
  }

  ghost predicate Counted<S>(cmd: Command<S>, x: Executor<S>) {
    && x.attempt <= Retries(cmd) && x.decisions <= x.attempt + 1
    && (!x.phase.Writing? && !x.phase.Finished? ==> x.decisions <= x.attempt)
  }

  ghost predicate ExecutorInv<S>(cmd: Command<S>, log: Log, appends: seq<Append>, who: nat, x: Executor<S>) {
    PhaseInv(cmd, log, x.phase) && Accounted(log, appends, who, x.phase) && Counted(cmd, x)
  }

  ghost predicate CacheInv<S(!new)>(team: seq<Command<S>>, log: Log, cache: Option<Cache<S>>) {
    cache.Some? ==> Valid(cache.value) && Sound(RulesOf(team), log, cache.value)
  }

  ghost predicate AppendsInv<S>(team: seq<Command<S>>, log: Log, appends: seq<Append>) {
    && (forall k | 0 <= k < |appends| :: AppendInv(team, log, appends[k]))
    && (forall j, k | 0 <= j < k < |appends| :: appends[j].who != appends[k].who)
  }

  ghost predicate Inv<S(!new)>(team: seq<Command<S>>, s: System<S>) {
    && Ascending(s.log) && |s.executors| == |team|
    && CacheInv(team, s.log, s.cache)
    && AppendsInv(team, s.log, s.appends)
    && forall i | 0 <= i < |team| :: ExecutorInv(team[i], s.log, s.appends, i, s.executors[i])
  }

  // ----- Growing the log -----

  lemma {:induction false} PhaseGrows<S>(cmd: Command<S>, log: Log, more: Log, phase: Phase<S>)
    requires PhaseInv(cmd, log, phase)
    ensures PhaseInv(cmd, log + more, phase)
  {
    StreamGrows(log, more, cmd.subject);
    var stream, rest := Stream(log, cmd.subject), Stream(more, cmd.subject);
    match phase
    case Opening(state, bound) => FoldedGrows(cmd.rules, stream, rest, state, bound);
    case Reading(_, last, cursor, _) => assert (stream + rest)[..cursor] == stream[..cursor];
    case Keeping(state, last) => FoldedGrows(cmd.rules, stream, rest, state, last);
    case Deciding(state, last) => FoldedGrows(cmd.rules, stream, rest, state, last);
    case Writing(state, last, _) => FoldedGrows(cmd.rules, stream, rest, state, last);
    case _ =>
  }

  lemma {:induction false} FoldedGrows<S>(rules: Rules<S>, stream: Log, more: Log, state: S, last: Option<nat>)
    requires Folded(rules, stream, state, last)
    ensures Folded(rules, stream + more, state, last)
  {
    if last.Some? {
      CoverageGrows(rules, stream, more, state, last.value);
    }
  }

  lemma {:induction false} AppendGrows<S>(team: seq<Command<S>>, log: Log, more: Log, append: Append)
    requires AppendInv(team, log, append)
    ensures AppendInv(team, log + more, append)
  {
    assert (log + more)[append.at..append.at + |append.batch|] == log[append.at..append.at + |append.batch|];
    assert (log + more)[..append.at] == log[..append.at];
  }

  lemma {:induction false} AccountedGrows<S>(log: Log, more: Log, appends: seq<Append>, who: nat, phase: Phase<S>)
    requires Accounted(log, appends, who, phase)
    ensures Accounted(log + more, appends, who, phase)
  {
    if phase.Finished? && phase.outcome.Returned? {
      var k :| 0 <= k < |appends| && appends[k].who == who && appends[k].at + |appends[k].batch| <= |log|
        && log[appends[k].at..appends[k].at + |appends[k].batch|] == phase.outcome.events;
      var from, to := appends[k].at, appends[k].at + |appends[k].batch|;
      assert (log + more)[from..to] == log[from..to];
    }
  }

  /** Nothing that is known is lost when someone writes. */
  lemma {:induction false} InvGrows<S(!new)>(team: seq<Command<S>>, s: System<S>, more: Log)
    requires Inv(team, s) && Ascending(s.log + more)
    ensures Inv(team, s.(log := s.log + more))
  {
    if s.cache.Some? {
      SoundGrows(RulesOf(team), s.log, more, s.cache.value);
    }
    forall k | 0 <= k < |s.appends| ensures AppendInv(team, s.log + more, s.appends[k]) {
      AppendGrows(team, s.log, more, s.appends[k]);
    }
    forall i | 0 <= i < |team| ensures ExecutorInv(team[i], s.log + more, s.appends, i, s.executors[i]) {
      PhaseGrows(team[i], s.log, more, s.executors[i].phase);
      AccountedGrows(s.log, more, s.appends, i, s.executors[i].phase);
    }
  }

  // ----- The steps of one executor -----

  lemma {:induction false} ConcludeKeeps<S>(
      cmd: Command<S>, log: Log, appends: seq<Append>, who: nat, x: Executor<S>, failure: Failure, ended: bool)
    requires ExecutorInv(cmd, log, appends, who, x) && !x.phase.Finished?
    ensures ExecutorInv(cmd, log, appends, who, Conclude(cmd, x, failure, ended))
  {
  }

  /** A cached state is what a fold can go on from, right after the event that
      the entry names. */
  lemma {:induction false} CoveredIsUnderway<S>(rules: Rules<S>, stream: Log, state: S, last: nat)
    requires Ascending(stream) && Covers(rules, stream, state, last)
    ensures Underway(rules, stream, state, Some(last), |stream| - |After(stream, Some(last))|, |stream|)
  {
    hide Meaning, After;
    var n :| 0 < n <= |stream| && stream[n - 1].id == last && Meaning(rules, stream[..n]) == Ok(state);
    assert LastId(stream[..n]) == Some(last);
    AfterPrefix(stream, n);
  }

  /** Whatever a command finds in the cache covers its stream, or belongs to
      another state. */
  ghost predicate FoundCovers<S>(s: System<S>, cmd: Command<S>) {
    UsesCache(s, cmd) && KeyOf(cmd) in s.cache.value.entries ==>
      var entry := s.cache.value.entries[KeyOf(cmd)];
      ShapeEquals(entry.shape, ShapeOf(cmd.rules)) ==>
        Covers(cmd.rules, Stream(s.log, cmd.subject), entry.state, entry.last)
  }

  lemma {:induction false} CacheCovers<S(!new)>(team: seq<Command<S>>, s: System<S>, who: nat)
    requires CacheInv(team, s.log, s.cache) && who < |team|
    ensures FoundCovers(s, team[who])
  {
    var key := KeyOf(team[who]);
    if UsesCache(s, team[who]) && key in s.cache.value.entries {
      assert EntrySound(RulesOf(team), s.log, key, s.cache.value.entries[key]);
      assert RulesOf(team)[who] == team[who].rules;
    }
  }

  lemma {:induction false} BegunKeeps<S>(cmd: Command<S>, s: System<S>, who: nat, x: Executor<S>)
    requires x.phase.Starting? && FoundCovers(s, cmd)
    requires ExecutorInv(cmd, s.log, s.appends, who, x)
    ensures ExecutorInv(cmd, s.log, s.appends, who, Begun(s, cmd, x))
  {
  }

  lemma {:induction false} OpenedKeeps<S>(cmd: Command<S>, s: System<S>, who: nat, x: Executor<S>)
    requires Ascending(s.log) && x.phase.Opening?
    requires ExecutorInv(cmd, s.log, s.appends, who, x)
    ensures ExecutorInv(cmd, s.log, s.appends, who, Opened(s, cmd, x))
  {
    var stream := Stream(s.log, cmd.subject);
    var phase := Opened(s, cmd, x).phase;
    if phase.last.Some? {
      FilterAscends(On(cmd.subject), s.log);
      CoveredIsUnderway(cmd.rules, stream, phase.current, phase.last.value);
    }
    assert Underway(cmd.rules, stream, phase.current, phase.last, phase.cursor, phase.seen);
  }

  /** One more event: what was folded of a prefix becomes the state of the longer
      prefix. */
  lemma {:induction false} ReadKeeps<S(!new)>(
      rules: Rules<S>, stream: Log, current: S, last: Option<nat>, cursor: nat, seen: nat)
    requires IgnoresPast(rules) && Underway(rules, stream, current, last, cursor, seen) && cursor < |stream|
    requires StateRules.Step(rules, current, stream[cursor]).Ok?
    ensures Underway(rules, stream, StateRules.Step(rules, current, stream[cursor]).value, Some(stream[cursor].id),
      cursor + 1, seen)
  {
    var next := StateRules.Step(rules, current, stream[cursor]).value;
    FoldOne(rules, current, stream[cursor]);
    assert stream[..cursor + 1] == stream[..cursor] + [stream[cursor]];
    if last.Some? {
      ResumeSound(rules, stream[..cursor], current, [stream[cursor]], next);
    } else {
      var prefix := stream[..cursor + 1];
      assert StartIndex(rules, prefix) == cursor;
      assert prefix[cursor..] == [stream[cursor]];
    }
  }

  lemma {:induction false} UnderwayIsFolded<S>(
      rules: Rules<S>, stream: Log, current: S, last: Option<nat>, cursor: nat, seen: nat)
    requires Underway(rules, stream, current, last, cursor, seen)
    ensures Folded(rules, stream, current, last)
  {
  }

  /** Under OnStateRead, the database appends only while the state that was read
      is the state of the whole stream. */
  lemma {:induction false} HoldsOnStateRead<S>(cmd: Command<S>, log: Log, last: Option<nat>)
    requires Check(cmd.declared).Ok? && HasOnStateRead(cmd.declared) && AllHold(log, cmd, last)
    ensures LastId(Stream(log, cmd.subject)) == last
  {
    var i :| 0 <= i < |cmd.declared| && cmd.declared[i].OnStateRead?;
    ResolvedAligns(cmd.subject, cmd.declared, last);
    OnStateReadIsExact(log, cmd.subject, last);
    assert Resolve(cmd.subject, cmd.declared, last)[i] == ResolveOne(cmd.subject, OnStateRead, last)[0];
  }

  lemma {:induction false} AppendedOnWholeStream<S>(cmd: Command<S>, log: Log, state: S, last: Option<nat>)
    requires Ascending(log) && Check(cmd.declared).Ok? && HasOnStateRead(cmd.declared)
    requires Folded(cmd.rules, Stream(log, cmd.subject), state, last) && AllHold(log, cmd, last)
    ensures Meaning(cmd.rules, Stream(log, cmd.subject)) == Ok(state)
  {
    var stream := Stream(log, cmd.subject);
    HoldsOnStateRead(cmd, log, last);
    hide Stream, Meaning, AllHold, Check;
    if last.Some? {
      FilterAscends(On(cmd.subject), log);
      var n :| 0 < n <= |stream| && stream[n - 1].id == last.value && Meaning(cmd.rules, stream[..n]) == Ok(state);
      assert n == |stream| && stream[..n] == stream;
    }
  }

  /** What the database checks before an append is what the command has declared. */
  lemma {:induction false} ConditionsHeld<S>(cmd: Command<S>, log: Log, last: Option<nat>)
    requires AllHold(log, cmd, last)
    ensures AllDeclaredHold(log, cmd.subject, cmd.declared, last) && ConditionsHold(cmd, log)
  {
    ResolvedHoldExactly(log, cmd.subject, cmd.declared, last);
    hide Resolve, Holds;
    forall i | 0 <= i < |cmd.declared| && !cmd.declared[i].OnStateRead?
      ensures DeclaredHolds(log, cmd.subject, cmd.declared[i], None)
    {
      assert DeclaredHolds(log, cmd.subject, cmd.declared[i], last);
    }
  }

  lemma {:induction false} FoldedIsDecidedOn<S>(
      cmd: Command<S>, stream: Log, state: S, last: Option<nat>, batch: seq<Candidate>)
    requires Folded(cmd.rules, stream, state, last) && DecidedOn(cmd, state, batch)
    ensures DecidedOnSome(cmd, stream, batch)
  {
    if last.None? {
      assert Meaning(cmd.rules, stream[..0]) == Ok(state);
    }
    hide Meaning, DecidedOn;
  }

  lemma {:induction false} WriteKeeps<S(!new)>(
      team: seq<Command<S>>, s: System<S>, who: nat, stored: Log, outcome: Outcome)
    requires Inv(team, s) && who < |team| && s.executors[who].phase.Writing?
    requires AllHold(s.log, team[who], s.executors[who].phase.last)
    requires Records(team[who].subject, s.executors[who].phase.batch, stored) && Ascending(s.log + stored)
    requires outcome == Returned(stored) || outcome == Failed(OutcomeUnknown)
    ensures Inv(team, Become(Appended(s, who, stored), who, s.executors[who].(phase := Finished(outcome))))
  {
    var x := s.executors[who];
    var log, append := s.log + stored, Append(who, |s.log|, x.phase.batch);
    assert ExecutorInv(team[who], s.log, s.appends, who, x);
    StoredIsRight(team, s.log, x, append, stored);
    InvGrows(team, s, stored);
    NobodyAppendedTwice(team, s, who);
    hide PhaseInv, Accounted, Counted, AppendInv, CacheInv, Records, AllHold, Ascending;
    assert AppendsInv(team, log, s.appends + [append]);
    forall i | 0 <= i < |team|
      ensures ExecutorInv(
        team[i], log, s.appends + [append], i, if i == who then x.(phase := Finished(outcome)) else s.executors[i])
    {
      assert ExecutorInv(team[i], log, s.appends, i, s.executors[i]);
      if i == who {
        WriterIsDone(team[i], s.log, s.appends, append, x, stored, outcome);
      } else {
        MoreAppends(log, s.appends, append, i, s.executors[i].phase);
      }
    }
  }

  lemma {:induction false} NobodyAppendedTwice<S(!new)>(team: seq<Command<S>>, s: System<S>, who: nat)
    requires Inv(team, s) && who < |team| && s.executors[who].phase.Writing?
    ensures forall k | 0 <= k < |s.appends| :: s.appends[k].who != who
  {
    hide PhaseInv, CacheInv, AppendInv;
    assert ExecutorInv(team[who], s.log, s.appends, who, s.executors[who]);
  }

  lemma {:induction false} WriterIsDone<S>(
      cmd: Command<S>, log: Log, appends: seq<Append>, append: Append, x: Executor<S>, stored: Log, outcome: Outcome)
    requires ExecutorInv(cmd, log + stored, appends, append.who, x) && x.phase.Writing?
    requires append == Append(append.who, |log|, x.phase.batch) && |stored| == |append.batch|
    requires outcome == Returned(stored) || outcome == Failed(OutcomeUnknown)
    ensures ExecutorInv(cmd, log + stored, appends + [append], append.who, x.(phase := Finished(outcome)))
  {
    assert (appends + [append])[|appends|] == append;
    assert (log + stored)[|log|..|log| + |stored|] == stored;
  }

  lemma {:induction false} StoredIsRight<S>(
      team: seq<Command<S>>, log: Log, x: Executor<S>, append: Append, stored: Log)
    requires Ascending(log) && append.who < |team| && x.phase.Writing? && PhaseInv(team[append.who], log, x.phase)
    requires AllHold(log, team[append.who], x.phase.last) && append == Append(append.who, |log|, x.phase.batch)
    requires Records(team[append.who].subject, x.phase.batch, stored)
    ensures AppendInv(team, log + stored, append)
  {
    hide Stream, Meaning, AllHold, Check, Folded, Ascending, DecidedOn, DecidedOnSome, ConditionsHold;
    assert (log + stored)[|log|..|log| + |stored|] == stored && (log + stored)[..|log|] == log;
    ConditionsHeld(team[append.who], log, x.phase.last);
    FoldedIsDecidedOn(
      team[append.who], Stream(log, team[append.who].subject), x.phase.state, x.phase.last, append.batch);
    if HasOnStateRead(team[append.who].declared) {
      AppendedOnWholeStream(team[append.who], log, x.phase.state, x.phase.last);
    }
  }

  lemma {:induction false} MoreAppends<S>(log: Log, appends: seq<Append>, append: Append, who: nat, phase: Phase<S>)
    requires Accounted(log, appends, who, phase) && append.who != who
    ensures Accounted(log, appends + [append], who, phase)
  {
    if phase.Finished? && phase.outcome.Returned? {
      var k :| 0 <= k < |appends| && appends[k].who == who && appends[k].at + |appends[k].batch| <= |log|
        && log[appends[k].at..appends[k].at + |appends[k].batch|] == phase.outcome.events;
      assert (appends + [append])[k] == appends[k];
    }
  }

  // ----- Every run -----

  lemma {:induction false} BecomeKeeps<S(!new)>(
      team: seq<Command<S>>, s: System<S>, who: nat, x: Executor<S>, cache: Option<Cache<S>>)
    requires Inv(team, s) && who < |team|
    requires ExecutorInv(team[who], s.log, s.appends, who, x) && CacheInv(team, s.log, cache)
    ensures Inv(team, Become(s, who, x).(cache := cache))
  {
  }

  lemma {:induction false} InitHolds<S(!new)>(team: seq<Command<S>>, s: System<S>)
    requires Init(team, s)
    ensures Inv(team, s)
  {
  }

  lemma {:induction false} StepKeeps<S(!new)>(team: seq<Command<S>>, s: System<S>, step: WriteProtocol.Step)
    requires Configured(team) && Inv(team, s) && Enabled(team, s, step)
    ensures Inv(team, Perform(team, s, step))
  {
    match step
    case Foreign(more) => InvGrows(team, s, more);
    case LookUp(who) => LookUpKeeps(team, s, who);
    case OpenRead(who) =>
      OpenedKeeps(team[who], s, who, s.executors[who]);
      BecomeKeeps(team, s, who, Opened(s, team[who], s.executors[who]), s.cache);
    case ReadOne(who, ended) =>
      ReadOneKeeps(team, s, who, ended);
      BecomeKeeps(team, s, who, ReadNext(s, team[who], s.executors[who], ended), s.cache);
    case ReadFails(who, failure, ended) =>
      ConcludeKeeps(team[who], s.log, s.appends, who, s.executors[who], failure, ended);
      BecomeKeeps(team, s, who, Conclude(team[who], s.executors[who], failure, ended), s.cache);
    case EndRead(who) =>
      var x := s.executors[who];
      EndReadKeeps(team, s, who);
      BecomeKeeps(team, s, who, x.(phase := Keeping(x.phase.current, x.phase.last)), s.cache);
    case KeepState(who) => KeepStateKeeps(team, s, who);
    case Decide(who, ended) =>
      DecideKeeps(team[who], s.log, s.appends, who, s.executors[who], ended);
      BecomeKeeps(team, s, who, DecideOn(team[who], s.executors[who], ended), s.cache);
    case WriteStores(who, stored) => WriteKeeps(team, s, who, stored, Returned(stored));
    case WriteFails(who, err, stored, ended) =>
      var concluded := Conclude(team[who], s.executors[who], WriteFailure(err), ended);
      if stored.Some? {
        WriteKeeps(team, s, who, stored.value, Failed(OutcomeUnknown));
      } else {
        ConcludeKeeps(team[who], s.log, s.appends, who, s.executors[who], WriteFailure(err), ended);
        BecomeKeeps(team, s, who, concluded, s.cache);
      }
  }

  lemma {:induction false} ReadOneKeeps<S(!new)>(team: seq<Command<S>>, s: System<S>, who: nat, ended: bool)
    requires Configured(team) && Inv(team, s) && Enabled(team, s, ReadOne(who, ended))
    ensures ExecutorInv(team[who], s.log, s.appends, who, ReadNext(s, team[who], s.executors[who], ended))
  {
    var cmd, x := team[who], s.executors[who];
    var stream := Stream(s.log, cmd.subject);
    assert ExecutorInv(cmd, s.log, s.appends, who, x);
    var read := StateRules.Step(cmd.rules, x.phase.current, stream[x.phase.cursor]);
    if read.Ok? {
      ReadKeeps(cmd.rules, stream, x.phase.current, x.phase.last, x.phase.cursor, x.phase.seen);
    } else {
      ConcludeKeeps(cmd, s.log, s.appends, who, x, read.error, ended);
    }
  }

  lemma {:induction false} LookUpKeeps<S(!new)>(team: seq<Command<S>>, s: System<S>, who: nat)
    requires Configured(team) && Inv(team, s) && Enabled(team, s, LookUp(who))
    ensures Inv(team, Perform(team, s, LookUp(who)))
  {
    CacheCovers(team, s, who);
    BegunKeeps(team[who], s, who, s.executors[who]);
    var cache := if LooksUp(s, team[who]) then Some(Get(s.cache.value, KeyOf(team[who])).1) else s.cache;
    if LooksUp(s, team[who]) {
      GetKeeps(s.cache.value, KeyOf(team[who]));
    }
    BecomeKeeps(team, s, who, Begun(s, team[who], s.executors[who]), cache);
  }

  lemma {:induction false} EndReadKeeps<S(!new)>(team: seq<Command<S>>, s: System<S>, who: nat)
    requires Inv(team, s) && Enabled(team, s, EndRead(who))
    ensures var x := s.executors[who];
      ExecutorInv(team[who], s.log, s.appends, who, x.(phase := Keeping(x.phase.current, x.phase.last)))
  {
    var cmd, x := team[who], s.executors[who];
    assert ExecutorInv(cmd, s.log, s.appends, who, x);
    var stream := Stream(s.log, cmd.subject);
    UnderwayIsFolded(cmd.rules, stream, x.phase.current, x.phase.last, x.phase.cursor, x.phase.seen);
  }

  lemma {:induction false} KeepStateKeeps<S(!new)>(team: seq<Command<S>>, s: System<S>, who: nat)
    requires Configured(team) && Inv(team, s) && Enabled(team, s, KeepState(who))
    ensures Inv(team, Perform(team, s, KeepState(who)))
  {
    var cmd, x := team[who], s.executors[who];
    assert ExecutorInv(cmd, s.log, s.appends, who, x);
    var cache := s.cache;
    if UsesCache(s, cmd) && x.phase.last.Some? {
      assert RulesOf(team)[who] == cmd.rules;
      PutKeeps(s.cache.value, KeyOf(cmd), ShapeOf(cmd.rules), x.phase.state, x.phase.last.value);
      SoundPut(RulesOf(team), s.log, s.cache.value, who, cmd.subject, x.phase.state, x.phase.last.value);
      cache := Some(Put(s.cache.value, KeyOf(cmd), ShapeOf(cmd.rules), x.phase.state, x.phase.last.value));
    }
    BecomeKeeps(team, s, who, x.(phase := Deciding(x.phase.state, x.phase.last)), cache);
  }

  lemma {:induction false} DecideKeeps<S>(
      cmd: Command<S>, log: Log, appends: seq<Append>, who: nat, x: Executor<S>, ended: bool)
    requires ExecutorInv(cmd, log, appends, who, x) && x.phase.Deciding?
    ensures ExecutorInv(cmd, log, appends, who, DecideOn(cmd, x, ended))
  {
  }

  lemma {:induction false} RunKeeps<S(!new)>(team: seq<Command<S>>, run: seq<System<S>>, i: nat)
    requires Configured(team) && Run(team, run) && i < |run|
    ensures Inv(team, run[i])
  {
    if i == 0 {
      InitHolds(team, run[0]);
    } else {
      RunKeeps(team, run, i - 1);
      assert Next(team, run[i - 1], run[i]);
      var step :| Enabled(team, run[i - 1], step) && run[i] == Perform(team, run[i - 1], step);
      StepKeeps(team, run[i - 1], step);
    }
  }

  /** The step makes the database store a batch of the executor, whether the
      executor learns of it or not. */
  ghost predicate Stores(step: WriteProtocol.Step, who: nat) {
    (step.WriteStores? && step.who == who) || (step.WriteFails? && step.who == who && step.after.Some?)
  }

  /** In every interleaving, whatever a command under OnStateRead appends was
      decided on exactly the state of its whole stream at the moment of the
      append, with or without a cache. If all of the stream folds, that is the
      fold from its first event. */
  lemma {:induction false} DecidedOnTheStateAtTheAppend<S(!new)>(
      team: seq<Command<S>>, run: seq<System<S>>, i: nat, step: WriteProtocol.Step, who: nat)
    requires Configured(team) && Run(team, run) && i < |run| && Enabled(team, run[i], step)
    requires Stores(step, who) && HasOnStateRead(team[who].declared)
    ensures var cmd, stream := team[who], Stream(run[i].log, team[who].subject);
      && Meaning(cmd.rules, stream) == Ok(run[i].executors[who].phase.state)
      && DecidedOn(cmd, Meaning(cmd.rules, stream).value, run[i].executors[who].phase.batch)
      && ConditionsHold(cmd, run[i].log)
      && (FoldFrom(cmd.rules, cmd.rules.initial, stream).Ok? ==>
            FoldFrom(cmd.rules, cmd.rules.initial, stream) == Ok(run[i].executors[who].phase.state))
  {
    RunKeeps(team, run, i);
    var x := run[i].executors[who];
    assert ExecutorInv(team[who], run[i].log, run[i].appends, who, x);
    AppendedOnWholeStream(team[who], run[i].log, x.phase.state, x.phase.last);
    ConditionsHeld(team[who], run[i].log, x.phase.last);
    if FoldFrom(team[who].rules, team[who].rules.initial, Stream(run[i].log, team[who].subject)).Ok? {
      FromLatestIsFromFirst(team[who].rules, Stream(run[i].log, team[who].subject));
    }
  }

  /** Over all its attempts, an Execute appends at most once, exactly once if it
      returns events, and then those, and never if it fails with anything but
      an unknown outcome. It decides at most once more than it may retry. */
  lemma {:induction false} AppendsAtMostOnce<S(!new)>(team: seq<Command<S>>, run: seq<System<S>>, i: nat, who: nat)
    requires Configured(team) && Run(team, run) && i < |run| && who < |team|
    ensures |run[i].executors| == |team|
    ensures var s, x := run[i], run[i].executors[who];
      && (forall j, k | 0 <= j < |s.appends| && 0 <= k < |s.appends| ::
            s.appends[j].who == s.appends[k].who == who ==> j == k)
      && (x.phase.Finished? && x.phase.outcome.Returned? ==>
            exists k :: 0 <= k < |s.appends| && s.appends[k].who == who
              && Records(team[who].subject, s.appends[k].batch, x.phase.outcome.events))
      && (x.phase.Finished? && (x.phase.outcome.NothingToWrite? ||
          (x.phase.outcome.Failed? && !x.phase.outcome.failure.OutcomeUnknown?)) ==>
            forall k | 0 <= k < |s.appends| :: s.appends[k].who != who)
      && x.decisions <= Retries(team[who]) + 1
  {
    hide DecidedOn, DecidedOnSome, ConditionsHold, Meaning, Stream, Run, Configured, PhaseInv, CacheInv;
    RunKeeps(team, run, i);
    var s, x := run[i], run[i].executors[who];
    assert ExecutorInv(team[who], s.log, s.appends, who, x);
    if x.phase.Finished? && x.phase.outcome.Returned? {
      var k :| 0 <= k < |s.appends| && s.appends[k].who == who && s.appends[k].at + |s.appends[k].batch| <= |s.log|
        && s.log[s.appends[k].at..s.appends[k].at + |s.appends[k].batch|] == x.phase.outcome.events;
      assert AppendInv(team, s.log, s.appends[k]);
    }
  }

  /** If the database names the precondition that did not hold, Execute decides
      again only if that was OnStateRead, and then the subject has moved on
      since the state was read: deciding again sees another stream. */
  lemma {:induction false} DecidesAgainOnlyOnAnotherStream<S(!new)>(
      team: seq<Command<S>>, run: seq<System<S>>, i: nat, who: nat, err: ClientError, ended: bool)
    requires Configured(team) && Run(team, run) && i < |run| && Enabled(team, run[i], WriteFails(who, err, None, ended))
    requires ViolatedPrecondition(WriteFailure(err), team[who].declared).Some?
    requires Perform(team, run[i], WriteFails(who, err, None, ended)).executors[who].phase.Starting?
    ensures LastId(Stream(run[i].log, team[who].subject)) != run[i].executors[who].phase.last
  {
    RunKeeps(team, run, i);
    var cmd, x := team[who], run[i].executors[who];
    assert ExecutorInv(cmd, run[i].log, run[i].appends, who, x);
    var index := NamedIndex(WriteFailure(err)).value;
    assert cmd.declared[index].OnStateRead?;
    ResolvedAligns(cmd.subject, cmd.declared, x.phase.last);
    OnStateReadIsExact(run[i].log, cmd.subject, x.phase.last);
    assert Resolve(cmd.subject, cmd.declared, x.phase.last)[index] ==
      ResolveOne(cmd.subject, OnStateRead, x.phase.last)[0];
  }

  /** A fold that ends hands out the state of the whole stream as it was at some
      moment during the read, and its last event: nothing that was stored when
      the read began is missing. */
  lemma {:induction false} FoldIsWhole<S(!new)>(team: seq<Command<S>>, run: seq<System<S>>, i: nat, who: nat)
    requires Configured(team) && Run(team, run) && i < |run| && Enabled(team, run[i], EndRead(who))
    ensures var cmd, phase := team[who], run[i].executors[who].phase;
      var stream := Stream(run[i].log, cmd.subject);
      exists n :: phase.seen <= n <= |stream| && Meaning(cmd.rules, stream[..n]) == Ok(phase.current) &&
        LastId(stream[..n]) == phase.last
  {
    RunKeeps(team, run, i);
    var cmd, phase := team[who], run[i].executors[who].phase;
    assert ExecutorInv(cmd, run[i].log, run[i].appends, who, run[i].executors[who]);
    var stream := Stream(run[i].log, cmd.subject);
    assert stream[..0] == [];
    assert Meaning(cmd.rules, stream[..phase.cursor]) == Ok(phase.current);
  }

  ghost predicate OnlyForward<S>(before: Option<Cache<S>>, after: Option<Cache<S>>) {
    before.Some? ==>
      && after.Some? && Valid(after.value)
      && forall k | k in before.value.entries && k in after.value.entries ::
           before.value.entries[k].last <= after.value.entries[k].last
  }

  lemma {:induction false} CacheStep<S(!new)>(team: seq<Command<S>>, s: System<S>, step: WriteProtocol.Step)
    requires CacheInv(team, s.log, s.cache) && Enabled(team, s, step)
    ensures OnlyForward(s.cache, Perform(team, s, step).cache)
  {
    if s.cache.Some? {
      if step.LookUp? {
        GetKeeps(s.cache.value, KeyOf(team[step.who]));
      } else if step.KeepState? {
        var cmd, phase := team[step.who], s.executors[step.who].phase;
        if phase.last.Some? {
          PutKeeps(s.cache.value, KeyOf(cmd), ShapeOf(cmd.rules), phase.state, phase.last.value);
        }
      }
    }
  }

  /** In every run, the map and the list of the cache stay in bijection and
      within the bound, and no step moves the event ID of an entry backwards. */
  lemma {:induction false} CacheInEveryRun<S(!new)>(team: seq<Command<S>>, run: seq<System<S>>, i: nat)
    requires Configured(team) && Run(team, run) && i < |run| - 1
    ensures run[i].cache.Some? ==> Valid(run[i].cache.value)
    ensures OnlyForward(run[i].cache, run[i + 1].cache)
  {
    RunKeeps(team, run, i);
    assert Next(team, run[i], run[i + 1]);
    var step :| Enabled(team, run[i], step) && run[i + 1] == Perform(team, run[i], step);
    CacheStep(team, run[i], step);
  }
}
