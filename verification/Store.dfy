/** fold, executeOnce and Execute as they run, one at a time, while everyone else
    keeps writing to the same log and using the same cache
    (architecturekit/store.go). WriteSafety has the same for all of them at once. */
module Store {
  import opened Basics
  import opened EventLog
  import opened Failures
  import opened Preconditions
  import opened StateCaching
  import opened StateRules
  import opened WriteProtocol
  import opened WriteSafety

  /** What a fresh or a bounded read of a stream is asked for. */
  function Requested<S>(rules: Rules<S>, stream: Log, bound: Option<nat>): Log {
    if bound.Some? then After(stream, bound) else stream[StartIndex(rules, stream)..]
  }

  datatype Written = Stored(events: Log) | Rejected(err: ClientError)

  /** How a read goes: it hands out everything, or breaks off after so many events. */
  datatype Fate = Completes | BreaksOff(handed: nat, failure: Failure)

  function Handed(fate: Fate, asked: Log): Log {
    if fate.Completes? || fate.handed >= |asked| then asked else asked[..fate.handed]
  }

  /** A write as the database was asked for it, and what it answered. */
  datatype Request = Request(subject: string, batch: seq<Candidate>, preconditions: seq<DatabasePrecondition>,
      answer: Written)

  /** The context of a caller, which may end at any time and then stays ended.
      Only the contract counts: the body is one context that never ends. */
  class Context {
    var ended: bool

    constructor () { ended := false; }

    method HasEnded() returns (yes: bool)
      modifies this
      ensures yes == ended && (old(ended) ==> ended)
    {
      yes := ended;
    }
  }

  /** The database behind a client that tells the truth, shared with other
      writers. appends records what it stored for the one who holds it, requests
      the writes that one has asked for, and fateOf how each read goes. Callers
      rely on the contracts only, which allow anything a truthful client may
      report; the bodies are the simplest database that keeps them. */
  class Database {
    var log: Log
    var appends: seq<Append>
    var requests: seq<Request>
    var readsBegun: nat
    const isVerified: Stored -> bool
    const fateOf: nat -> Fate

    constructor (isVerified: Stored -> bool, fateOf: nat -> Fate)
      ensures log == [] && appends == [] && requests == [] && readsBegun == 0
      ensures this.isVerified == isVerified && this.fateOf == fateOf
    {
      log, appends, requests, readsBegun := [], [], [], 0;
      this.isVerified, this.fateOf := isVerified, fateOf;
    }

    /** Others write what they like. */
    method Elsewhere()
      requires Ascending(log)
      modifies this`log
      ensures Ascending(log) && old(log) <= log
    {
    }

    method ReadEvents<S>(rules: Rules<S>, subject: string, bound: Option<nat>)
      returns (events: Log, failure: Option<Failure>)
      modifies this`readsBegun
      ensures readsBegun == old(readsBegun) + 1
      ensures events == Handed(fateOf(old(readsBegun)), Requested(rules, Stream(log, subject), bound))
      ensures failure == if fateOf(old(readsBegun)).Completes? then None else Some(fateOf(old(readsBegun)).failure)
    {
      var fate := fateOf(readsBegun);
      readsBegun := readsBegun + 1;
      events := Handed(fate, Requested(rules, Stream(log, subject), bound));
      failure := if fate.Completes? then None else Some(fate.failure);
    }

    method WriteEvents(subject: string, batch: seq<Candidate>, preconditions: seq<DatabasePrecondition>)
      returns (r: Written)
      requires Ascending(log)
      modifies this`log, this`appends, this`requests
      ensures Ascending(log) && old(log) <= log
      ensures requests == old(requests) + [Request(subject, batch, preconditions, r)]
      ensures appends == old(appends) || (
        && |old(log)| + |batch| <= |log|
        && appends == old(appends) + [Append(0, |log| - |batch|, batch)]
        && (forall i | 0 <= i < |preconditions| :: Holds(log[..|log| - |batch|], preconditions[i]))
        && Records(subject, batch, log[|log| - |batch|..]))
      ensures r.Stored? ==> appends != old(appends) && r.events == log[|log| - |batch|..]
      ensures r.Rejected? && !r.err.outcomeUnknown ==> appends == old(appends)
    {
      var violated := FirstViolated(preconditions);
      hide Holds, Stream;
      if violated.Some? {
        r := Rejected(ClientError(false, false,
            Some(Answer(200, CODE_PRECONDITION_VIOLATED, false, Some(violated.value)))));
        requests := requests + [Request(subject, batch, preconditions, r)];
        return;
      }
      var stored := AppendBatch(subject, batch);
      r := Written.Stored(stored);
      requests := requests + [Request(subject, batch, preconditions, r)];
    }

    method AppendBatch(subject: string, batch: seq<Candidate>) returns (stored: Log)
      requires Ascending(log)
      modifies this`log, this`appends
      ensures Ascending(log) && Records(subject, batch, stored)
      ensures |old(log)| + |batch| == |log| && log[..|log| - |batch|] == old(log) && log[|log| - |batch|..] == stored
      ensures appends == old(appends) + [Append(0, |old(log)|, batch)]
    {
      stored := Numbered(if log == [] then 0 else log[|log| - 1].id + 1, subject, batch);
      appends := appends + [Append(0, |log|, batch)];
      log := log + stored;
      assert log[..|log| - |batch|] == old(log) && log[|log| - |batch|..] == stored;
    }

    method FirstViolated(preconditions: seq<DatabasePrecondition>) returns (violated: Option<nat>)
      ensures violated == None ==> forall i | 0 <= i < |preconditions| :: Holds(log, preconditions[i])
      ensures violated.Some? ==> violated.value < |preconditions| && !Holds(log, preconditions[violated.value])
    {
      for i := 0 to |preconditions|
        invariant forall j | 0 <= j < i :: Holds(log, preconditions[j])
      {
        if !Holds(log, preconditions[i]) {
          return Some(i);
        }
      }
      return None;
    }
  }

  function Numbered(next: nat, subject: string, batch: seq<Candidate>): (stored: Log)
    ensures Records(subject, batch, stored) && forall i | 0 <= i < |stored| :: stored[i].id == next + i
  {
    seq(|batch|, i requires 0 <= i < |batch| => Stored.Stored(next + i, subject, batch[i].typ, batch[i].data))
  }

  /** What a command relies on about the cache, and keeps up for everyone else. */
  ghost predicate Shared<S(!new)>(team: seq<Command<S>>, me: nat, log: Log, cache: StateCache?<S>)
    reads cache
  {
    && Configured(team) && me < |team| && Ascending(log)
    && (cache != null ==> Valid(cache.Contents()) && Sound(RulesOf(team), log, cache.Contents()))
  }

  /** Others write. */
  method Others<S(==, !new)>(db: Database, cache: StateCache?<S>, ghost team: seq<Command<S>>, ghost me: nat)
    requires Shared(team, me, db.log, cache)
    modifies db`log
    ensures Shared(team, me, db.log, cache) && old(db.log) <= db.log
  {
    ghost var before := db.log;
    db.Elsewhere();
    if cache != null {
      assert db.log == before + db.log[|before|..];
      SoundGrows(RulesOf(team), before, db.log[|before|..], cache.Contents());
    }
  }

  /** Others write, and use the cache as this command does. */
  method Elsewhere<S(==, !new)>(db: Database, cache: StateCache?<S>, ghost team: seq<Command<S>>, ghost me: nat)
    requires Shared(team, me, db.log, cache)
    modifies db`log, cache
    ensures Shared(team, me, db.log, cache) && old(db.log) <= db.log
  {
    Others(db, cache, team, me);
  }

  /** If all of a stream folds, so does what follows any stretch of it that the
      cache has covered, and the result is the fold from the first event. */
  lemma {:induction false} ResumeTransparent<S(!new)>(rules: Rules<S>, stream: Log, n: nat, state: S)
    requires IgnoresPast(rules) && n <= |stream| && Meaning(rules, stream[..n]) == Ok(state)
    requires FoldFrom(rules, rules.initial, stream).Ok?
    ensures FoldFrom(rules, state, stream[n..]) == FoldFrom(rules, rules.initial, stream)
  {
    assert stream == stream[..n] + stream[n..];
    FoldAppend(rules, rules.initial, stream[..n], stream[n..]);
    FromLatestIsFromFirst(rules, stream[..n]);
  }

  /** Where a fold starts: what it has, and what it still reads. */
  ghost predicate StartsRight<S>(rules: Rules<S>, stream: Log, start: S, bound: Option<nat>) {
    match bound
    case None => start == rules.initial
    case Some(id) => Covers(rules, stream, start, id)
  }

  /** What folding on from a start yields, once it has read all that was asked
      for: the state of the whole stream, and its last event. */
  ghost predicate FoldsWhole<S>(rules: Rules<S>, stream: Log, start: S, bound: Option<nat>, rest: Log) {
    var folded := FoldFrom(rules, start, rest);
    && (folded.Ok? || bound.None? ==> Meaning(rules, stream) == folded)
    && LastId(stream) == (if rest == [] then bound else LastId(rest))
    && (FoldFrom(rules, rules.initial, stream).Ok? ==> folded == FoldFrom(rules, rules.initial, stream))
  }

  lemma {:induction false} CachedFoldsWhole<S(!new)>(rules: Rules<S>, stream: Log, start: S, n: nat)
    requires IgnoresPast(rules) && 0 < n <= |stream| && Meaning(rules, stream[..n]) == Ok(start)
    ensures FoldsWhole(rules, stream, start, Some(stream[n - 1].id), stream[n..])
  {
    hide FoldFrom, Meaning, IgnoresPast;
    assert stream == stream[..n] + stream[n..];
    var folded := FoldFrom(rules, start, stream[n..]);
    if folded.Ok? {
      ResumeSound(rules, stream[..n], start, stream[n..], folded.value);
    }
    if FoldFrom(rules, rules.initial, stream).Ok? {
      ResumeTransparent(rules, stream, n, start);
    }
  }

  lemma {:induction false} StartFoldsWhole<S(!new)>(rules: Rules<S>, stream: Log, start: S, bound: Option<nat>)
    requires IgnoresPast(rules) && Ascending(stream) && StartsRight(rules, stream, start, bound)
    ensures FoldsWhole(rules, stream, start, bound, Requested(rules, stream, bound))
  {
    if bound.Some? {
      var n :| 0 < n <= |stream| && stream[n - 1].id == bound.value && Meaning(rules, stream[..n]) == Ok(start);
      assert LastId(stream[..n]) == bound;
      AfterPrefix(stream, n);
      CachedFoldsWhole(rules, stream, start, n);
    } else if FoldFrom(rules, rules.initial, stream).Ok? {
      FromLatestIsFromFirst(rules, stream);
    }
  }

  /** The cache has no state of another shape for the command. */
  ghost predicate NoOther<S>(cmd: Command<S>, cache: StateCache?<S>)
    reads cache
  {
    cache != null && KeyOf(cmd) in cache.entries ==> ShapeEquals(cache.entries[KeyOf(cmd)].shape, ShapeOf(cmd.rules))
  }

  ghost predicate NothingCached<S>(cmd: Command<S>, cache: StateCache?<S>)
    reads cache
  {
    cache == null || !cmd.rules.isCopyable || KeyOf(cmd) !in cache.entries
  }

  /** The cache after a fold has looked for its state. */
  ghost function LookedUp<S>(cmd: Command<S>, cache: StateCache<S>): Cache<S>
    reads cache
  {
    if cmd.rules.startsFromCopy && cmd.rules.isCopyable then Get(cache.Contents(), KeyOf(cmd)).1 else cache.Contents()
  }

  /** Where a fold starts: from the cached state, if there is one of the same
      shape, and from the initial value otherwise. */
  method StartOf<S(==, !new)>(
      cache: StateCache?<S>, cmd: Command<S>, ghost team: seq<Command<S>>, ghost me: nat, ghost log: Log)
    returns (r: Result<(S, Option<nat>), Failure>)
    requires Shared(team, me, log, cache) && team[me] == cmd
    modifies cache
    ensures Shared(team, me, log, cache)
    ensures r.Ok? ==> cmd.rules.startsFromCopy && StartsRight(cmd.rules, Stream(log, cmd.subject), r.value.0, r.value.1)
    ensures r.Err? ==> r.error == Permanent
    ensures cache != null ==> cache.Contents() == old(LookedUp(cmd, cache))
    ensures old(NoOther(cmd, cache)) && cmd.rules.startsFromCopy ==> r.Ok?
    ensures old(NothingCached(cmd, cache)) ==>
      r == if cmd.rules.startsFromCopy then Ok((cmd.rules.initial, None)) else Err(Permanent)
    ensures old(!NothingCached(cmd, cache)) && cmd.rules.startsFromCopy ==>
      var entry := old(cache.entries[KeyOf(cmd)]);
      r == if ShapeEquals(entry.shape, ShapeOf(cmd.rules)) then Ok((entry.state, Some(entry.last))) else Err(Permanent)
  {
    if !cmd.rules.startsFromCopy {
      return Err(Permanent);
    }
    if cache == null || !cmd.rules.isCopyable {
      return Ok((cmd.rules.initial, None));
    }
    var entry := cache.GetEntry(KeyOf(cmd));
    if entry.None? {
      return Ok((cmd.rules.initial, None));
    }
    if !ShapeEquals(entry.value.shape, ShapeOf(cmd.rules)) {
      return Err(Permanent);
    }
    assert EntrySound(RulesOf(team), log, KeyOf(cmd), entry.value) && RulesOf(team)[me] == cmd.rules;
    return Ok((entry.value.state, Some(entry.value.last)));
  }

  /** Folding events each of which is verified first. */
  function FoldVerified<S>(isVerified: Stored -> bool, rules: Rules<S>, start: S, events: Log): Result<S, Failure> {
    if events == [] then Ok(start)
    else if !isVerified(events[0]) then Err(Unverified)
    else
      match StateRules.Step(rules, start, events[0])
      case Err(e) => Err(e)
      case Ok(next) => FoldVerified(isVerified, rules, next, events[1..])
  }

  lemma {:induction false} FoldVerifiedFolds<S>(isVerified: Stored -> bool, rules: Rules<S>, start: S, events: Log)
    ensures FoldVerified(isVerified, rules, start, events).Ok? ==>
      FoldFrom(rules, start, events) == FoldVerified(isVerified, rules, start, events)
    ensures (forall e | e in events :: isVerified(e)) ==>
      FoldVerified(isVerified, rules, start, events) == FoldFrom(rules, start, events)
  {
    hide StateRules.Step;
    if events != [] {
      var next := StateRules.Step(rules, start, events[0]);
      if next.Ok? {
        FoldVerifiedFolds(isVerified, rules, next.value, events[1..]);
      }
    }
  }

  /** What a fold makes of a read: the state and the last event read, or the first
      failure, be it of an event or of the read. */
  function FoldOf<S>(isVerified: Stored -> bool, rules: Rules<S>, start: S, bound: Option<nat>, fate: Fate, asked: Log):
    Result<(S, Option<nat>), Failure>
  {
    var events := Handed(fate, asked);
    match FoldVerified(isVerified, rules, start, events)
    case Err(e) => Err(e)
    case Ok(state) =>
      if fate.BreaksOff? then Err(fate.failure) else Ok((state, if events == [] then bound else LastId(events)))
  }

  /** The loop of fold: verify, upcast, evolve, event by event. */
  method FoldRead<S>(db: Database, rules: Rules<S>, subject: string, start: S, bound: Option<nat>)
    returns (r: Result<(S, Option<nat>), Failure>)
    modifies db`readsBegun
    ensures db.readsBegun == old(db.readsBegun) + 1
    ensures r == FoldOf(db.isVerified, rules, start, bound, db.fateOf(old(db.readsBegun)),
      Requested(rules, Stream(db.log, subject), bound))
  {
    var events, failure := db.ReadEvents(rules, subject, bound);
    hide StateRules.Step, Requested, Stream;
    var current, last := start, bound;
    assert events[0..] == events;
    for i := 0 to |events|
      invariant db.readsBegun == old(db.readsBegun) + 1
      invariant FoldVerified(db.isVerified, rules, current, events[i..]) ==
        FoldVerified(db.isVerified, rules, start, events)
      invariant last == if i == 0 then bound else Some(events[i - 1].id)
    {
      assert events[i..][1..] == events[i + 1..];
      if !db.isVerified(events[i]) {
        return Err(Unverified);
      }
      var next := EvolveByStored(rules, current, events[i]);
      if next.Err? {
        return Err(next.error);
      }
      current, last := next.value, Some(events[i].id);
    }
    return if failure.Some? then Err(failure.value) else Ok((current, last));
  }

  /** The latest read went through, and every event of the subject is verified. */
  ghost predicate Undisturbed(db: Database, seen: Log, subject: string)
    reads db`readsBegun
  {
    && db.readsBegun > 0 && db.fateOf(db.readsBegun - 1).Completes?
    && forall e | e in Stream(seen, subject) :: db.isVerified(e)
  }

  lemma {:induction false} RequestedIsStored<S>(rules: Rules<S>, stream: Log, bound: Option<nat>)
    ensures forall e | e in Requested(rules, stream, bound) :: e in stream
  {
    if bound.Some? {
      AfterIsStored(stream, bound);
    }
  }

  lemma {:induction false} AfterIsStored(stream: Log, bound: Option<nat>)
    ensures forall e | e in After(stream, bound) :: e in stream
  {
    if stream != [] {
      AfterIsStored(stream[1..], bound);
    }
  }

  /** A fold that goes through has folded everything it asked for, and an
      undisturbed one fails only if folding does. */
  lemma {:induction false} FoldOfRead<S>(
      db: Database, rules: Rules<S>, subject: string, start: S, bound: Option<nat>,
      r: Result<(S, Option<nat>), Failure>)
    requires db.readsBegun > 0
    requires r == FoldOf(db.isVerified, rules, start, bound, db.fateOf(db.readsBegun - 1),
      Requested(rules, Stream(db.log, subject), bound))
    ensures var rest := Requested(rules, Stream(db.log, subject), bound);
      && (r.Ok? ==> FoldFrom(rules, start, rest) == Ok(r.value.0))
      && (r.Ok? ==> r.value.1 == if rest == [] then bound else LastId(rest))
      && (r.Err? && Undisturbed(db, db.log, subject) ==> FoldFrom(rules, start, rest) == Err(r.error))
  {
    var rest := Requested(rules, Stream(db.log, subject), bound);
    RequestedIsStored(rules, Stream(db.log, subject), bound);
    FoldVerifiedFolds(db.isVerified, rules, start, Handed(db.fateOf(db.readsBegun - 1), rest));
    hide FoldVerified, FoldFrom, Requested, Stream;
  }

  lemma {:induction false} StartGrows<S>(cmd: Command<S>, log: Log, more: Log, start: S, bound: Option<nat>)
    requires StartsRight(cmd.rules, Stream(log, cmd.subject), start, bound)
    ensures StartsRight(cmd.rules, Stream(log + more, cmd.subject), start, bound)
  {
    StreamGrows(log, more, cmd.subject);
    if bound.Some? {
      CoverageGrows(cmd.rules, Stream(log, cmd.subject), Stream(more, cmd.subject), start, bound.value);
    }
  }

  /** Reads the stream and folds it as it goes, with or without the cache, while
      others write, also between the look into the cache and the read, and between
      the read and the put. What it hands out is the state of the whole stream as it
      was when it was read. If nothing fails on the way, and all of the stream folds,
      it does so, and hands out the fold from the first event, whatever the cache
      held. Without a cached state, it fails exactly if a fresh read fails, and in the
      same way. */
  method Fold<S(==, !new)>(
      db: Database, cache: StateCache?<S>, cmd: Command<S>, ghost team: seq<Command<S>>, ghost me: nat)
    returns (r: Result<(S, Option<nat>), Failure>, ghost seen: Log)
    requires Shared(team, me, db.log, cache) && team[me] == cmd
    modifies db`readsBegun, db`log, cache
    ensures Shared(team, me, db.log, cache) && old(db.log) <= seen <= db.log
    ensures r.Ok? ==> Meaning(cmd.rules, Stream(seen, cmd.subject)) == Ok(r.value.0)
    ensures r.Ok? ==> LastId(Stream(seen, cmd.subject)) == r.value.1
    ensures Undisturbed(db, seen, cmd.subject) && cmd.rules.startsFromCopy && old(NoOther(cmd, cache)) ==>
      var first := FoldFrom(cmd.rules, cmd.rules.initial, Stream(seen, cmd.subject));
      first.Ok? ==> r == Ok((first.value, LastId(Stream(seen, cmd.subject))))
    ensures Undisturbed(db, seen, cmd.subject) && cmd.rules.startsFromCopy && old(NothingCached(cmd, cache)) ==>
      var anew := Meaning(cmd.rules, Stream(seen, cmd.subject));
      if anew.Ok? then r.Ok? else r == Err(anew.error)
    ensures !cmd.rules.startsFromCopy ==> r == Err(Permanent)
    ensures cache != null ==> cache.Contents() == old(LookedUp(cmd, cache)) || (r.Ok? && r.value.1.Some?)
    ensures cache != null && cmd.rules.isCopyable && r.Ok? && r.value.1.Some? ==>
      cache.Contents() == Put(old(LookedUp(cmd, cache)), KeyOf(cmd), ShapeOf(cmd.rules), r.value.0, r.value.1.value)
  {
    var from := StartOf(cache, cmd, team, me, db.log);
    seen := db.log;
    if from.Err? {
      r := from;
      return;
    }
    var (start, bound) := from.value;
    Others(db, cache, team, me);
    assert db.log == seen + db.log[|seen|..];
    StartGrows(cmd, seen, db.log[|seen|..], start, bound);
    seen := db.log;
    FilterAscends(On(cmd.subject), seen);
    r := FoldRead(db, cmd.rules, cmd.subject, start, bound);
    FoldOfRead(db, cmd.rules, cmd.subject, start, bound, r);
    StartFoldsWhole(cmd.rules, Stream(seen, cmd.subject), start, bound);
    hide Meaning, FoldFrom, FoldOf, Stream, Requested, StartsRight, Configured, Sound, Valid, Undisturbed;
    if r.Ok? && cache != null && cmd.rules.isCopyable && r.value.1.Some? {
      Others(db, cache, team, me);
      Keep(cache, cmd, r.value.0, r.value.1.value, team, me, seen, db.log);
    }
  }

  /** The cache gets what was read, although others may have written since. */
  method Keep<S(==, !new)>(
    cache: StateCache<S>, cmd: Command<S>, state: S, last: nat, ghost team: seq<Command<S>>, ghost me: nat,
    ghost seen: Log, ghost log: Log)
    requires Shared(team, me, log, cache) && team[me] == cmd && seen <= log
    requires Meaning(cmd.rules, Stream(seen, cmd.subject)) == Ok(state) &&
      LastId(Stream(seen, cmd.subject)) == Some(last)
    modifies cache
    ensures Shared(team, me, log, cache)
    ensures cache.Contents() == Put(old(cache.Contents()), KeyOf(cmd), ShapeOf(cmd.rules), state, last)
  {
    ghost var stream, more := Stream(seen, cmd.subject), log[|seen|..];
    assert stream[..|stream|] == stream;
    assert Covers(cmd.rules, stream, state, last);
    assert log == seen + more;
    StreamGrows(seen, more, cmd.subject);
    CoverageGrows(cmd.rules, stream, Stream(more, cmd.subject), state, last);
    assert RulesOf(team)[me] == cmd.rules;
    SoundPut(RulesOf(team), log, cache.Contents(), me, cmd.subject, state, last);
    cache.PutState(KeyOf(cmd), ShapeOf(cmd.rules), state, last);
  }

  /** The append of one Execute, if there is one: it is in the log, it was decided on a
      state of the stream, under OnStateRead on that of the whole stream right before,
      and what else was declared held then. */
  ghost predicate AppendedRight<S>(cmd: Command<S>, log: Log, append: Append) {
    && append.at + |append.batch| <= |log|
    && Records(cmd.subject, append.batch, log[append.at..append.at + |append.batch|])
    && ConditionsHold(cmd, log[..append.at])
    && DecidedOnSome(cmd, Stream(log[..append.at], cmd.subject), append.batch)
    && (HasOnStateRead(cmd.declared) ==>
          var state := Meaning(cmd.rules, Stream(log[..append.at], cmd.subject));
          state.Ok? && DecidedOn(cmd, state.value, append.batch))
  }

  /** How an attempt, or all of Execute, ended, as far as the log can tell. */
  ghost predicate EndedRight<S>(
      cmd: Command<S>, log: Log, before: seq<Append>, appends: seq<Append>, outcome: Outcome)
  {
    && before <= appends && |appends| <= |before| + 1
    && (appends != before ==> AppendedRight(cmd, log, appends[|before|]))
    && (outcome.Returned? ==>
          && appends != before
          && outcome.events == log[appends[|before|].at..appends[|before|].at + |appends[|before|].batch|])
    && (outcome.NothingToWrite? || (outcome.Failed? && !outcome.failure.OutcomeUnknown?) ==> appends == before)
  }

  /** The events are those the decider returned for some state of the stream, each at the
      place at which it returned it. */
  ghost predicate AreDecided<S>(cmd: Command<S>, stream: Log, events: Log) {
    exists n | 0 <= n <= |stream| ::
      Meaning(cmd.rules, stream[..n]).Ok? && AreDecidedOn(cmd, Meaning(cmd.rules, stream[..n]).value, events)
  }

  ghost predicate AreDecidedOn<S>(cmd: Command<S>, state: S, events: Log) {
    var decision := cmd.decide(state);
    && decision.Decided? && |decision.events| == |events|
    && forall i | 0 <= i < |events| ::
         events[i].subject == cmd.subject && decision.events[i] == Some(NewEvent(events[i].typ, Some(events[i].data)))
  }

  lemma {:induction false} ReturnedAreDecided<S>(
      cmd: Command<S>, log: Log, before: seq<Append>, appends: seq<Append>, outcome: Outcome)
    requires EndedRight(cmd, log, before, appends, outcome)
    ensures outcome.Returned? ==> AreDecided(cmd, Stream(log, cmd.subject), outcome.events)
  {
    hide Meaning, Stream, ConditionsHold;
    if outcome.Returned? {
      var append := appends[|before|];
      var upTo := log[..append.at];
      var stream, more := Stream(upTo, cmd.subject), Stream(log[append.at..], cmd.subject);
      assert log == upTo + log[append.at..];
      StreamGrows(upTo, log[append.at..], cmd.subject);
      var n :| 0 <= n <= |stream| && Meaning(cmd.rules, stream[..n]).Ok? &&
        DecidedOn(cmd, Meaning(cmd.rules, stream[..n]).value, append.batch);
      assert (stream + more)[..n] == stream[..n];
      assert AreDecidedOn(cmd, Meaning(cmd.rules, stream[..n]).value, outcome.events);
    }
  }

  /** All states in use that have one type look alike. */
  ghost predicate OneShapePerType<S>(team: seq<Rules<S>>) {
    forall i, j | 0 <= i < |team| && 0 <= j < |team| && team[i].typeName == team[j].typeName ::
      ShapeEquals(ShapeOf(team[i]), ShapeOf(team[j]))
  }

  lemma {:induction false} OneShapeFitsCache<S(!new)>(team: seq<Command<S>>, me: nat, log: Log, cache: StateCache?<S>)
    requires Shared(team, me, log, cache) && OneShapePerType(RulesOf(team))
    ensures NoOther(team[me], cache)
  {
    if cache != null && KeyOf(team[me]) in cache.entries {
      assert EntrySound(RulesOf(team), log, KeyOf(team[me]), cache.entries[KeyOf(team[me])]);
      assert RulesOf(team)[me] == team[me].rules;
    }
  }

  /** Why a fold of what was seen may fail: the state can not be copied, the read or
      the verification failed, an event does not fold, or the cache holds a state of
      another shape. Without a cache, it fails as folding fails. */
  ghost predicate FoldFails<S>(
      cmd: Command<S>, team: seq<Rules<S>>, db: Database, usesCache: bool, seen: Log, failure: Failure)
    reads db`readsBegun
  {
    && (!cmd.rules.startsFromCopy ==> failure == Permanent)
    && (cmd.rules.startsFromCopy && Undisturbed(db, seen, cmd.subject) ==>
          && (OneShapePerType(team) ==> FoldFrom(cmd.rules, cmd.rules.initial, Stream(seen, cmd.subject)).Err?)
          && (!usesCache ==> Meaning(cmd.rules, Stream(seen, cmd.subject)) == Err(failure)))
  }

  function AnsweredBy(answer: Written): Outcome {
    match answer
    case Stored(events) => Returned(events)
    case Rejected(err) => Failed(WriteFailure(err))
  }

  /** One more write was asked for, and its answer is the outcome. */
  ghost predicate Asked(
      before: seq<Request>, after: seq<Request>, subject: string, batch: seq<Candidate>,
      preconditions: seq<DatabasePrecondition>, outcome: Outcome)
  {
    && |after| == |before| + 1 && after[..|before|] == before
    && var request := after[|before|];
    && request.subject == subject && request.batch == batch && request.preconditions == preconditions
    && outcome == AnsweredBy(request.answer)
  }

  /** What follows from deciding on a state. */
  ghost predicate Decides<S>(
      cmd: Command<S>, state: S, last: Option<nat>, before: seq<Request>, after: seq<Request>, outcome: Outcome,
        ended: bool)
  {
    match cmd.decide(state)
    case Refused(failure) => outcome == Failed(failure) && after == before
    case Decided(events) =>
      if events == [] then outcome == NothingToWrite && after == before
      else if !MayBeWritten(cmd.rules, events) then outcome == Failed(Permanent) && after == before
      else
        || (ended && outcome == Failed(ContextEnded) && after == before)
        || (|after| > |before| && AsksRight(cmd, events, last, before, after, outcome))
  }

  /** The write that was asked for has the decided events, each at its place, and the
      preconditions ask what was declared. */
  ghost predicate AsksRight<S>(
      cmd: Command<S>, events: seq<Option<NewEvent>>, last: Option<nat>, before: seq<Request>, after: seq<Request>,
        outcome: Outcome)
    requires |after| > |before|
  {
    var request := after[|before|];
    && Asked(before, after, cmd.subject, request.batch, Resolve(cmd.subject, cmd.declared, last), outcome)
    && IsBatchOf(events, request.batch)
    && AsksAsDeclared(request.preconditions, cmd.subject, cmd.declared, last)
  }

  /** How an attempt comes to its outcome: by what it folded from what it saw. */
  ghost predicate Attempted<S>(
      cmd: Command<S>, team: seq<Rules<S>>, db: Database, usesCache: bool, seen: Log, before: seq<Request>,
        outcome: Outcome, ended: bool)
    reads db`readsBegun, db`requests
  {
    var stream := Stream(seen, cmd.subject);
    || (outcome.Failed? && FoldFails(cmd, team, db, usesCache, seen, outcome.failure) && db.requests == before)
    || (Meaning(cmd.rules, stream).Ok? &&
        Decides(cmd, Meaning(cmd.rules, stream).value, LastId(stream), before, db.requests, outcome, ended))
  }

  method CheckedCandidates<S>(rules: Rules<S>, events: seq<Option<NewEvent>>)
    returns (r: Result<seq<Candidate>, Failure>)
    ensures r == Candidates(rules, events)
  {
    for i := 0 to |events|
      invariant forall j | 0 <= j < i :: events[j].Some?
    {
      if events[i].None? {
        return Err(Permanent);
      }
    }
    for i := 0 to |events|
      invariant forall j | 0 <= j < i :: events[j].value.typ in rules.evolve
    {
      if events[i].value.typ !in rules.evolve {
        return Err(Permanent);
      }
    }
    var candidates := [];
    for i := 0 to |events|
      invariant |candidates| == i
      invariant forall j | 0 <= j < i ::
        events[j].value.data.Some? && candidates[j] == Candidate(events[j].value.typ, events[j].value.data.value)
    {
      if events[i].value.data.None? {
        return Err(Permanent);
      }
      candidates := candidates + [Candidate(events[i].value.typ, events[i].value.data.value)];
    }
    assert candidates == Candidates(rules, events).value;
    return Ok(candidates);
  }

  /** The first part of an attempt: the fold, while others go on before it. */
  method FoldWhole<S(==, !new)>(
      db: Database, cache: StateCache?<S>, cmd: Command<S>, ghost team: seq<Command<S>>, ghost me: nat)
    returns (r: Result<(S, Option<nat>), Failure>, ghost seen: Log)
    requires Shared(team, me, db.log, cache) && team[me] == cmd
    modifies db`readsBegun, db`log, cache
    ensures Shared(team, me, db.log, cache) && old(db.log) <= seen <= db.log
    ensures r.Ok? ==>
      Meaning(cmd.rules, Stream(seen, cmd.subject)) == Ok(r.value.0) && LastId(Stream(seen, cmd.subject)) == r.value.1
    ensures r.Err? ==> FoldFails(cmd, RulesOf(team), db, cache != null && cmd.rules.isCopyable, seen, r.error)
  {
    Elsewhere(db, cache, team, me);
    if OneShapePerType(RulesOf(team)) {
      OneShapeFitsCache(team, me, db.log, cache);
    }
    hide NoOther, Undisturbed, Meaning, FoldFrom, Stream, OneShapePerType;
    r, seen := Fold(db, cache, cmd, team, me);
  }

  /** One attempt of Execute. seen is the log as it was when the attempt had folded:
      the outcome is what the decider makes of exactly the state of that log. */
  method ExecuteOnce<S(==, !new)>(
      ctx: Context, db: Database, cache: StateCache?<S>, cmd: Command<S>, ghost team: seq<Command<S>>, ghost me: nat)
    returns (outcome: Outcome, ghost decisions: nat, ghost seen: Log)
    requires Shared(team, me, db.log, cache) && team[me] == cmd && Check(cmd.declared).Ok?
    modifies ctx, db, cache
    ensures Shared(team, me, db.log, cache) && old(db.log) <= seen <= db.log
    ensures EndedRight(cmd, db.log, old(db.appends), db.appends, outcome) && decisions <= 1
    ensures outcome.Returned? ==> AreDecided(cmd, Stream(db.log, cmd.subject), outcome.events)
    ensures Attempted(
      cmd, RulesOf(team), db, cache != null && cmd.rules.isCopyable, seen, old(db.requests), outcome, ctx.ended)
    ensures old(ctx.ended) ==> ctx.ended
    ensures db.requests != old(db.requests) ==> !ctx.ended
  {
    hide Meaning, Stream, FoldFails, Resolve, MayBeWritten, IsBatchOf, AsksAsDeclared, AppendedRight;
    decisions := 0;
    var folded;
    folded, seen := FoldWhole(db, cache, cmd, team, me);
    if folded.Err? {
      return Failed(folded.error), decisions, seen;
    }
    var (state, last) := folded.value;
    decisions := 1;
    var decision := cmd.decide(state);
    if decision.Refused? {
      return Failed(decision.failure), decisions, seen;
    }
    if |decision.events| == 0 {
      return NothingToWrite, decisions, seen;
    }
    var candidates := CheckedCandidates(cmd.rules, decision.events);
    if candidates.Err? {
      return Failed(candidates.error), decisions, seen;
    }
    var ended := ctx.HasEnded();
    if ended {
      return Failed(ContextEnded), decisions, seen;
    }
    WholeIsFolded(cmd, seen, db.log, state, last);
    outcome := Write(db, cache, cmd, state, last, candidates.value, team, me);
    ReturnedAreDecided(cmd, db.log, old(db.appends), db.appends, outcome);
  }

  lemma {:induction false} MeaningOfNothing<S>(rules: Rules<S>)
    ensures Meaning(rules, []) == Ok(rules.initial)
  {
  }

  lemma {:induction false} WholeIsFolded<S>(cmd: Command<S>, seen: Log, log: Log, state: S, last: Option<nat>)
    requires seen <= log
    requires Meaning(cmd.rules, Stream(seen, cmd.subject)) == Ok(state) && LastId(Stream(seen, cmd.subject)) == last
    ensures Folded(cmd.rules, Stream(log, cmd.subject), state, last)
  {
    hide Meaning, Stream;
    MeaningOfNothing(cmd.rules);
    var stream, more := Stream(seen, cmd.subject), log[|seen|..];
    assert stream[..|stream|] == stream;
    assert log == seen + more;
    StreamGrows(seen, more, cmd.subject);
    FoldedGrows(cmd.rules, stream, Stream(more, cmd.subject), state, last);
  }

  /** The write of an attempt, while the others go on: the database is asked for
      exactly the batch, under the resolved preconditions, and its answer is the
      outcome. */
  method Write<S(==, !new)>(
    db: Database, cache: StateCache?<S>, cmd: Command<S>, ghost state: S, last: Option<nat>, batch: seq<Candidate>,
    ghost team: seq<Command<S>>, ghost me: nat)
    returns (outcome: Outcome)
    requires Shared(team, me, db.log, cache) && team[me] == cmd && Check(cmd.declared).Ok?
    requires Folded(cmd.rules, Stream(db.log, cmd.subject), state, last) && DecidedOn(cmd, state, batch)
    modifies db`log, db`appends, db`requests, cache
    ensures Shared(team, me, db.log, cache) && old(db.log) <= db.log
    ensures EndedRight(cmd, db.log, old(db.appends), db.appends, outcome)
    ensures Asked(old(db.requests), db.requests, cmd.subject, batch, Resolve(cmd.subject, cmd.declared, last), outcome)
    ensures AsksAsDeclared(Resolve(cmd.subject, cmd.declared, last), cmd.subject, cmd.declared, last)
  {
    hide Meaning, Stream, AsksAsDeclared;
    Elsewhere(db, cache, team, me);
    var resolved := ResolvePreconditions(cmd.subject, cmd.declared, last);
    hide Resolve;
    ghost var log := db.log;
    var written := db.WriteEvents(cmd.subject, batch, resolved);
    if cache != null {
      assert db.log == log + db.log[|log|..];
      SoundGrows(RulesOf(team), log, db.log[|log|..], cache.Contents());
    }
    if db.appends != old(db.appends) {
      StoredRight(cmd, old(db.log), db.log, state, last, db.appends[|old(db.appends)|]);
    }
    match written
    case Stored(events) => outcome := Returned(events);
    case Rejected(err) => outcome := Failed(WriteFailure(err));
  }

  /** What the database stored, under preconditions that held right before, was
      decided on the state of the stream right before. */
  lemma {:induction false} StoredRight<S(!new)>(
      cmd: Command<S>, read: Log, log: Log, state: S, last: Option<nat>, append: Append)
    requires Ascending(log) && Check(cmd.declared).Ok?
    requires |read| <= append.at && append.at + |append.batch| == |log| && read <= log
    requires Folded(cmd.rules, Stream(read, cmd.subject), state, last) && DecidedOn(cmd, state, append.batch)
    requires AllHold(log[..append.at], cmd, last) && Records(cmd.subject, append.batch, log[append.at..])
    ensures AppendedRight(cmd, log, append) && log[append.at..append.at + |append.batch|] == log[append.at..]
  {
    var upTo := log[..append.at];
    assert log[append.at..append.at + |append.batch|] == log[append.at..];
    assert upTo == read + upTo[|read|..];
    PhaseGrows(cmd, read, upTo[|read|..], Deciding(state, last));
    ConditionsHeld(cmd, upTo, last);
    FoldedIsDecidedOn(cmd, Stream(upTo, cmd.subject), state, last, append.batch);
    if HasOnStateRead(cmd.declared) {
      AppendedOnWholeStream(cmd, upTo, state, last);
    }
  }

  /** Execute: over all attempts it appends at most once, and under OnStateRead
      what it appends was decided on the state of the whole stream at that
      moment. It returns exactly the events it appended, and a failure that is
      not ErrOutcomeUnknown means that it appended nothing. Its outcome is that of
      its last attempt, which began when the writes earlier had been asked for.
      retried are the failures after which it decided again: only those that
      deciding again may help with, and all of them while retries are left and the
      context lasts. */
  method Execute<S(==, !new)>(
      ctx: Context, db: Database, cache: StateCache?<S>, cmd: Command<S>, ghost team: seq<Command<S>>, ghost me: nat)
    returns (outcome: Outcome, ghost decisions: nat, ghost retried: seq<Failure>, ghost seen: Log,
        ghost earlier: seq<Request>)
    requires Shared(team, me, db.log, cache) && team[me] == cmd
    modifies ctx, db, cache
    ensures Shared(team, me, db.log, cache) && old(db.log) <= seen <= db.log
    ensures EndedRight(cmd, db.log, old(db.appends), db.appends, outcome)
    ensures outcome.Returned? ==> AreDecided(cmd, Stream(db.log, cmd.subject), outcome.events)
    ensures if Check(cmd.declared).Err? then outcome == Failed(Check(cmd.declared).error) && db.log == old(db.log) &&
      db.requests == old(db.requests)
      else Attempted(cmd, RulesOf(team), db, cache != null && cmd.rules.isCopyable, seen, earlier, outcome, ctx.ended)
    ensures old(db.requests) <= earlier && |earlier| <= |old(db.requests)| + |retried| && |db.requests| <= |earlier| + 1
    ensures decisions <= |retried| + 1 && |retried| <= Retries(cmd)
    ensures forall failure | failure in retried :: MayDecideAgain(cmd, failure)
    ensures outcome.Failed? && MayDecideAgain(cmd, outcome.failure) ==> |retried| == Retries(cmd) || ctx.ended
    ensures retried != [] ==> OnStateRead in cmd.declared && |retried| <= cmd.conflictRetries
    ensures old(ctx.ended) ==> db.requests == old(db.requests)
    ensures outcome.Failed? && MayDecideAgain(cmd, outcome.failure) && OnStateRead in cmd.declared ==>
      |retried| == cmd.conflictRetries || ctx.ended
  {
    hide Shared, EndedRight, Attempted, MayDecideAgain, Check, AreDecided;
    decisions, retried, seen, earlier := 0, [], db.log, db.requests;
    var checked := CheckPreconditions(cmd.declared);
    if checked.Err? {
      RefusedAppendsNothing(cmd, db.log, db.appends, checked.error);
      return Failed(checked.error), decisions, retried, seen, earlier;
    }
    var retries := Retries(cmd);
    var attempt := 0;
    while true
      invariant |retried| == attempt <= retries && decisions <= attempt
      invariant forall failure | failure in retried :: MayDecideAgain(cmd, failure)
      invariant Shared(team, me, db.log, cache) && old(db.log) <= db.log && db.appends == old(db.appends)
      invariant old(db.requests) <= db.requests && |db.requests| <= |old(db.requests)| + attempt
      invariant old(ctx.ended) ==> ctx.ended && db.requests == old(db.requests)
      decreases retries - attempt
    {
      ghost var decided;
      earlier := db.requests;
      outcome, decided, seen := ExecuteOnce(ctx, db, cache, cmd, team, me);
      decisions := decisions + decided;
      ghost var ended := ctx.ended;
      AttemptAsksOnce(cmd, team, db, cache != null && cmd.rules.isCopyable, seen, earlier, outcome, ended);
      var again := MayTryAgain(ctx, cmd, outcome, attempt, retries);
      AttemptedStill(cmd, team, db, cache != null && cmd.rules.isCopyable, seen, earlier, outcome, ended, ctx.ended);
      if !again {
        return;
      }
      ConflictAppendsNothing(cmd, db.log, old(db.appends), db.appends, outcome);
      retried := retried + [outcome.failure];
      attempt := attempt + 1;
    }
  }

  lemma {:induction false} RefusedAppendsNothing<S>(
      cmd: Command<S>, log: Log, appends: seq<Append>, failure: Failure)
    requires Check(cmd.declared) == Err(failure)
    ensures EndedRight(cmd, log, appends, appends, Failed(failure)) && !MayDecideAgain(cmd, failure)
  {
  }

  /** Whether Execute decides again after an attempt. */
  method MayTryAgain<S>(ctx: Context, cmd: Command<S>, outcome: Outcome, attempt: nat, retries: nat)
    returns (again: bool)
    requires attempt <= retries
    modifies ctx
    ensures old(ctx.ended) ==> ctx.ended
    ensures again ==> attempt < retries && outcome.Failed? && MayDecideAgain(cmd, outcome.failure)
    ensures !again && outcome.Failed? && MayDecideAgain(cmd, outcome.failure) ==> attempt == retries || ctx.ended
  {
    if !(outcome.Failed? && outcome.failure.Conflict?) || attempt == retries {
      return false;
    }
    var ended := ctx.HasEnded();
    if ended {
      return false;
    }
    var violated := ViolatedPrecondition(outcome.failure, cmd.declared);
    again := violated.None? || violated.value.OnStateRead?;
  }

  lemma {:induction false} AttemptAsksOnce<S>(
      cmd: Command<S>, team: seq<Command<S>>, db: Database, usesCache: bool, seen: Log, before: seq<Request>,
      outcome: Outcome, ended: bool)
    requires Attempted(cmd, RulesOf(team), db, usesCache, seen, before, outcome, ended)
    ensures before <= db.requests && |db.requests| <= |before| + 1
  {
    hide FoldFails, Meaning, Stream, MayBeWritten, IsBatchOf, AsksAsDeclared, Resolve;
  }

  lemma {:induction false} AttemptedStill<S>(
      cmd: Command<S>, team: seq<Command<S>>, db: Database, usesCache: bool, seen: Log, before: seq<Request>,
      outcome: Outcome, ended: bool, endedBy: bool)
    requires Attempted(cmd, RulesOf(team), db, usesCache, seen, before, outcome, ended) && (ended ==> endedBy)
    ensures Attempted(cmd, RulesOf(team), db, usesCache, seen, before, outcome, endedBy)
  {
    hide FoldFails, Meaning, Stream, MayBeWritten, IsBatchOf, AsksAsDeclared, Resolve, Asked;
  }

  lemma {:induction false} ConflictAppendsNothing<S>(
      cmd: Command<S>, log: Log, before: seq<Append>, appends: seq<Append>, outcome: Outcome)
    requires EndedRight(cmd, log, before, appends, outcome)
    requires outcome.Failed? && MayDecideAgain(cmd, outcome.failure)
    ensures appends == before
  {
    hide AppendedRight, ViolatedPrecondition;
  }
}
