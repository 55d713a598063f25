/** Execute as a protocol: any number of commands that read a state, decide on
    it, and append under their preconditions, while they share one cache and
    one log with each other and with foreign writers
    (architecturekit/store.go). */
module WriteProtocol {
  import opened Basics
  import opened EventLog
  import opened Failures
  import opened Preconditions
  import opened StateCaching
  import opened StateRules

  /** An event a decider returns: None is an event that is nil, and an event
      whose data is missing can not be encoded. */
  datatype NewEvent = NewEvent(typ: string, data: Option<string>)

  datatype Decision = Decided(events: seq<Option<NewEvent>>) | Refused(failure: Failure)

  datatype Candidate = Candidate(typ: string, data: string)

  /** A command together with its decider. conflictRetries is the setting of the
      store. */
  datatype Command<!S> = Command(
    rules: Rules<S>, subject: string, declared: seq<Precondition>, decide: S -> Decision, conflictRetries: nat)

  datatype Outcome = Returned(events: Log) | NothingToWrite | Failed(failure: Failure)

  /** Where one Execute stands: about to look for a cached state, to open the read
      after the event that the state it starts from was built from, reading, to put
      what it has read into the cache, and so on. While it reads, cursor is the next
      event of the stream that the database hands out, and seen is how long the
      stream was when the read began. */
  datatype Phase<S> =
    | Starting
    | Opening(current: S, bound: Option<nat>)
    | Reading(current: S, last: Option<nat>, cursor: nat, seen: nat)
    | Keeping(state: S, last: Option<nat>)
    | Deciding(state: S, last: Option<nat>)
    | Writing(state: S, last: Option<nat>, batch: seq<Candidate>)
    | Finished(outcome: Outcome)

  datatype Executor<S> = Executor(attempt: nat, decisions: nat, phase: Phase<S>)

  /** An append that the database made for an executor, at the given length of
      the log. */
  datatype Append = Append(who: nat, at: nat, batch: seq<Candidate>)

  datatype System<S> = System(log: Log, cache: Option<Cache<S>>, executors: seq<Executor<S>>, appends: seq<Append>)

  /** What happens next. A context may end at any time, which an executor notices
      where it looks. */
  datatype Step =
    | Foreign(more: Log)
    | LookUp(who: nat)
    | OpenRead(who: nat)
    | ReadOne(who: nat, ended: bool)
    | ReadFails(who: nat, failure: Failure, ended: bool)
    | EndRead(who: nat)
    | KeepState(who: nat)
    | Decide(who: nat, ended: bool)
    | WriteStores(who: nat, stored: Log)
    | WriteFails(who: nat, err: ClientError, after: Option<Log>, ended: bool)

  // ----- What one executor does -----

  function Retries<S>(cmd: Command<S>): nat {
    if HasOnStateRead(cmd.declared) then cmd.conflictRetries else 0
  }

  /** Deciding again may help only after a conflict, and unless the database names
      another precondition than OnStateRead. */
  predicate MayDecideAgain<S>(cmd: Command<S>, failure: Failure) {
    var violated := ViolatedPrecondition(failure, cmd.declared);
    failure.Conflict? && (violated.Some? ==> violated.value.OnStateRead?)
  }

  /** The end of an attempt that failed: Execute decides again only while retries
      are left and the context lasts. */
  function Conclude<S>(cmd: Command<S>, x: Executor<S>, failure: Failure, ended: bool): Executor<S> {
    if !MayDecideAgain(cmd, failure) || x.attempt >= Retries(cmd) || ended
    then x.(phase := Finished(Failed(failure)))
    else x.(attempt := x.attempt + 1, phase := Starting)
  }

  /** The batch is made of the events, each at its own place. */
  predicate IsBatchOf(events: seq<Option<NewEvent>>, batch: seq<Candidate>) {
    && |batch| == |events|
    && forall i | 0 <= i < |events| ::
         events[i].Some? && batch[i].typ == events[i].value.typ && events[i].value.data == Some(batch[i].data)
  }

  predicate MayBeWritten<S>(rules: Rules<S>, events: seq<Option<NewEvent>>) {
    forall i | 0 <= i < |events| ::
      events[i].Some? && events[i].value.typ in rules.evolve && events[i].value.data.Some?
  }

  /** The checks before a write, in their order: nil events, rules, encoding. */
  function Candidates<S>(rules: Rules<S>, events: seq<Option<NewEvent>>): (r: Result<seq<Candidate>, Failure>)
    ensures if MayBeWritten(rules, events) then r.Ok? && IsBatchOf(events, r.value) else r == Err(Permanent)
  {
    if exists i :: 0 <= i < |events| && events[i].None? then Err(Permanent)
    else if exists i :: 0 <= i < |events| && events[i].value.typ !in rules.evolve then Err(Permanent)
    else if exists i :: 0 <= i < |events| && events[i].value.data.None? then Err(Permanent)
    else Ok(seq(|events|, i requires 0 <= i < |events| && events[i].Some? && events[i].value.data.Some? =>
      Candidate(events[i].value.typ, events[i].value.data.value)))
  }

  /** What the database records for a batch. */
  predicate Records(subject: string, batch: seq<Candidate>, stored: Log) {
    && |stored| == |batch|
    && forall i | 0 <= i < |batch| ::
         stored[i].subject == subject && stored[i].typ == batch[i].typ && stored[i].data == batch[i].data
  }

  predicate UsesCache<S>(s: System<S>, cmd: Command<S>) { s.cache.Some? && cmd.rules.isCopyable }

  function KeyOf<S>(cmd: Command<S>): Key { Key(cmd.rules.typeName, cmd.subject) }

  /** The fold gets to its look into the cache, unless something is wrong before. */
  predicate LooksUp<S>(s: System<S>, cmd: Command<S>) {
    UsesCache(s, cmd) && Check(cmd.declared).Ok? && cmd.rules.startsFromCopy
  }

  function Begun<S(==)>(s: System<S>, cmd: Command<S>, x: Executor<S>): Executor<S> {
    var found := if UsesCache(s, cmd) then Get(s.cache.value, KeyOf(cmd)).0 else None;
    if Check(cmd.declared).Err? then x.(phase := Finished(Failed(Check(cmd.declared).error)))
    else if !cmd.rules.startsFromCopy then x.(phase := Finished(Failed(Permanent)))
    else
      match found
      case None => x.(phase := Opening(cmd.rules.initial, None))
      case Some(entry) =>
        if !ShapeEquals(entry.shape, ShapeOf(cmd.rules)) then x.(phase := Finished(Failed(Permanent)))
        else x.(phase := Opening(entry.state, Some(entry.last)))
  }

  /** The read is opened on the stream as it is by then. */
  function Opened<S>(s: System<S>, cmd: Command<S>, x: Executor<S>): Executor<S>
    requires x.phase.Opening?
  {
    var stream := Stream(s.log, cmd.subject);
    var bound := x.phase.bound;
    var from := if bound.None? then StartIndex(cmd.rules, stream) else |stream| - |After(stream, bound)|;
    x.(phase := Reading(x.phase.current, bound, from, |stream|))
  }

  function ReadNext<S>(s: System<S>, cmd: Command<S>, x: Executor<S>, ended: bool): Executor<S>
    requires x.phase.Reading? && x.phase.cursor < |Stream(s.log, cmd.subject)|
  {
    var event := Stream(s.log, cmd.subject)[x.phase.cursor];
    match StateRules.Step(cmd.rules, x.phase.current, event)
    case Err(failure) => Conclude(cmd, x, failure, ended)
    case Ok(next) => x.(phase := Reading(next, Some(event.id), x.phase.cursor + 1, x.phase.seen))
  }

  function DecideOn<S>(cmd: Command<S>, before: Executor<S>, ended: bool): Executor<S>
    requires before.phase.Deciding?
  {
    var x := before.(decisions := before.decisions + 1);
    match cmd.decide(x.phase.state)
    case Refused(failure) => Conclude(cmd, x, failure, ended)
    case Decided(events) =>
      if events == [] then x.(phase := Finished(NothingToWrite))
      else
        match Candidates(cmd.rules, events)
        case Err(failure) => Conclude(cmd, x, failure, ended)
        case Ok(batch) =>
          if ended then x.(phase := Finished(Failed(ContextEnded)))
          else x.(phase := Writing(x.phase.state, x.phase.last, batch))
  }

  predicate AllHold<S>(log: Log, cmd: Command<S>, last: Option<nat>) {
    var resolved := Resolve(cmd.subject, cmd.declared, last);
    forall i | 0 <= i < |resolved| :: Holds(log, resolved[i])
  }

  /** A client that tells the truth: events are stored only if all preconditions
      hold, certainly not if it says so, and a precondition the database names
      did not hold. */
  predicate Truthful<S>(log: Log, cmd: Command<S>, x: Executor<S>, err: ClientError, stored: Option<Log>)
    requires x.phase.Writing?
  {
    var resolved := Resolve(cmd.subject, cmd.declared, x.phase.last);
    var named := NamedIndex(WriteFailure(err));
    && (stored.Some? ==>
        err.outcomeUnknown && AllHold(log, cmd, x.phase.last) && Records(cmd.subject, x.phase.batch, stored.value))
    && (named.Some? && 0 <= named.value < |resolved| ==> !Holds(log, resolved[named.value]))
  }

  // ----- The system -----

  ghost predicate Enabled<S>(team: seq<Command<S>>, s: System<S>, step: Step) {
    |s.executors| == |team| &&
    match step
    case Foreign(more) => Ascending(s.log + more)
    case LookUp(who) => who < |team| && s.executors[who].phase.Starting?
    case OpenRead(who) => who < |team| && s.executors[who].phase.Opening?
    case ReadOne(who, _) =>
      && who < |team| && s.executors[who].phase.Reading?
      && s.executors[who].phase.cursor < |Stream(s.log, team[who].subject)|
    case ReadFails(who, _, _) => who < |team| && s.executors[who].phase.Reading?
    case EndRead(who) =>
      && who < |team| && s.executors[who].phase.Reading?
      && s.executors[who].phase.seen <= s.executors[who].phase.cursor
    case KeepState(who) => who < |team| && s.executors[who].phase.Keeping?
    case Decide(who, _) => who < |team| && s.executors[who].phase.Deciding?
    case WriteStores(who, stored) =>
      && who < |team| && s.executors[who].phase.Writing?
      && AllHold(s.log, team[who], s.executors[who].phase.last)
      && Records(team[who].subject, s.executors[who].phase.batch, stored) && Ascending(s.log + stored)
    case WriteFails(who, err, stored, _) =>
      && who < |team| && s.executors[who].phase.Writing?
      && Truthful(s.log, team[who], s.executors[who], err, stored)
      && (stored.Some? ==> Ascending(s.log + stored.value))
  }

  function Become<S>(s: System<S>, who: nat, x: Executor<S>): System<S>
    requires who < |s.executors|
  {
    s.(executors := s.executors[who := x])
  }

  function Appended<S>(s: System<S>, who: nat, stored: Log): System<S>
    requires who < |s.executors| && s.executors[who].phase.Writing?
  {
    s.(log := s.log + stored, appends := s.appends + [Append(who, |s.log|, s.executors[who].phase.batch)])
  }

  ghost function Perform<S>(team: seq<Command<S>>, s: System<S>, step: Step): System<S>
    requires Enabled(team, s, step)
  {
    match step
    case Foreign(more) => s.(log := s.log + more)
    case LookUp(who) =>
      var cmd := team[who];
      var begun := Become(s, who, Begun(s, cmd, s.executors[who]));
      if LooksUp(s, cmd) then begun.(cache := Some(Get(s.cache.value, KeyOf(cmd)).1)) else begun
    case OpenRead(who) => Become(s, who, Opened(s, team[who], s.executors[who]))
    case ReadOne(who, ended) => Become(s, who, ReadNext(s, team[who], s.executors[who], ended))
    case ReadFails(who, failure, ended) => Become(s, who, Conclude(team[who], s.executors[who], failure, ended))
    case EndRead(who) =>
      var x := s.executors[who];
      Become(s, who, x.(phase := Keeping(x.phase.current, x.phase.last)))
    case KeepState(who) =>
      var cmd, x := team[who], s.executors[who];
      var kept := Become(s, who, x.(phase := Deciding(x.phase.state, x.phase.last)));
      if UsesCache(s, cmd) && x.phase.last.Some?
      then kept.(cache := Some(Put(s.cache.value, KeyOf(cmd), ShapeOf(cmd.rules), x.phase.state, x.phase.last.value)))
      else kept
    case Decide(who, ended) => Become(s, who, DecideOn(team[who], s.executors[who], ended))
    case WriteStores(who, stored) =>
      Become(Appended(s, who, stored), who, s.executors[who].(phase := Finished(Returned(stored))))
    case WriteFails(who, err, stored, ended) =>
      var concluded := Conclude(team[who], s.executors[who], WriteFailure(err), ended);
      Become(if stored.Some? then Appended(s, who, stored.value) else s, who, concluded)
  }

  ghost predicate Init<S>(team: seq<Command<S>>, s: System<S>) {
    && Ascending(s.log) && s.appends == []
    && (s.cache.Some? ==> s.cache.value.maxSubjects >= 1 && s.cache.value.entries == map[] && s.cache.value.order == [])
    && s.executors == seq(|team|, i => Executor(0, 0, Starting))
  }

  ghost predicate Next<S>(team: seq<Command<S>>, s: System<S>, t: System<S>) {
    exists step: Step :: Enabled(team, s, step) && t == Perform(team, s, step)
  }

  /** A run: every interleaving of the executors and of foreign writers. */
  ghost predicate Run<S>(team: seq<Command<S>>, run: seq<System<S>>) {
    && run != [] && Init(team, run[0])
    && forall i | 0 <= i < |run| - 1 :: Next(team, run[i], run[i + 1])
  }
}
