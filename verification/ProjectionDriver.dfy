/** run, follow, catchUp and drive over the three kinds of writers
    (architecturekit/projection.go). Whatever the driver calls may fail, also by a
    panic, the context may end, the log grows, and the process may die, at every
    call: a script says what happens at each of them, and its end is one more
    crash. What is proved holds for every script. */
module ProjectionDriver {
  import opened Basics
  import opened EventLog
  import opened Backoff
  import opened ProjectionWriters

  /** What run can tell about an error: whether it matches ErrTransient, and
      whether a panic is in it. */
  datatype Trouble = Trouble(isTransient: bool, hasPanicked: bool)

  /** errors.Join matches what either of the two matches. */
  function Join(left: Trouble, right: Trouble): Trouble {
    Trouble(left.isTransient || right.isTransient, left.hasPanicked || right.hasPanicked)
  }

  const PERMANENT := Trouble(false, false)
  const TRANSIENT := Trouble(true, false)

  /** The error that a panic is turned into. */
  const PANIC := Trouble(false, true)

  /** What a call comes to. A call may take effect although it reports an error,
      panics, or the process dies. */
  datatype Reply =
    | Fine
    | Fails(trouble: Trouble)
    | DoneButFails(trouble: Trouble)
    | Panics(isDone: bool)
    | Ends
    | Crashes(isDone: bool)

  /** One moment: what others write before, whether the context ends, how much
      time passes, and what the call comes to. */
  datatype Moment = Moment(written: Log, stops: bool, elapsed: nat, reply: Reply)

  /** Panicked is a panic that goes past everything up to run, which ends with it. */
  datatype Ended = Went | Failed(trouble: Trouble) | Stopped | Panicked | Died

  /** Nothing that was under way is brought to its end. */
  predicate IsCut(ended: Ended) { ended.Panicked? || ended.Died? }

  /** What a caller makes of a reply. */
  function EndedBy(reply: Reply): (ended: Ended)
    ensures !ended.Stopped? && (ended.Failed? ==> HasFailed(reply) && ended.trouble == TroubleOf(reply))
  {
    match reply
    case Crashes(_) => Died
    case Panics(_) => Panicked
    case Fails(trouble) => Failed(trouble)
    case DoneButFails(trouble) => Failed(trouble)
    case _ => Went
  }

  /** What a caller makes of it that turns a panic into an error right there. */
  function RecoveredBy(reply: Reply): (ended: Ended)
    ensures ended.Died? || ended.Went? || (ended.Failed? && HasFailed(reply) && ended.trouble == TroubleOf(reply))
  {
    if reply.Panics? then Failed(PANIC) else EndedBy(reply)
  }

  predicate HasFailed(reply: Reply) { reply.Fails? || reply.DoneButFails? || reply.Panics? }

  function TroubleOf(reply: Reply): Trouble
    requires HasFailed(reply)
  {
    if reply.Panics? then PANIC else reply.trouble
  }

  /** What a read hands out, by what it came to, and by what is left of the stream. */
  function NextOf(reply: Reply, isLive: bool, mayEnd: bool, rest: Log): Option<Next> {
    match reply
    case Fails(trouble) => Some(ReadFails(trouble))
    case DoneButFails(trouble) => Some(ReadFails(trouble))
    case Panics(_) => Some(Cut(Panicked))
    case Crashes(_) => Some(Cut(Died))
    case _ =>
      if reply.Ends? && isLive then Some(ReadFails(TRANSIENT))
      else if reply.Ends? && mayEnd then Some(NoMore)
      else if |rest| > 0 then Some(Got(rest[0]))
      else if isLive then None
      else Some(NoMore)
  }

  datatype Next = Got(event: Stored) | NoMore | ReadFails(trouble: Trouble) | Cut(ended: Ended)

  /** What drive keeps while it goes through the events: the last event handed
      out to it, the last one it has applied, and the open batch. */
  datatype Batch = Batch(at: Option<nat>, last: Option<nat>, size: int, count: int, isOpen: bool)

  /** What the observer of reconnects learns. */
  datatype Reconnect = Reconnect(delay: int, attempt: nat)

  /** A session, from one wait to the next: how many events of the stream had been
      handed over before and after it, whether the checkpoint was answered before and
      after it, when it had caught up, if it did, and when it broke off. */
  datatype Session = Session(
    began: nat, ended: nat, isKnownBefore: bool, isKnownAfter: bool, caughtUpAt: Option<nat>, brokeOffAt: nat)

  /** How long it followed the stream live. */
  function LiveFor(s: Session): int { if s.caughtUpAt.None? then 0 else s.brokeOffAt - s.caughtUpAt.value }

  /** As it is documented: an event was applied, and not undone again, or the session was live for longer than
      the initial delay. */
  predicate IsHealthy(s: Session, initialDelay: int) { s.began < s.ended || LiveFor(s) > initialDelay }

  /** As it is: what was answered before and after the session differs, where a call that
      failed counts as an empty answer. */
  predicate LooksAdvanced(s: Session) {
    match (s.isKnownBefore, s.isKnownAfter)
    case (true, true) => s.began != s.ended
    case (true, false) => s.began > 0
    case (false, true) => s.ended > 0
    case (false, false) => false
  }

  predicate LooksHealthy(s: Session, initialDelay: int) { LooksAdvanced(s) || LiveFor(s) > initialDelay }

  /** What was answered around a session. */
  ghost predicate IsAnswered(s: Session, stream: Log, before: Option<nat>, after: Option<nat>) {
    && s.began <= s.ended <= |stream|
    && before == (if s.isKnownBefore then LastId(stream[..s.began]) else None)
    && after == (if s.isKnownAfter then LastId(stream[..s.ended]) else None)
  }

  lemma {:induction false} AnswersDiffer(s: Session, stream: Log, before: Option<nat>, after: Option<nat>)
    requires Ascending(stream) && IsAnswered(s, stream, before, after)
    ensures before != after <==> LooksAdvanced(s)
  {
    if s.isKnownBefore && s.isKnownAfter && before == after {
      LastIdNamesPrefix(stream, s.began, s.ended);
    }
  }

  /** A session counts as healthy as documented, whatever it did, exactly if the
      checkpoint is answered both before and after it. */
  lemma {:induction false} HealthIsAsDocumentedIfAnswered(isKnownBefore: bool, isKnownAfter: bool, initialDelay: int)
    requires initialDelay >= 0
    ensures isKnownBefore && isKnownAfter <==>
      forall s: Session | s.began <= s.ended && s.isKnownBefore == isKnownBefore && s.isKnownAfter == isKnownAfter ::
        LooksHealthy(s, initialDelay) <==> IsHealthy(s, initialDelay)
  {
    if !isKnownBefore || !isKnownAfter {
      var began := if isKnownBefore || isKnownAfter then 1 else 0;
      var s := Session(began, 1, isKnownBefore, isKnownAfter, None, 0);
      assert LooksHealthy(s, initialDelay) != IsHealthy(s, initialDelay);
    }
  }

  /** What the log holds once others have written: an ID that does not ascend is
      none the database hands out. */
  function Extended(log: Log, written: Log): (grown: Log)
    ensures log <= grown && (Ascending(log) ==> Ascending(grown))
    decreases |written|
  {
    if written == [] then log
    else if log == [] || log[|log| - 1].id < written[0].id then Extended(log + [written[0]], written[1..])
    else Extended(log, written[1..])
  }

  /** Every attempt waits as long as its number in a row says, and the numbers start over
      exactly after a session that looks healthy. */
  ghost predicate RightReconnects(
      reconnects: seq<Reconnect>, sessions: seq<Session>, from: nat, initialDelay: int, maxDelay: int)
  {
    && from <= |reconnects| == |sessions|
    && forall i | from <= i < |reconnects| :: RightAt(reconnects, sessions, i, from, initialDelay, maxDelay)
  }

  ghost predicate RightAt(
      reconnects: seq<Reconnect>, sessions: seq<Session>, i: nat, from: nat, initialDelay: int, maxDelay: int)
    requires from <= i < |reconnects| == |sessions|
  {
    var startsOver := i == from || LooksHealthy(sessions[i], initialDelay);
    && reconnects[i].attempt == (if startsOver then 1 else reconnects[i - 1].attempt + 1)
    && reconnects[i].delay == DelayOf(reconnects[i].attempt, initialDelay, maxDelay)
  }

  lemma {:induction false} RightAppend(
      reconnects: seq<Reconnect>, r: Reconnect, sessions: seq<Session>, s: Session, from: nat, initialDelay: int,
      maxDelay: int)
    requires RightReconnects(reconnects, sessions, from, initialDelay, maxDelay)
    requires RightAt(reconnects + [r], sessions + [s], |reconnects|, from, initialDelay, maxDelay)
    ensures RightReconnects(reconnects + [r], sessions + [s], from, initialDelay, maxDelay)
  {
    forall i | from <= i < |reconnects|
      ensures RightAt(reconnects + [r], sessions + [s], i, from, initialDelay, maxDelay)
    {
      assert RightAt(reconnects, sessions, i, from, initialDelay, maxDelay);
    }
  }

  /** The sessions follow one another from the k0-th event of the stream to the k-th, and
      a checkpoint that is kept in memory is always answered. */
  ghost predicate FollowOn(sessions: seq<Session>, from: nat, kind: Kind, origin: nat, k0: nat, k: nat) {
    && from <= |sessions| && k == (if |sessions| == from then k0 else sessions[|sessions| - 1].ended)
    && forall i | from <= i < |sessions| :: FollowsAt(sessions, i, from, kind, origin, k0)
  }

  ghost predicate FollowsAt(sessions: seq<Session>, i: nat, from: nat, kind: Kind, origin: nat, k0: nat)
    requires from <= i < |sessions|
  {
    sessions[i].began == (if i == from then k0 else sessions[i - 1].ended) && IsSession(sessions[i], kind, origin)
  }

  ghost predicate IsSession(s: Session, kind: Kind, origin: nat) {
    && s.began <= s.ended && LiveFor(s) >= 0
    && (s.isKnownBefore || MayGoUnanswered(kind, origin, s.began))
    && (s.isKnownAfter || MayGoUnanswered(kind, origin, s.ended))
  }

  /** Of the sessions of a run, those count as healthy as documented around which the
      checkpoint is in memory: all of a rebuilt projection, and of a resumable one those
      after the first event that its run has applied. */
  lemma {:induction false} HealthIsAsDocumentedInMemory(
      sessions: seq<Session>, from: nat, kind: Kind, origin: nat, k0: nat, k: nat, i: nat, initialDelay: int)
    requires FollowOn(sessions, from, kind, origin, k0, k) && from <= i < |sessions|
    requires kind.Rebuild? || (kind.Resumable? && origin < sessions[i].began)
    ensures LooksHealthy(sessions[i], initialDelay) <==> IsHealthy(sessions[i], initialDelay)
  {
    assert FollowsAt(sessions, i, from, kind, origin, k0);
  }

  lemma {:induction false} FollowOnFurther(
      sessions: seq<Session>, s: Session, from: nat, kind: Kind, origin: nat, k0: nat, k: nat)
    requires FollowOn(sessions, from, kind, origin, k0, k) && s.began == k && IsSession(s, kind, origin)
    ensures FollowOn(sessions + [s], from, kind, origin, k0, s.ended)
  {
    forall i | from <= i < |sessions| + 1 ensures FollowsAt(sessions + [s], i, from, kind, origin, k0) {
      if i < |sessions| {
        assert FollowsAt(sessions, i, from, kind, origin, k0);
      }
    }
  }

  /** Asking for the checkpoint may fail: always for a transactional projection, and for a
      resumable one until its run has applied an event. */
  predicate MayGoUnanswered(kind: Kind, origin: nat, k: nat) {
    kind.Transactional? || (kind.Resumable? && k == origin)
  }

  class Driver {
    const kind: Kind
    const covers: Stored -> bool
    const isVerified: Stored -> bool
    const batchSize: int
    const initialDelay: int
    const maxDelay: int

    var log: Log
    var target: Target
    var writer: Writer
    ghost var account: Account

    const script: seq<Moment>
    var tick: nat
    var hasEnded: bool
    var clock: nat
    var hasCaughtUp: bool
    var revision: Option<nat>
    var reconnects: seq<Reconnect>

    /** The session before each of the reconnects. */
    ghost var sessions: seq<Session>

    /** How following ended last. */
    ghost var followed: Ended

    /** How many events were applied and not committed while a live read was waiting. */
    ghost var liveWaits: set<nat>

    /** How often catching up has gone through. */
    ghost var catchUps: nat

    constructor (
        kind: Kind, covers: Stored -> bool, isVerified: Stored -> bool, batchSize: int, initialDelay: int,
        maxDelay: int, script: seq<Moment>)
      ensures log == [] && target == Target([], None) && Survives()
      ensures this.kind == kind && this.covers == covers && reconnects == [] && sessions == []
    {
      this.kind, this.covers, this.isVerified, this.batchSize := kind, covers, isVerified, batchSize;
      this.initialDelay, this.maxDelay := initialDelay, maxDelay;
      log, target, writer, account := [], Target([], None), Writer(None, None), Account(0, [], 0);
      this.script, tick, hasEnded, clock, hasCaughtUp, revision := script, 0, false, 0, false, None;
      followed, liveWaits, catchUps := Went, {}, 0;
      reconnects, sessions := [], [];
      new;
      assert Includes(target.applied, Stream(), 0) && target.saved == LastId(Stream()[..0]);
      assert target.applied == account.before + Stream()[0..0];
    }

    /** The events of the projection's subjects. */
    function Stream(): Log
      reads this`log
    {
      Filter(covers, log)
    }

    /** batchSizeOf. */
    function BatchSize(): (size: int)
      ensures size >= 1 && (batchSize >= 1 ==> size == batchSize)
    {
      if batchSize > 1 then batchSize else 1
    }

    /** The first k events of the stream have been handed over. */
    ghost predicate Holds(k: nat, pending: Log)
      reads this`log, this`tick, this`target, this`writer, this`account
    {
      && tick <= |script| && Ascending(log) && k <= |Stream()| &&
        Held(kind, Stream(), target, writer, account, k, pending)
      && (kind.Transactional? && pending != [] ==> writer.tx == Some(pending)) &&
        (kind.Resumable? ==> account.origin <= k)
      && (!kind.Transactional? ==> pending == [])
      && forall e <- pending :: isVerified(e)
    }

    /** What holds even of a process that has died. */
    ghost predicate Survives()
      reads this`log, this`tick, this`target, this`account
    {
      Ascending(log) && Durable(kind, Stream(), target) && Continues(kind, Stream(), target, account) &&
        tick <= |script|
    }

    // ----- What has happened since a moment -----

    ghost predicate EndsSince(from: nat)
      reads this`tick
    {
      exists i | from <= i < tick && i < |script| :: script[i].stops
    }

    ghost predicate CrashesSince(from: nat)
      reads this`tick
    {
      exists i | from <= i < tick && i < |script| :: script[i].reply.Crashes?
    }

    /** A call has failed, or a stream has ended. */
    ghost predicate FailsSince(from: nat)
      reads this`tick
    {
      exists i | from <= i < tick && i < |script| :: HasFailed(script[i].reply) || script[i].reply.Ends?
    }

    ghost predicate FailsForGoodSince(from: nat)
      reads this`tick
    {
      exists i | from <= i < tick && i < |script| ::
        HasFailed(script[i].reply) && !TroubleOf(script[i].reply).isTransient
    }

    ghost predicate PanicsSince(from: nat)
      reads this`tick
    {
      exists i | from <= i < tick && i < |script| ::
        HasFailed(script[i].reply) && TroubleOf(script[i].reply).hasPanicked
    }

    ghost predicate IsCalmSince(from: nat)
      reads this`tick
    {
      forall i | from <= i < tick && i < |script| :: script[i].reply.Fine?
    }

    ghost predicate HasUnverified()
      reads this`log
    {
      exists i | 0 <= i < |Stream()| :: !isVerified(Stream()[i])
    }

    /** Nothing fails, dies or ends without a cause since the given moment. */
    ghost predicate Caused(ended: Ended, from: nat)
      reads this`tick, this`log
    {
      match ended
      case Went => true
      case Stopped => true
      case Panicked => PanicsSince(from)
      case Died => tick == |script| || CrashesSince(from)
      case Failed(trouble) =>
        && (FailsSince(from) || HasUnverified())
        && (!trouble.isTransient ==> FailsForGoodSince(from) || HasUnverified())
        && (trouble.hasPanicked ==> PanicsSince(from))
    }

    /** Time goes on within a run: the log and the target only grow, and a context
        ends only at a moment that says so, and stays ended. */
    twostate predicate Onward()
      reads this
    {
      && old(log) <= log && old(Stream()) <= Stream() && old(target.applied) <= target.applied
      && old(tick) <= tick <= |script|
      && (hasEnded <==> old(hasEnded) || EndsSince(old(tick))) && old(clock) <= clock
      && account.origin == old(account).origin && account.before == old(account).before
      && IsVerifiedFrom(|old(target.applied)|)
    }

    /** Every event in the target was verified, from a place on. */
    ghost predicate IsVerifiedFrom(n: nat)
      reads this`target
    {
      forall i | n <= i < |target.applied| :: isVerified(target.applied[i])
    }

    /** At least one moment has passed. */
    twostate predicate Progressed()
      reads this
    {
      old(tick) < |script| ==> old(tick) < tick
    }

    lemma {:induction false} NothingSince()
      ensures !EndsSince(tick)
    {
    }

    lemma {:induction false} CausedEarlier(ended: Ended, from: nat, earlier: nat)
      requires earlier <= from && Caused(ended, from)
      ensures Caused(ended, earlier)
    {
    }

    lemma {:induction false} StoppedIsCaused(from: nat)
      ensures Caused(Stopped, from)
    {
    }

    // ----- The world around -----

    /** What others write keeps the IDs ascending. */
    method Grow(written: Log, ghost k: nat, ghost pending: Log)
      requires Holds(k, pending)
      modifies this`log
      ensures Holds(k, pending) && old(log) <= log && old(Stream()) <= Stream()
    {
      hide Held, Durable, Continues, Filter;
      var grown := Extended(log, written);
      ghost var more := grown[|log|..];
      assert grown == log + more;
      FilterAppend(covers, log, more);
      HeldGrows(kind, Stream(), Filter(covers, more), target, writer, account, k, pending);
      log := grown;
    }

    /** Every call outside takes one moment. */
    method Await(ghost k: nat, ghost pending: Log) returns (reply: Reply)
      requires Holds(k, pending)
      modifies this`log, this`tick, this`hasEnded, this`clock
      ensures Holds(k, pending) && Onward()
      ensures if old(tick) < |script| then tick == old(tick) + 1 && reply == script[old(tick)].reply
        else tick == |script| && reply == Crashes(false)
      ensures Caused(EndedBy(reply), old(tick)) && Caused(RecoveredBy(reply), old(tick))
      ensures reply.Ends? ==> Caused(Failed(TRANSIENT), old(tick))
      ensures Progressed()
    {
      hide Held, Durable, Continues, Filter;
      if tick == |script| {
        return Crashes(false);
      }
      var moment := script[tick];
      tick := tick + 1;
      Grow(moment.written, k, pending);
      hasEnded := hasEnded || moment.stops;
      clock := clock + moment.elapsed;
      return moment.reply;
    }

    /** One look at the events. A finite read ends only once it has handed out what
        was stored when it began, and a stream that ends is reported as broken off.
        Only a live one may have nothing yet. */
    method ReadOnce(at: Option<nat>, isLive: bool, begun: nat, ghost k: nat, ghost pending: Log)
      returns (next: Option<Next>)
      requires Holds(k, pending) && at == LastId(Stream()[..k]) && begun <= |Stream()|
      modifies this`log, this`tick, this`hasEnded, this`clock
      ensures Holds(k, pending) && Onward() && Progressed() && tick <= old(tick) + 1
      ensures next == None ==> isLive && old(tick) < |script|
      ensures next.Some? ==> IsNext(next.value, isLive, begun, k) && (next.value == Cut(Died) || old(tick) < |script|)
      ensures next.Some? && next.value.Cut? ==> Caused(next.value.ended, old(tick))
      ensures next.Some? && next.value.ReadFails? ==> Caused(Failed(next.value.trouble), old(tick))
    {
      hide EndsSince, Caused, Held, Durable, Continues, Filter, After, Ascending;
      FilterAscends(covers, log);
      var reply := Await(k, pending);
      FilterAscends(covers, log);
      AfterPrefix(Stream(), k);
      var rest := After(Stream(), at);
      next := NextOf(reply, isLive, hasEnded || begun <= |Stream()| - |rest|, rest);
    }

    /** What a read may hand out when the first k events have been handed out. */
    ghost predicate IsNext(next: Next, isLive: bool, begun: nat, k: nat)
      reads this`log, this`hasEnded
    {
      && (next.Got? ==> k < |Stream()| && next.event == Stream()[k])
      && (next.NoMore? ==> !isLive && (begun <= k || hasEnded))
      && (next.Cut? ==> IsCut(next.ended))
    }

    /** The next event after the last one that was handed out. */
    method ReadNext(at: Option<nat>, isLive: bool, begun: nat, ghost k: nat, ghost pending: Log) returns (next: Next)
      requires Holds(k, pending) && at == LastId(Stream()[..k]) && begun <= |Stream()|
      modifies this`log, this`tick, this`hasEnded, this`clock
      ensures Holds(k, pending) && Onward() && Progressed()
      ensures IsNext(next, isLive, begun, k)
      ensures next == Cut(Died) || old(tick) < |script|
      ensures next.Cut? ==> Caused(next.ended, old(tick))
      ensures next.ReadFails? ==> Caused(Failed(next.trouble), old(tick))
      ensures !isLive ==> tick <= old(tick) + 1
      decreases |script| - tick
    {
      hide FailsSince, CrashesSince, FailsForGoodSince, PanicsSince, HasUnverified, Held, Filter;
      var found := ReadOnce(at, isLive, begun, k, pending);
      if found.Some? {
        return found.value;
      }
      ghost var since := tick;
      next := ReadNext(at, isLive, begun, k, pending);
      if next.Cut? || next.ReadFails? {
        CausedEarlier(if next.Cut? then next.ended else Failed(next.trouble), since, old(tick));
      }
    }

    // ----- The writers -----

    /** Whether the checkpoint is asked for outside, instead of being in memory. */
    predicate Asks()
      reads this`writer
    {
      kind.Transactional? || (kind.Resumable? && writer.lastApplied.None?)
    }

    /** writer.checkpoint: a call that fails hands out an empty checkpoint with its error. */
    method AskCheckpoint(ghost k: nat) returns (checkpoint: Option<nat>, ended: Ended)
      requires Holds(k, [])
      modifies this`log, this`tick, this`hasEnded, this`clock
      ensures Holds(k, []) && Onward()
      ensures checkpoint == if ended.Went? then LastId(Stream()[..k]) else None
      ensures ended == if !Asks() then Went else if old(tick) < |script| then EndedBy(script[old(tick)].reply) else Died
      ensures tick == old(tick) + if Asks() && old(tick) < |script| then 1 else 0
      ensures Asks() ==> MayGoUnanswered(kind, account.origin, k)
      ensures Caused(ended, old(tick))
    {
      NothingSince();
      hide EndsSince, FailsSince, CrashesSince, FailsForGoodSince, PanicsSince, HasUnverified;
      hide Durable, Continues, Filter;
      HeldIsDurable(kind, Stream(), target, writer, account, k, []);
      if kind.Rebuild? || (kind.Resumable? && writer.lastApplied.Some?) {
        return writer.lastApplied, Went;
      }
      var reply := Await(k, []);
      HeldIsDurable(kind, Stream(), target, writer, account, k, []);
      return if EndedBy(reply).Went? then target.saved else None, EndedBy(reply);
    }

    method Begin(ghost k: nat) returns (ended: Ended)
      requires Holds(k, [])
      modifies this`log, this`tick, this`hasEnded, this`clock, this`writer
      ensures Holds(k, []) && Onward()
      ensures ended.Went? && kind.Transactional? ==> writer.tx == Some([])
      ensures Caused(ended, old(tick)) && tick <= old(tick) + 1
      ensures !ended.Stopped?
    {
      NothingSince();
      hide EndsSince, FailsSince, CrashesSince, FailsForGoodSince, PanicsSince, HasUnverified;
      if !kind.Transactional? {
        return Went;
      }
      var reply := Await(k, []);
      if EndedBy(reply).Went? {
        writer := writer.(tx := Some([]));
      }
      return EndedBy(reply);
    }

    /** The event gets to the target, within the open transaction or at once. */
    method Hand(event: Stored, ghost k: nat, ghost pending: Log) returns (ghost nowPending: Log)
      requires Holds(k, pending) && k < |Stream()| && event == Stream()[k] && isVerified(event)
      requires kind.Transactional? ==> writer.tx == Some(pending)
      modifies this`writer, this`target
      ensures Holds(k + 1, nowPending) && Survives() && old(target.applied) <= target.applied
      ensures IsVerifiedFrom(|old(target.applied)|)
      ensures kind.Transactional? ==> writer.tx == Some(nowPending) && nowPending != []
    {
      if kind.Transactional? {
        HeldApplyInTx(Stream(), target, writer, account, k, pending);
        writer := writer.(tx := Some(writer.tx.value + [event]));
        nowPending := pending + [event];
      } else {
        HeldApply(kind, Stream(), target, writer, account, k);
        target := Applied(target, event);
        writer := writer.(lastApplied := Some(event.id));
        nowPending := [];
      }
      HeldIsDurable(kind, Stream(), target, writer, account, k + 1, nowPending);
    }

    /** applyTo: an error or a panic of Apply applies nothing, and a process that
        dies may have applied the event before. */
    method Apply(event: Stored, ghost k: nat, ghost pending: Log) returns (ended: Ended, ghost nowPending: Log)
      requires Holds(k, pending) && k < |Stream()| && event == Stream()[k] && isVerified(event)
      requires kind.Transactional? ==> writer.tx == Some(pending)
      modifies this`log, this`tick, this`hasEnded, this`clock, this`writer, this`target
      ensures Survives() && Onward()
      ensures ended.Went? ==> Holds(k + 1, nowPending) && (kind.Transactional? ==> writer.tx == Some(nowPending))
      ensures ended.Failed? ==> Holds(k, pending) && writer == old(writer)
      ensures Caused(ended, old(tick)) && tick <= old(tick) + 1
      ensures ended.Died? || ended.Went? || ended.Failed?
    {
      NothingSince();
      hide EndsSince, FailsSince, CrashesSince, FailsForGoodSince, PanicsSince, HasUnverified;
      hide Held, Durable, Continues, Filter;
      var reply := Await(k, pending);
      HeldIsDurable(kind, Stream(), target, writer, account, k, pending);
      if HasFailed(reply) {
        return RecoveredBy(reply), pending;
      }
      if reply.Crashes? && !reply.isDone {
        return Died, pending;
      }
      nowPending := Hand(event, k, pending);
      return if reply.Crashes? then Died else Went, nowPending;
    }

    /** A commit may take effect although it fails, or although the process dies.
        Either way, what is held is known again. */
    method Commit(last: Option<nat>, ghost k: nat, ghost pending: Log) returns (ended: Ended, ghost now: nat)
      requires Holds(k, pending) && 0 < k && last == LastId(Stream()[..k])
      requires kind.Transactional? ==> writer.tx == Some(pending)
      requires kind.Resumable? ==> account.origin < k
      modifies this`log, this`tick, this`hasEnded, this`clock, this`writer, this`target, this`account
      ensures Survives() && Onward()
      ensures !IsCut(ended) ==> Holds(now, []) && account.origin == old(account).origin
      ensures ended.Went? ==> now == k && (!kind.Rebuild? ==> target.saved == last)
      ensures Caused(ended, old(tick)) && tick <= old(tick) + 1
      ensures !ended.Stopped?
    {
      NothingSince();
      hide Held, Durable, Continues, Filter;
      hide EndsSince, FailsSince, CrashesSince, FailsForGoodSince, PanicsSince, HasUnverified;
      if kind.Rebuild? {
        HeldIsDurable(kind, Stream(), target, writer, account, k, pending);
        return Went, k;
      }
      var reply := Await(k, pending);
      now := TakeEffect(reply, last, k, pending);
      ended := EndedBy(reply);
    }

    /** What a commit does to the target and the writer, by what it came to. */
    method TakeEffect(reply: Reply, last: Option<nat>, ghost k: nat, ghost pending: Log) returns (ghost now: nat)
      requires Holds(k, pending) && 0 < k && last == LastId(Stream()[..k]) && !kind.Rebuild?
      requires kind.Transactional? ==> writer.tx == Some(pending)
      requires kind.Resumable? ==> account.origin < k
      modifies this`writer, this`target, this`account
      ensures Survives() && Holds(now, []) && old(target.applied) <= target.applied
      ensures IsVerifiedFrom(|old(target.applied)|)
      ensures account.origin == old(account).origin && account.before == old(account).before
      ensures EndedBy(reply).Went? ==> now == k && target.saved == last
    {
      hide Held, Durable, Continues, Filter;
      now := k;
      HeldCommit(kind, Stream(), target, writer, account, k, pending);
      if reply.Fine? || reply.Ends? || reply.DoneButFails? ||
        ((reply.Crashes? || reply.Panics?) && reply.isDone)
      {
        target := Committed(kind, target, writer, last);
        account := account.(savedAt := if kind.Resumable? then k else account.savedAt);
      } else if kind.Transactional? {
        HeldRollback(Stream(), target, writer, Closed(kind, writer), account, k, pending);
        now := |target.applied|;
      }
      writer := Closed(kind, writer);
      HeldIsDurable(kind, Stream(), target, writer, account, now, []);
    }

    /** Whatever a rollback comes to, nothing of the open transaction stays. Only a
        panic leaves the transaction behind. */
    method Rollback(ghost k: nat, ghost pending: Log) returns (ended: Ended, ghost now: nat)
      requires Holds(k, pending)
      modifies this`log, this`tick, this`hasEnded, this`clock, this`writer
      ensures Survives() && Holds(now, []) && Onward()
      ensures Caused(ended, old(tick)) && tick <= old(tick) + 1
      ensures ended.Died? || ended.Went? || ended.Failed?
      ensures kind.Transactional? && (ended.Went? || (ended.Failed? && !ended.trouble.hasPanicked)) ==> writer.tx.None?
      ensures !kind.Transactional? ==> now == k && ended.Went?
    {
      NothingSince();
      hide EndsSince, FailsSince, CrashesSince, FailsForGoodSince, PanicsSince, HasUnverified;
      hide Durable, Continues, Filter;
      now := k;
      if !kind.Transactional? || writer.tx.None? {
        HeldIsDurable(kind, Stream(), target, writer, account, k, pending);
        return Went, now;
      }
      var reply := Await(k, pending);
      HeldRollback(Stream(), target, writer, writer.(tx := None), account, k, pending);
      HeldRollback(Stream(), target, writer, writer, account, k, pending);
      now := |target.applied|;
      HeldIsDurable(kind, Stream(), target, writer, account, now, []);
      ended := RecoveredBy(reply);
      if !reply.Panics? && !reply.Crashes? {
        writer := writer.(tx := None);
      }
    }

    // ----- drive -----

    /** Drive is at work: it began at k0, and has come to k. */
    ghost predicate Driving(batch: Batch, k0: nat, k: nat, pending: Log)
      reads this`log, this`tick, this`target, this`writer, this`account
    {
      && Holds(k, pending) && k0 <= k && (kind.Resumable? ==> account.origin <= k0)
      && batch.at == LastId(Stream()[..k]) && batch.last == (if k == k0 then None else batch.at)
      && 0 <= batch.count < batch.size
      && (if batch.isOpen then k0 < k && (kind.Transactional? ==> writer.tx == Some(pending)) else pending == [])
      && (!batch.isOpen ==> IsSaved(batch.last, k0, k)) && (batch.isOpen <==> batch.count > 0)
      && AreVerified(k0, k)
    }

    /** The events of the stream between two places are verified. */
    ghost predicate AreVerified(k0: nat, k: nat)
      reads this`log
    {
      forall i | k0 <= i < k && i < |Stream()| :: isVerified(Stream()[i])
    }

    /** What was handed over since drive began, if anything was, is saved. */
    ghost predicate IsSaved(last: Option<nat>, k0: nat, k: nat)
      reads this`target
    {
      k0 < k && !kind.Rebuild? ==> target.saved == last
    }

    /** What is known after a turn of drive: it goes on, the events have ended, or it
        has failed, and nothing is pending any more. */
    ghost predicate Reached(over: Option<Ended>, batch: Batch, isLive: bool, begun: nat, k0: nat, k: nat, pending: Log)
      reads this`log, this`tick, this`target, this`writer, this`account, this`hasEnded
    {
      match over
      case None => Driving(batch, k0, k, pending)
      case Some(Went) => Driving(batch, k0, k, pending) && !isLive && (begun <= k || hasEnded)
      case Some(Failed(_)) => Holds(k, [])
      case Some(Stopped) => Holds(k, []) && hasEnded
      case Some(Panicked) => true
      case Some(Died) => true
    }

    /** drive applies the events in batches. If it goes through, every event that was
        stored when it began has been handed over, and the checkpoint is that of the
        last one that it has handed over itself. */
    method Drive(from: Option<nat>, isLive: bool, size: int, ghost k0: nat)
      returns (last: Option<nat>, ended: Ended, ghost k: nat)
      requires Holds(k0, []) && from == LastId(Stream()[..k0]) && size >= 1
      modifies this`log, this`tick, this`hasEnded, this`clock, this`writer, this`target, this`account, this`revision,
        this`liveWaits
      ensures Survives() && Onward() && Progressed()
      ensures (!IsCut(ended) ==> Holds(k, [])) && (!ended.Died? ==> old(tick) < |script|)
      ensures ended.Went? ==> !isLive && |old(Stream())| <= k && k0 <= k && IsSaved(last, k0, k)
      ensures ended.Went? ==> last == if k == k0 then None else LastId(Stream()[..k])
      ensures ended.Stopped? ==> hasEnded
      ensures ended.Went? ==> AreVerified(k0, k)
      ensures forall n <- liveWaits :: n in old(liveWaits) || (isLive && n < size)
      ensures Caused(ended, old(tick)) && (!isLive ==> tick <= old(tick) + 4 * (|Stream()| - k0) + 5)
    {
      hide FailsSince, CrashesSince, FailsForGoodSince, PanicsSince, HasUnverified;
      hide Held, Durable, Continues, Filter;
      var batch;
      ghost var pending;
      batch, ended, k, pending := DriveOn(Batch(from, None, size, 0, false), isLive, |Stream()|, k0);
      last := batch.last;
      if ended.Went? {
        ghost var since := tick;
        ended, k := Finish(batch, k0, k, pending);
        CausedEarlier(ended, since, old(tick));
      }
    }

    /** The loop of drive. */
    method DriveOn(first: Batch, isLive: bool, begun: nat, ghost k0: nat)
      returns (batch: Batch, ended: Ended, ghost k: nat, ghost pending: Log)
      requires Driving(first, k0, k0, []) && begun <= |Stream()|
      modifies this`log, this`tick, this`hasEnded, this`clock, this`writer, this`target, this`account, this`revision,
        this`liveWaits
      ensures Survives() && Onward() && Progressed()
      ensures Reached(Some(ended), batch, isLive, begun, k0, k, pending) && Caused(ended, old(tick))
      ensures !ended.Died? ==> old(tick) < |script|
      ensures !isLive ==> tick <= old(tick) + 4 * (|Stream()| - k0) + 4
      ensures forall n <- liveWaits :: n in old(liveWaits) || (isLive && n < first.size)
    {
      hide FailsSince, CrashesSince, FailsForGoodSince, PanicsSince, HasUnverified;
      hide Held, Durable, Continues, Filter;
      batch, k, pending := first, k0, [];
      var over: Option<Ended> := None;
      ghost var turns := 0;
      HeldIsDurable(kind, Stream(), target, writer, account, k0, []);
      while over.None?
        invariant Survives() && Onward() && Reached(over, batch, isLive, begun, k0, k, pending)
        invariant turns > 0 ==> Progressed()
        invariant if over.None? then turns == k - k0
          else turns > 0 && Caused(over.value, old(tick)) && turns - 1 <= |Stream()| - k0
        invariant !isLive ==> tick <= old(tick) + 4 * turns
        invariant forall n <- liveWaits :: n in old(liveWaits) || (isLive && n < first.size)
        invariant over.None? ==> batch.size == first.size
        invariant turns > 0 && over != Some(Died) ==> old(tick) < |script|
        decreases |script| - tick, over.None?
      {
        ghost var since := tick;
        batch, over, k, pending := DriveOne(batch, isLive, begun, k0, k, pending);
        if over.Some? {
          CausedEarlier(over.value, since, old(tick));
        }
        turns := turns + 1;
      }
      ended := over.value;
    }

    /** The end of the events: a batch that is still open is committed. */
    method Finish(batch: Batch, ghost k0: nat, ghost k: nat, ghost pending: Log) returns (ended: Ended, ghost now: nat)
      requires Driving(batch, k0, k, pending)
      modifies this`log, this`tick, this`hasEnded, this`clock, this`writer, this`target, this`account, this`revision
      ensures Survives() && Onward()
      ensures !IsCut(ended) ==> Holds(now, [])
      ensures ended.Went? ==> now == k && !hasEnded && IsSaved(batch.last, k0, k) && AreVerified(k0, k)
      ensures ended.Stopped? ==> hasEnded
      ensures Caused(ended, old(tick)) && tick <= old(tick) + 1
    {
      hide Held, Durable, Continues, Filter;
      HeldIsDurable(kind, Stream(), target, writer, account, k, pending);
      ended, now := Went, k;
      if batch.isOpen {
        ended, now := Save(batch.last, k, pending);
      }
      if ended.Went? && hasEnded {
        ended := Stopped;
      }
    }

    /** One turn of the loop of drive. */
    method DriveOne(before: Batch, isLive: bool, begun: nat, ghost k0: nat, ghost k: nat, ghost pending: Log)
      returns (batch: Batch, over: Option<Ended>, ghost now: nat, ghost nowPending: Log)
      requires Driving(before, k0, k, pending) && begun <= |Stream()|
      modifies this`log, this`tick, this`hasEnded, this`clock, this`writer, this`target, this`account, this`revision,
        this`liveWaits
      ensures Survives() && Onward() && Progressed()
      ensures over != Some(Died) ==> old(tick) < |script|
      ensures Reached(over, batch, isLive, begun, k0, now, nowPending)
      ensures if over.Some? then Caused(over.value, old(tick)) else now == k + 1
      ensures !isLive ==> tick <= old(tick) + 4
      ensures liveWaits == old(liveWaits) + WaitsWith(before, isLive) && (over.None? ==> batch.size == before.size)
    {
      hide Holds, Filter, FailsSince, CrashesSince, FailsForGoodSince, PanicsSince, HasUnverified;
      batch, now, nowPending := before, k, pending;
      var next := ReadOn(before, isLive, begun, k0, k, pending);
      match next {
        case Cut(cut) => over := Some(cut);
        case NoMore => over := Some(Went);
        case ReadFails(trouble) =>
          var ended;
          ended, now := GiveUp(trouble, batch, old(tick), k0, k, pending);
          over := Some(ended);
        case Got(event) =>
          ghost var since := tick;
          batch, over, now, nowPending := GoOn(event, before, k0, k, pending);
          if over.Some? {
            CausedEarlier(over.value, since, old(tick));
          }
      }
    }

    /** How many events of a batch a live read leaves uncommitted while it waits. */
    ghost function WaitsWith(batch: Batch, isLive: bool): set<nat>
      requires batch.count >= 0
    {
      if isLive then {batch.count} else {}
    }

    /** Reading on between two turns leaves what they keep. */
    method ReadOn(batch: Batch, isLive: bool, begun: nat, ghost k0: nat, ghost k: nat, ghost pending: Log)
      returns (next: Next)
      requires Driving(batch, k0, k, pending) && begun <= |Stream()|
      modifies this`log, this`tick, this`hasEnded, this`clock, this`liveWaits
      ensures Driving(batch, k0, k, pending) && Survives() && Onward() && Progressed()
      ensures IsNext(next, isLive, begun, k)
      ensures next == Cut(Died) || old(tick) < |script|
      ensures next.Cut? ==> Caused(next.ended, old(tick))
      ensures next.ReadFails? ==> Caused(Failed(next.trouble), old(tick))
      ensures !isLive ==> tick <= old(tick) + 1
      ensures liveWaits == old(liveWaits) + WaitsWith(batch, isLive)
    {
      hide Held, Durable, Continues, Filter, Caused;
      liveWaits := liveWaits + WaitsWith(batch, isLive);
      next := ReadNext(batch.at, isLive, begun, k, pending);
      HeldIsDurable(kind, Stream(), target, writer, account, k, pending);
    }

    /** Reading has failed. If the context has ended meanwhile, that is what counts. */
    method GiveUp(trouble: Trouble, batch: Batch, ghost from: nat, ghost k0: nat, ghost k: nat, ghost pending: Log)
      returns (ended: Ended, ghost now: nat)
      requires Driving(batch, k0, k, pending) && from <= tick && Caused(Failed(trouble), from)
      modifies this`log, this`tick, this`hasEnded, this`clock, this`writer
      ensures Survives() && Onward() && (ended.Died? || ended.Failed? || (ended.Stopped? && hasEnded))
      ensures !ended.Died? ==> Holds(now, [])
      ensures Caused(ended, from) && tick <= old(tick) + 1
    {
      hide Held, Durable, Continues, Filter;
      ended, now := Abort(trouble, batch.isOpen, from, k, pending);
      if ended.Failed? && hasEnded {
        ended := Stopped;
      }
    }

    /** An event that goes through leads on to the next turn. */
    method GoOn(event: Stored, before: Batch, ghost k0: nat, ghost k: nat, ghost pending: Log)
      returns (batch: Batch, over: Option<Ended>, ghost now: nat, ghost nowPending: Log)
      requires Driving(before, k0, k, pending) && k < |Stream()| && event == Stream()[k]
      modifies this`log, this`tick, this`hasEnded, this`clock, this`writer, this`target, this`account, this`revision
      ensures Survives() && Onward() && tick <= old(tick) + 3
      ensures match over
        case None => now == k + 1 && Driving(batch, k0, now, nowPending) && batch.size == before.size
        case Some(ended) => Caused(ended, old(tick)) && (IsCut(ended) || (ended.Failed? && Holds(now, [])))
    {
      hide Held, Durable, Continues, Filter, Caused;
      var ended;
      batch, ended, now, nowPending := DriveEvent(event, before, k0, k, pending);
      over := if ended.Went? then None else Some(ended);
    }

    /** The failure will not pass, unless one of the rollback is joined to it. */
    ghost predicate RefusesForGood(ended: Ended) {
      ended.Failed? && (ended.trouble == PERMANENT || exists other :: ended.trouble == Join(PERMANENT, other))
    }

    /** One event that was handed out: it is verified and applied, and a batch that
        is full then is committed. */
    method DriveEvent(event: Stored, before: Batch, ghost k0: nat, ghost k: nat, ghost pending: Log)
      returns (batch: Batch, ended: Ended, ghost now: nat, ghost nowPending: Log)
      requires Driving(before, k0, k, pending) && k < |Stream()| && event == Stream()[k]
      modifies this`log, this`tick, this`hasEnded, this`clock, this`writer, this`target, this`account, this`revision
      ensures Survives() && Onward() && batch.size == before.size
      ensures ended.Went? ==> now == k + 1 && Driving(batch, k0, now, nowPending)
      ensures ended.Went? ==> batch.count == if before.count + 1 == before.size then 0 else before.count + 1
      ensures ended.Failed? ==> Holds(now, [])
      ensures !isVerified(event) ==> target == old(target) && (ended.Died? || RefusesForGood(ended))
      ensures Caused(ended, old(tick)) && tick <= old(tick) + 3
      ensures !ended.Stopped?
    {
      hide Held, Durable, Continues, Filter;
      batch, nowPending := before, pending;
      if !isVerified(event) {
        ended, now := Abort(PERMANENT, batch.isOpen, tick, k, pending);
        return;
      }
      ended, now, nowPending := TakeIn(event, batch.isOpen, k, pending);
      if !ended.Went? {
        return;
      }
      batch := Batch(Some(event.id), Some(event.id), batch.size, batch.count + 1, true);
      if batch.count == batch.size {
        ended, now := Save(batch.last, now, nowPending);
        batch, nowPending := batch.(count := 0, isOpen := false), [];
      }
    }

    /** A full or last batch is committed, and the run learns how far it has come. */
    method Save(last: Option<nat>, ghost k: nat, ghost pending: Log) returns (ended: Ended, ghost now: nat)
      requires Holds(k, pending) && 0 < k && last == LastId(Stream()[..k])
      requires kind.Transactional? ==> writer.tx == Some(pending)
      requires kind.Resumable? ==> account.origin < k
      modifies this`log, this`tick, this`hasEnded, this`clock, this`writer, this`target, this`account, this`revision
      ensures Survives() && Onward()
      ensures !IsCut(ended) ==> Holds(now, []) && account.origin == old(account).origin
      ensures ended.Went? ==> now == k && revision == last && (!kind.Rebuild? ==> target.saved == last)
      ensures Caused(ended, old(tick)) && tick <= old(tick) + 1
      ensures !ended.Stopped?
    {
      hide Held, Durable, Continues, Filter;
      ended, now := Commit(last, k, pending);
      if ended.Went? {
        revision := last;
      }
    }

    /** One event: it begins a batch if none is open, and if it can not be applied,
        the batch is rolled back. */
    method TakeIn(event: Stored, isOpen: bool, ghost k: nat, ghost pending: Log)
      returns (ended: Ended, ghost now: nat, ghost nowPending: Log)
      requires Holds(k, pending) && k < |Stream()| && event == Stream()[k] && isVerified(event)
      requires if isOpen then kind.Transactional? ==> writer.tx == Some(pending) else pending == []
      modifies this`log, this`tick, this`hasEnded, this`clock, this`writer, this`target
      ensures Survives() && Onward()
      ensures ended.Went? ==>
        now == k + 1 && Holds(now, nowPending) && (kind.Transactional? ==> writer.tx == Some(nowPending))
      ensures ended.Failed? ==> Holds(now, [])
      ensures Caused(ended, old(tick)) && tick <= old(tick) + if ended.Went? then 2 else 3
      ensures !ended.Stopped?
    {
      hide Held, Durable, Continues, Filter;
      now, nowPending := k, pending;
      if !isOpen {
        ended := Begin(k);
        HeldIsDurable(kind, Stream(), target, writer, account, k, pending);
        if !ended.Went? {
          return;
        }
      }
      ended, nowPending := Apply(event, k, pending);
      if ended.Failed? {
        ended, now := Abort(ended.trouble, true, old(tick), k, pending);
      } else {
        now := k + 1;
      }
    }

    /** A failure, after which an open batch is rolled back. A rollback that fails is
        reported alongside. */
    method Abort(trouble: Trouble, isOpen: bool, ghost from: nat, ghost k: nat, ghost pending: Log)
      returns (ended: Ended, ghost now: nat)
      requires Holds(k, pending) && (!isOpen ==> pending == []) && from <= tick && Caused(Failed(trouble), from)
      modifies this`log, this`tick, this`hasEnded, this`clock, this`writer
      ensures Survives() && Holds(now, []) && Onward()
      ensures ended.Died? || ended.Failed?
      ensures ended.Failed? && !(isOpen && kind.Transactional?) ==> ended.trouble == trouble
      ensures ended.Failed? && ended.trouble != trouble ==> exists other :: ended.trouble == Join(trouble, other)
      ensures Caused(ended, from) && tick <= old(tick) + 1
    {
      hide Held, Durable, Continues, Filter;
      HeldIsDurable(kind, Stream(), target, writer, account, k, pending);
      if !isOpen {
        return Failed(trouble), k;
      }
      var undone;
      undone, now := Rollback(k, pending);
      match undone
      case Died => ended := Died;
      case Failed(other) => ended := Failed(Join(trouble, other));
      case _ => ended := Failed(trouble);
    }

    // ----- catchUp, follow and run -----

    /** The checkpoint is asked for, and not answered. */
    predicate IsRefused(at: nat)
      reads this`writer
    {
      Asks() && at < |script| && !EndedBy(script[at].reply).Went?
    }

    /** catchUp: if it goes through, everything that was stored when it began has
        been applied. It takes at most four calls for every event, and six more, and
        goes through if none of them fails. */
    method CatchUp(ghost k0: nat) returns (last: Option<nat>, ended: Ended, ghost k: nat)
      requires Holds(k0, [])
      modifies this`log, this`tick, this`hasEnded, this`clock, this`writer, this`target, this`account, this`revision,
        this`liveWaits, this`catchUps
      ensures Survives() && Onward()
      ensures !IsCut(ended) ==> Holds(k, [])
      ensures Progressed()
      ensures ended.Went? ==> last == LastId(Stream()[..k]) && Includes(target.applied, old(Stream()), |old(Stream())|)
      ensures ended.Stopped? ==> hasEnded
      ensures liveWaits <= old(liveWaits) && catchUps == old(catchUps) + (if ended.Went? then 1 else 0)
      ensures Caused(ended, old(tick)) && tick <= old(tick) + 4 * (|Stream()| - k0) + 6
      ensures IsCalmSince(old(tick)) && !HasUnverified() && !hasEnded && tick < |script| ==> ended.Went?
      ensures old(IsRefused(tick)) ==> ended == EndedBy(script[old(tick)].reply) && IsUntouched(k0, k, 1)
    {
      hide Caused, Held, Durable, Continues, Filter, Holds, IsCalmSince, HasUnverified, Includes, LastId;
      hide IsVerifiedFrom, MayGoUnanswered, EndedBy;
      k := k0;
      var checkpoint;
      checkpoint, ended := AskCheckpoint(k0);
      WhatIsHeld(k0);
      CalmGoesThrough(ended, old(tick));
      if !ended.Went? {
        return None, ended, k;
      }
      ghost var since, stream := tick, Stream();
      last, ended, k := CatchUpFrom(checkpoint, k0);
      CausedEarlier(ended, since, old(tick));
      CalmGoesThrough(ended, old(tick));
      if ended.Went? {
        catchUps := catchUps + 1;
        IncludesMore(target.applied, target.applied, old(Stream()), stream);
      }
    }

    lemma {:induction false} CalmGoesThrough(ended: Ended, from: nat)
      requires Caused(ended, from)
      ensures IsCalmSince(from) && !HasUnverified() && tick < |script| ==> ended.Went? || ended.Stopped?
    {
    }

    /** The read from the checkpoint on. */
    method CatchUpFrom(checkpoint: Option<nat>, ghost k0: nat) returns (last: Option<nat>, ended: Ended, ghost k: nat)
      requires Holds(k0, []) && checkpoint == LastId(Stream()[..k0])
      modifies this`log, this`tick, this`hasEnded, this`clock, this`writer, this`target, this`account, this`revision,
        this`liveWaits
      ensures Survives() && Onward() && Progressed()
      ensures !IsCut(ended) ==> Holds(k, [])
      ensures ended.Went? ==> last == LastId(Stream()[..k]) && Includes(target.applied, old(Stream()), |old(Stream())|)
      ensures ended.Stopped? ==> hasEnded
      ensures liveWaits <= old(liveWaits)
      ensures Caused(ended, old(tick)) && tick <= old(tick) + 4 * (|Stream()| - k0) + 5
    {
      hide Caused, Held, Durable, Continues, Filter, Holds, Includes;
      WhatIsHeld(k0);
      last, ended, k := Drive(checkpoint, false, BatchSize(), k0);
      if ended.Went? {
        assert Stream()[..k0] == old(Stream())[..k0];
        HoldsAllOf(k, old(Stream()));
        if last.None? {
          last := checkpoint;
        }
      }
    }

    lemma {:induction false} HoldsAllOf(k: nat, earlier: Log)
      requires Holds(k, []) && earlier <= Stream() && |earlier| <= k
      ensures Includes(target.applied, earlier, |earlier|) && k <= |Stream()|
    {
      hide Held, Filter, Includes;
      HeldIncludes(kind, Stream(), target, writer, account, k);
      IncludesEarlier(target.applied, earlier, Stream(), k);
    }

    /** So many calls have come to nothing. */
    twostate predicate IsUntouched(k0: nat, k: nat, calls: nat)
      reads this`tick, this`target
    {
      k == k0 && tick == old(tick) + calls && target == old(target)
    }

    /** follow catches up and then follows the stream live, event by event. It is live
        from when it has caught up, and otherwise not at all. */
    method Follow(ghost k0: nat) returns (liveFor: int, ended: Ended, ghost caughtUpAt: Option<nat>, ghost k: nat)
      requires Holds(k0, [])
      modifies this`log, this`tick, this`hasEnded, this`clock, this`writer, this`target, this`account, this`revision,
        this`liveWaits, this`catchUps, this`hasCaughtUp, this`followed
      ensures Survives() && Onward() && Progressed()
      ensures !IsCut(ended) ==> Holds(k, [])
      ensures !ended.Went? && (ended.Stopped? ==> hasEnded) && Caused(ended, old(tick))
      ensures followed == ended && liveWaits <= old(liveWaits) + {0}
      ensures hasCaughtUp <==> old(hasCaughtUp) || caughtUpAt.Some?
      ensures caughtUpAt.Some? <==> catchUps > old(catchUps)
      ensures liveFor == if caughtUpAt.None? then 0 else clock - caughtUpAt.value
      ensures caughtUpAt.Some? ==>
        old(clock) <= caughtUpAt.value <= clock && Includes(target.applied, old(Stream()), |old(Stream())|)
      ensures old(IsRefused(tick)) ==>
        ended == EndedBy(script[old(tick)].reply) && caughtUpAt.None? && IsUntouched(k0, k, 1)
    {
      hide Caused, Held, Durable, Continues, Filter, Holds, Includes, LastId, EndedBy;
      var last;
      caughtUpAt := None;
      last, ended, k := CatchUp(k0);
      followed := ended;
      if !ended.Went? {
        return 0, ended, caughtUpAt, k;
      }
      var since := clock;
      hasCaughtUp, caughtUpAt := true, Some(since);
      ghost var begun, stream, applied := tick, Stream(), target.applied;
      last, ended, k := Drive(last, true, 1, k);
      CausedEarlier(ended, begun, old(tick));
      followed := ended;
      IncludesMore(applied, target.applied, old(Stream()), stream);
      liveFor := clock - since;
    }

    ghost predicate RightDelays(from: nat)
      reads this`reconnects, this`sessions
    {
      RightReconnects(reconnects, sessions, from, initialDelay, maxDelay)
    }

    /** From some call on, the checkpoint is answered neither before a session nor when it
        begins to catch up, but after it, and nothing else happens. */
    predicate IsUnanswered(at: nat)
      reads this`hasEnded
    {
      && kind.Transactional? && !hasEnded && at + 4 <= |script|
      && script[at].reply == Fails(TRANSIENT) && script[at + 1].reply == Fails(TRANSIENT)
      && script[at + 2].reply.Fine? && script[at + 3].reply.Fine?
      && forall i | at <= i < at + 4 :: !script[i].stops
    }

    lemma {:induction false} WhatIsHeld(k: nat)
      requires Holds(k, [])
      ensures Held(kind, Stream(), target, writer, account, k, []) && Survives() && k <= |Stream()| && Ascending(log)
    {
      hide Held, Durable, Continues, Filter;
      HeldIsDurable(kind, Stream(), target, writer, account, k, []);
    }

    /** One turn of run: a session, with the checkpoint before and after it. It is
        over only if the context has ended, or if trying again will not help. Otherwise,
        it has applied the events from the k0-th to the k-th. */
    method HoldSession(ghost k0: nat)
      returns (
        over: Option<Ended>, before: Option<nat>, after: Option<nat>, liveFor: int, ghost session: Session,
        ghost k: nat)
      requires Holds(k0, [])
      modifies this`log, this`tick, this`hasEnded, this`clock, this`writer, this`target, this`account, this`revision,
        this`liveWaits, this`catchUps, this`hasCaughtUp, this`followed
      ensures Survives() && Onward() && Progressed()
      ensures over.Some? ==> EndsRun(over.value) && Caused(over.value, old(tick))
      ensures old(hasCaughtUp) ==> hasCaughtUp
      ensures hasCaughtUp && !old(hasCaughtUp) ==> Includes(target.applied, old(Stream()), |old(Stream())|)
      ensures over.Some? && over.value.Failed? ==> followed == over.value
      ensures liveWaits <= old(liveWaits) + {0}
      ensures over.None? ==>
        && MayPassLater(followed) && Holds(k, []) && k0 <= k && target.applied == old(target.applied) + Stream()[k0..k]
        && session.began == k0 && session.ended == k && IsSession(session, kind, account.origin)
        && IsAnswered(session, Stream(), before, after) && liveFor == LiveFor(session)
        && (session.isKnownBefore <==> old(Asks()) ==> old(tick) < |script| && EndedBy(script[old(tick)].reply).Went?)
        && (session.isKnownAfter <==> Asks() ==> tick > 0 && EndedBy(script[tick - 1].reply).Went?)
        && TookPlace(session, old(hasCaughtUp), old(clock), old(Stream()))
      ensures old(IsUnanswered(tick)) ==>
        && over.None? && IsUntouched(k0, k, 3)
        && !session.isKnownBefore && session.isKnownAfter && session.caughtUpAt.None?
    {
      hide Caused, Held, Durable, Continues, Filter, TookPlace, LastId, MayGoUnanswered, Includes, Ascending, Holds;
      hide LooksAdvanced, LiveFor;
      WhatIsHeld(k0);
      k, after, liveFor, session := k0, None, 0, Session(k0, k0, false, false, None, clock);
      ghost var earlier, target0, writer0, account0 := Stream(), target, writer, account;
      var ended;
      before, ended := AskCheckpoint(k);
      WhatIsHeld(k);
      ghost var isKnownBefore := ended.Went?;
      over := if IsCut(ended) then Some(ended) else None;
      if over.None? {
        ghost var since, begunAt, stream := tick, clock, Stream();
        over, after, liveFor, session, k := FollowAndAsk(k, isKnownBefore);
        IncludesMore(target.applied, target.applied, earlier, stream);
        if over.Some? {
          CausedEarlier(over.value, since, old(tick));
        } else {
          TookPlaceSince(session, old(hasCaughtUp), begunAt, stream, old(clock), earlier);
          WhatIsHeld(k);
          HeldStretch(kind, earlier, target0, writer0, account0, k0, Stream(), target, writer, account, k);
          assert Stream()[..k0] == stream[..k0];
        }
      }
    }

    /** The session was live only once it had caught up with the given stream, and on the
        clock. */
    ghost predicate TookPlace(session: Session, hadCaughtUp: bool, since: nat, stream: Log)
      reads this`clock, this`hasCaughtUp, this`target
    {
      && since <= session.brokeOffAt <= clock
      && (session.caughtUpAt.Some? ==>
            since <= session.caughtUpAt.value <= session.brokeOffAt && hasCaughtUp && HasCaughtUpWith(stream))
      && (session.caughtUpAt.None? ==> hasCaughtUp == hadCaughtUp)
    }

    ghost predicate HasCaughtUpWith(stream: Log)
      reads this`target
    {
      Includes(target.applied, stream, |stream|)
    }

    lemma {:induction false} TookPlaceSince(
        session: Session, hadCaughtUp: bool, since: nat, stream: Log, earlier: nat, before: Log)
      requires TookPlace(session, hadCaughtUp, since, stream) && earlier <= since && before <= stream
      ensures TookPlace(session, hadCaughtUp, earlier, before)
    {
      assert forall i | 0 <= i < |before| :: before[i] == stream[i];
    }

    /** Only a failure that may pass is a reason to follow again. */
    predicate MayPassLater(ended: Ended) { ended.Failed? && ended.trouble.isTransient && !ended.trouble.hasPanicked }

    /** If the context has ended, that is what counts, unless by a panic. */
    method FollowAndAsk(ghost k0: nat, ghost isKnownBefore: bool)
      returns (over: Option<Ended>, after: Option<nat>, liveFor: int, ghost session: Session, ghost k: nat)
      requires Holds(k0, [])
      modifies this`log, this`tick, this`hasEnded, this`clock, this`writer, this`target, this`account, this`revision,
        this`liveWaits, this`catchUps, this`hasCaughtUp, this`followed
      ensures Survives() && Onward() && Progressed()
      ensures over.Some? ==> EndsRun(over.value) && Caused(over.value, old(tick))
      ensures old(hasCaughtUp) ==> hasCaughtUp
      ensures hasCaughtUp && !old(hasCaughtUp) ==> Includes(target.applied, old(Stream()), |old(Stream())|)
      ensures IsCut(followed) ==> over == Some(followed)
      ensures over.None? ==> MayPassLater(followed)
      ensures over.Some? && over.value.Failed? ==> followed == over.value
      ensures liveWaits <= old(liveWaits) + {0}
      ensures session.began == k0 && session.isKnownBefore == isKnownBefore
      ensures over.None? ==>
        && Holds(k, []) && session.ended == k && liveFor == LiveFor(session) >= 0
        && after == (if session.isKnownAfter then LastId(Stream()[..k]) else None)
        && (session.isKnownAfter || MayGoUnanswered(kind, account.origin, k))
        && (session.isKnownAfter <==> Asks() ==> tick > 0 && EndedBy(script[tick - 1].reply).Went?)
        && TookPlace(session, old(hasCaughtUp), old(clock), old(Stream()))
      ensures old(IsRefused(tick)) && script[old(tick)].reply.Panics? ==> over == Some(Panicked)
      ensures old(tick) > 0 && old(IsUnanswered(tick - 1)) ==>
        over.None? && IsUntouched(k0, k, 2) && session.isKnownAfter && session.caughtUpAt.None?
    {
      hide Caused, Held, Durable, Continues, Filter, Holds, Includes, LastId, MayGoUnanswered;
      var ended;
      ghost var caughtUpAt;
      liveFor, ended, caughtUpAt, k := Follow(k0);
      StoppedIsCaused(old(tick));
      after, session := None, Session(k0, k, isKnownBefore, false, caughtUpAt, clock);
      over :=
        if IsCut(ended) then Some(ended)
        else if hasEnded then Some(Stopped)
        else if EndsRun(ended) then Some(ended)
        else None;
      if over.None? {
        ghost var since := tick;
        over, after, session := AskAfter(session, k);
        if over.Some? {
          CausedEarlier(over.value, since, old(tick));
        }
      }
    }

    /** The checkpoint after a session, which may go unanswered. */
    method AskAfter(ghost followed: Session, ghost k: nat)
      returns (over: Option<Ended>, after: Option<nat>, ghost session: Session)
      requires Holds(k, [])
      modifies this`log, this`tick, this`hasEnded, this`clock
      ensures Holds(k, []) && Survives() && Onward() && session == followed.(isKnownAfter := session.isKnownAfter)
      ensures over.Some? ==> IsCut(over.value) && Caused(over.value, old(tick))
      ensures over.None? ==>
        && after == (if session.isKnownAfter then LastId(Stream()[..k]) else None)
        && (session.isKnownAfter || MayGoUnanswered(kind, account.origin, k))
        && (session.isKnownAfter <==> Asks() ==> tick > 0 && EndedBy(script[tick - 1].reply).Went?)
      ensures kind.Transactional? && old(tick) < |script| && script[old(tick)].reply.Fine? ==>
        over.None? && session.isKnownAfter && tick == old(tick) + 1
    {
      hide Caused, Held, Durable, Continues, Filter, Holds, MayGoUnanswered;
      var ended;
      after, ended := AskCheckpoint(k);
      session := followed.(isKnownAfter := ended.Went?);
      WhatIsHeld(k);
      over := if IsCut(ended) then Some(ended) else None;
    }

    /** What ends a run. A panic ends it also if the context has ended, unless it has been
        turned into an error on the way. */
    predicate EndsRun(ended: Ended)
      reads this`hasEnded
    {
      match ended
      case Died => true
      case Panicked => true
      case Stopped => hasEnded
      case Failed(trouble) => !hasEnded && (trouble.hasPanicked || !trouble.isTransient)
      case Went => false
    }

    /** The number of the latest attempt in a row. */
    function LastAttempt(from: nat): nat
      reads this`reconnects
    {
      if |reconnects| <= from then 0 else reconnects[|reconnects| - 1].attempt
    }

    /** What the next delay and the next attempt are counted from. */
    ghost predicate Counts(from: nat, delay: int, attempt: nat)
      reads this`reconnects, this`sessions
    {
      RightDelays(from) && delay == DelayOf(attempt + 1, initialDelay, maxDelay) && attempt == LastAttempt(from)
    }

    /** The observer learns that the run is about to wait, and how long. The count starts
        over exactly if the session looks healthy. */
    method Notice(
        ghost from: nat, oldDelay: int, oldAttempt: nat, before: Option<nat>, after: Option<nat>, liveFor: int,
        ghost session: Session)
      returns (delay: int, attempt: nat)
      requires Counts(from, oldDelay, oldAttempt)
      requires Ascending(log) && IsAnswered(session, Stream(), before, after) && liveFor == LiveFor(session)
      modifies this`reconnects, this`sessions
      ensures RightDelays(from) && attempt >= 1 && attempt == LastAttempt(from)
      ensures delay == DelayOf(attempt, initialDelay, maxDelay)
      ensures reconnects == old(reconnects) + [Reconnect(delay, attempt)] && sessions == old(sessions) + [session]
      ensures attempt == if LooksHealthy(session, initialDelay) then 1 else oldAttempt + 1
    {
      delay, attempt := oldDelay, oldAttempt;
      FilterAscends(covers, log);
      AnswersDiffer(session, Stream(), before, after);
      if after != before || liveFor > initialDelay {
        delay, attempt := initialDelay, 0;
      }
      attempt := attempt + 1;
      var reconnect := Reconnect(delay, attempt);
      RightAppend(reconnects, reconnect, sessions, session, from, initialDelay, maxDelay);
      reconnects, sessions := reconnects + [reconnect], sessions + [session];
    }

    /** One turn of the loop of run: a session, and, unless that ends the run, the
        wait before the next one. */
    method Turn(ghost from: nat, ghost first: nat, oldDelay: int, oldAttempt: nat, ghost k0: nat)
      returns (over: Option<Ended>, delay: int, attempt: nat, ghost k: nat)
      requires Holds(k0, []) && Counts(from, oldDelay, oldAttempt)
      requires FollowOn(sessions, from, kind, account.origin, first, k0)
      modifies this`log, this`tick, this`hasEnded, this`clock, this`writer, this`target, this`account, this`revision,
        this`liveWaits, this`catchUps, this`hasCaughtUp, this`followed, this`reconnects, this`sessions
      ensures Survives() && Onward() && Progressed() && old(reconnects) <= reconnects
      ensures RightDelays(from) && FollowOn(sessions, from, kind, account.origin, first, k)
      ensures over.Some? ==> EndsRun(over.value) && Caused(over.value, old(tick))
      ensures over.Some? && over.value.Failed? ==> followed == over.value
      ensures liveWaits <= old(liveWaits) + {0} && (over.None? ==> MayPassLater(followed))
      ensures k0 <= k <= |Stream()| && old(target.applied) + Stream()[k0..k] <= target.applied
      ensures over.None? ==>
        && old(tick) < |script| && Holds(k, []) && Counts(from, delay, attempt)
        && target.applied == old(target.applied) + Stream()[k0..k]
      ensures old(hasCaughtUp) ==> hasCaughtUp
      ensures hasCaughtUp && !old(hasCaughtUp) ==> Includes(target.applied, old(Stream()), |old(Stream())|)
      ensures old(IsUnanswered(tick)) && k0 > 0 ==>
        over.None? && IsUntouched(k0, k, 4) && !hasEnded && reconnects == old(reconnects) + [Reconnect(initialDelay, 1)]
    {
      hide Caused, Held, Durable, Continues, Filter, TookPlace, LastId, MayGoUnanswered, Includes, Ascending, Holds;
      hide Asks, EndedBy, FollowOn, RightDelays, IsAnswered, IsSession;
      WhatIsHeld(k0);
      delay, attempt, k := oldDelay, oldAttempt, k0;
      var before, after, liveFor;
      ghost var session, reached;
      over, before, after, liveFor, session, reached := HoldSession(k0);
      if over.Some? {
        assert old(target.applied) + Stream()[k0..k0] == old(target.applied);
        return;
      }
      k := reached;
      WhatIsHeld(k);
      ghost var since, stream := tick, Stream();
      FollowOnFurther(sessions, session, from, kind, account.origin, first, k0);
      over, delay, attempt := Reconnecting(from, oldDelay, oldAttempt, before, after, liveFor, session, k);
      assert Stream()[k0..k] == stream[k0..k];
      if over.Some? {
        CausedEarlier(over.value, since, old(tick));
      }
    }

    /** Between two sessions: the observer learns of it, and the run waits. */
    method Reconnecting(
        ghost from: nat, oldDelay: int, oldAttempt: nat, before: Option<nat>, after: Option<nat>, liveFor: int,
        ghost session: Session, ghost k: nat)
      returns (over: Option<Ended>, delay: int, attempt: nat)
      requires Holds(k, []) && Counts(from, oldDelay, oldAttempt)
      requires IsAnswered(session, Stream(), before, after) && liveFor == LiveFor(session)
      modifies this`log, this`tick, this`hasEnded, this`clock, this`reconnects, this`sessions
      ensures Survives() && Onward() && RightDelays(from)
      ensures sessions == old(sessions) + [session] && (over.Some? ==> !over.value.Failed?)
      ensures attempt == (if LooksHealthy(session, initialDelay) then 1 else oldAttempt + 1)
      ensures reconnects == old(reconnects) + [Reconnect(DelayOf(attempt, initialDelay, maxDelay), attempt)]
      ensures if over.Some? then EndsRun(over.value) && Caused(over.value, old(tick))
        else Holds(k, []) && old(tick) < |script| && Counts(from, delay, attempt)
      ensures tick == old(tick) + if old(tick) < |script| then 1 else 0
      ensures old(tick) < |script| && script[old(tick)].reply.Fine? && !hasEnded ==> over.None?
    {
      hide Caused, Holds, Filter, Includes, RightReconnects, IsAnswered, Ascending;
      WhatIsHeld(k);
      delay, attempt := Notice(from, oldDelay, oldAttempt, before, after, liveFor, session);
      over := Pause(k);
      delay := NextDelay(delay, maxDelay);
    }

    method Pause(ghost k: nat) returns (over: Option<Ended>)
      requires Holds(k, [])
      modifies this`log, this`tick, this`hasEnded, this`clock
      ensures Survives() && Onward()
      ensures if over.Some? then EndsRun(over.value) && Caused(over.value, old(tick))
        else Holds(k, []) && old(tick) < |script|
      ensures over.Some? ==> !over.value.Failed?
      ensures tick == old(tick) + if old(tick) < |script| then 1 else 0
      ensures old(tick) < |script| && script[old(tick)].reply.Fine? && !hasEnded ==> over.None?
    {
      hide Held, Durable, Continues, Filter;
      var timer := Await(k, []);
      HeldIsDurable(kind, Stream(), target, writer, account, k, []);
      over := if timer.Crashes? then Some(Died) else if hasEnded then Some(Stopped) else None;
    }

    lemma {:induction false} RunBegins(from: nat, k: nat)
      requires from == |reconnects| == |sessions|
      ensures Counts(from, initialDelay, 0) && FollowOn(sessions, from, kind, account.origin, k, k)
    {
    }

    /** run, from where a start has left it. It ends only with its context, or with
        a failure that trying again will not fix. Wherever it ends, also by a
        crash, a resumable projection has applied a stretch of the stream right
        from where the run took over (see Survives), which its sessions have applied one
        after the other. */
    method Run(ghost k0: nat) returns (ended: Ended, ghost k: nat)
      requires Holds(k0, []) && !hasCaughtUp && |reconnects| == |sessions|
      modifies this`log, this`tick, this`hasEnded, this`clock, this`writer, this`target, this`account, this`revision,
        this`liveWaits, this`catchUps, this`hasCaughtUp, this`followed, this`reconnects, this`sessions
      ensures Survives() && Onward() && Progressed() && EndsRun(ended) && Caused(ended, old(tick))
      ensures hasCaughtUp ==> Includes(target.applied, old(Stream()), |old(Stream())|)
      ensures RightDelays(|old(reconnects)|) && old(reconnects) <= reconnects
      ensures FollowOn(sessions, |old(reconnects)|, kind, account.origin, k0, k)
      ensures ended.Failed? ==> followed == ended
      ensures liveWaits <= old(liveWaits) + {0}
      ensures k0 <= k <= |Stream()| && old(target.applied) + Stream()[k0..k] <= target.applied
    {
      hide Caused, Held, Durable, Continues, Filter, Holds, Includes, FollowOn, Counts;
      var over: Option<Ended>, delay, attempt := None, initialDelay, 0;
      ghost var from, turns := |reconnects|, 0;
      k := k0;
      WhatIsHeld(k);
      RunBegins(from, k);
      while over.None?
        invariant Survives() && Onward() && RightDelays(from) && old(reconnects) <= reconnects
        invariant hasCaughtUp ==> Includes(target.applied, old(Stream()), |old(Stream())|)
        invariant over.Some? ==> EndsRun(over.value) && Caused(over.value, old(tick)) && turns > 0
        invariant over.None? ==> Holds(k, []) && Counts(from, delay, attempt)
        invariant turns > 0 ==> Progressed()
        invariant liveWaits <= old(liveWaits) + {0}
        invariant over.Some? && over.value.Failed? ==> followed == over.value
        invariant FollowOn(sessions, from, kind, account.origin, k0, k) && k0 <= k <= |Stream()|
        invariant if over.Some? then old(target.applied) + Stream()[k0..k] <= target.applied
          else target.applied == old(target.applied) + Stream()[k0..k]
        decreases |script| - tick, over.None?
      {
        ghost var stream, applied, since, earlier := Stream(), target.applied, tick, k;
        over, delay, attempt, k := Turn(from, k0, delay, attempt, k);
        IncludesMore(applied, target.applied, old(Stream()), stream);
        StretchesMeet(old(target.applied), stream, Stream(), k0, earlier, k, applied);
        if over.Some? {
          CausedEarlier(over.value, since, old(tick));
        }
        turns := turns + 1;
      }
      return over.value, k;
    }

    /** However often the checkpoint is answered neither before a session nor when it begins
        to catch up, but after it: the count starts over every time, and every wait is the
        initial delay, although nothing is applied and nothing is live. */
    method StartOverAnew(turns: nat, ghost k0: nat)
      requires Holds(k0, []) && k0 > 0 && |reconnects| == |sessions| && kind.Transactional? && !hasEnded
      requires forall i | 0 <= i < turns :: IsUnanswered(tick + 4 * i)
      modifies this`log, this`tick, this`hasEnded, this`clock, this`writer, this`target, this`account, this`revision,
        this`liveWaits, this`catchUps, this`hasCaughtUp, this`followed, this`reconnects, this`sessions
      ensures reconnects == old(reconnects) + seq(turns, _ => Reconnect(initialDelay, 1)) && target == old(target)
    {
      hide Held, Durable, Continues, Filter;
      var over: Option<Ended>, delay, attempt := None, initialDelay, 0;
      ghost var from, k := |reconnects|, k0;
      for i := 0 to turns
        invariant Holds(k0, []) && !hasEnded && target == old(target) && tick == old(tick) + 4 * i && k == k0
        invariant reconnects == old(reconnects) + seq(i, _ => Reconnect(initialDelay, 1))
        invariant Counts(from, delay, attempt) && FollowOn(sessions, from, kind, account.origin, k0, k0)
      {
        over, delay, attempt, k := Turn(from, k0, delay, attempt, k);
      }
    }

    /** The life of a projection: any number of runs, each a new process or a new
        start, one after the other. At every moment of every one of them, the
        target is one that survives a crash: since a moment may be a crash, what
        holds at the end of every run holds wherever it is cut short. */
    method Live()
      requires Survives() && |reconnects| == |sessions|
      modifies this
      ensures Survives() && old(log) <= log && tick == |script|
      ensures old(IsVerifiedFrom(0)) ==> IsVerifiedFrom(0)
      ensures !kind.Rebuild? ==> old(target.applied) <= target.applied && IsVerifiedFrom(|old(target.applied)|)
      ensures kind.Transactional? ==> target.applied <= Stream() && target.saved == LastId(target.applied)
    {
      while tick < |script|
        invariant Survives() && old(log) <= log && |reconnects| == |sessions|
        invariant old(IsVerifiedFrom(0)) ==> IsVerifiedFrom(0)
        invariant !kind.Rebuild? ==> old(target.applied) <= target.applied && IsVerifiedFrom(|old(target.applied)|)
        decreases |script| - tick
      {
        ghost var k := Start();
        var _, _ := Run(k);
      }
    }

    /** A start: what was kept in memory is gone. */
    method Start() returns (ghost k: nat)
      requires Survives()
      modifies this`target, this`writer, this`account, this`hasEnded, this`hasCaughtUp, this`revision
      ensures Holds(k, []) && !hasCaughtUp && (!kind.Rebuild? ==> target == old(target))
      ensures kind.Rebuild? ==> target.applied == []
    {
      ghost var taken;
      taken, k := HeldRestart(kind, Stream(), target);
      account := taken;
      target, writer := Restarted(kind, target), Writer(None, None);
      hasEnded, hasCaughtUp, revision := false, false, None;
    }
  }

  lemma {:induction false} StretchesMeet(
      before: Log, stream: Log, more: Log, i: nat, j: nat, k: nat, applied: Log)
    requires i <= j <= k <= |more| && j <= |stream| && stream <= more && applied == before + stream[i..j]
    ensures applied + more[j..k] == before + more[i..k]
  {
    assert more[i..j] == stream[i..j] && more[i..k] == more[i..j] + more[j..k];
  }

  lemma {:induction false} IncludesMore(applied: Log, more: Log, earlier: Log, stream: Log)
    requires applied <= more && earlier <= stream
    ensures Includes(applied, earlier, |earlier|) ==> Includes(more, earlier, |earlier|)
    ensures Includes(more, stream, |stream|) ==> Includes(more, earlier, |earlier|)
  {
    assert forall e | e in applied :: e in more;
    assert forall i | 0 <= i < |earlier| :: earlier[i] == stream[i];
  }
}
