/** A view that tells how far its projection has come, and readers who wait for a
    revision (architecturekit/in_memory_view.go, architecturekit/revision.go). */
module ReadYourWrites {
  import opened Basics
  import opened EventLog
  import opened Revisions
  import W = ProjectionWriters
  import D = ProjectionDriver

  /** What a view knows: its revision, the channel that is closed once it moves,
      and the channels that were. */
  datatype Progress = Progress(revision: string, changed: nat, closed: set<nat>)

  /** Seen never moves the revision backwards. If it moves, everyone who waits is
      woken by closing the channel, and the next one gets another channel. */
  function SeenBy(p: Progress, eventId: string): Progress {
    var newer := CompareRevisions(eventId, p.revision);
    if newer.None? || newer.value <= 0 then p else Progress(eventId, p.changed + 1, p.closed + {p.changed})
  }

  class RevisionedView {
    var revision: string
    var changed: nat
    var closed: set<nat>

    /** The revision can be compared, and every channel but the current one is closed. */
    ghost predicate Valid()
      reads this
    {
      IsRevisionOrEmpty(revision) && forall c :: c in closed <==> 0 <= c < changed
    }

    ghost function Known(): Progress
      reads this
    {
      Progress(revision, changed, closed)
    }

    constructor ()
      ensures Valid() && Known() == Progress("", 0, {})
    {
      revision, changed, closed := "", 0, {};
    }

    /** The revision reaches the event, and never moves back. Whoever waits is woken
        exactly if it moves, and then the next one waits for another channel. */
    method Seen(eventId: string)
      requires Valid()
      modifies this
      ensures Valid() && Known() == SeenBy(old(Known()), eventId)
      ensures Reaches(revision, old(revision)) && (IsRevisionOrEmpty(eventId) ==> Reaches(revision, eventId))
      ensures revision == old(revision) || revision == eventId
      ensures changed != old(changed) <==> revision != old(revision)
      ensures old(changed) in closed <==> revision != old(revision)
      ensures changed !in closed && old(closed) <= closed
    {
      var newer := CompareRevisions(eventId, revision);
      if newer.None? || newer.value <= 0 {
        return;
      }
      revision := eventId;
      closed := closed + {changed};
      changed := changed + 1;
    }
  }

  /** trackedProjection.Apply records the event in every view once it has been
      applied, and in none if applying it failed. */
  method TrackedApply(sinks: seq<RevisionedView>, eventId: string, hasFailed: bool)
    requires forall sink | sink in sinks :: sink.Valid()
    modifies sinks
    ensures forall sink | sink in sinks :: sink.Valid()
    ensures forall sink | sink in sinks ::
      sink.Known() == if hasFailed then old(sink.Known()) else SeenBy(old(sink.Known()), eventId)
  {
    if hasFailed {
      return;
    }
    for i := 0 to |sinks|
      invariant forall sink | sink in sinks :: sink.Valid()
      invariant forall sink | sink in sinks ::
        sink.Known() == old(sink.Known()) || sink.Known() == SeenBy(old(sink.Known()), eventId)
      invariant forall j | 0 <= j < i :: sinks[j].Known() == SeenBy(old(sinks[j].Known()), eventId)
    {
      SeenOnce(old(sinks[i].Known()), eventId);
      assert sinks[i] in sinks;
      sinks[i].Seen(eventId);
    }
  }

  /** Seeing an event again changes nothing, also if a view is given twice. */
  lemma {:induction false} SeenOnce(p: Progress, eventId: string)
    ensures SeenBy(SeenBy(p, eventId), eventId) == SeenBy(p, eventId)
  {
  }

  // ----- Everything at once -----

  datatype WaitError = NotARevision | ContextEnded

  /** Where a WaitFor stands. */
  datatype Phase = Looking | Waiting(current: string, channel: nat) | Returned(error: Option<WaitError>)

  datatype Waiter = Waiter(wanted: string, phase: Phase)

  /** A tracked projection that is rebuilt, its view, and the readers of the view.
      applied are the events of its subjects that it has applied, and isSeen tells
      whether the last one of them has been recorded. */
  datatype System = System(log: Log, applied: Log, isSeen: bool, view: Progress, waiters: seq<Waiter>)

  datatype Step =
    | Write(more: Log)
    | Apply
    | Record
    | Arrive(wanted: string)
    | Look(who: nat)
    | Wake(who: nat)
    | End(who: nat)

  /** The loop of WaitFor, up to the select. */
  function LookAt(view: Progress, w: Waiter): Waiter {
    match CompareRevisions(view.revision, w.wanted)
    case None => w.(phase := Returned(Some(NotARevision)))
    case Some(reached) => w.(phase := if reached >= 0 then Returned(None) else Waiting(view.revision, view.changed))
  }

  ghost predicate Enabled(covers: Stored -> bool, s: System, step: Step) {
    match step
    case Write(more) => Ascending(s.log + more) && forall i | 0 <= i < |more| :: more[i].id < REVISION_LIMIT
    case Apply => s.isSeen && |s.applied| < |Filter(covers, s.log)|
    case Record => !s.isSeen && s.applied != []
    case Arrive(_) => true
    case Look(who) => who < |s.waiters| && s.waiters[who].phase.Looking?
    case Wake(who) => who < |s.waiters| && s.waiters[who].phase.Waiting? &&
      s.waiters[who].phase.channel in s.view.closed
    case End(who) => who < |s.waiters| && s.waiters[who].phase.Waiting?
  }

  ghost function Perform(covers: Stored -> bool, s: System, step: Step): System
    requires Enabled(covers, s, step)
  {
    match step
    case Write(more) => s.(log := s.log + more)
    case Apply => s.(applied := s.applied + [Filter(covers, s.log)[|s.applied|]], isSeen := false)
    case Record => s.(view := SeenBy(s.view, Decimal(s.applied[|s.applied| - 1].id)), isSeen := true)
    case Arrive(wanted) => s.(waiters := s.waiters + [Waiter(wanted, Looking)])
    case Look(who) => s.(waiters := s.waiters[who := LookAt(s.view, s.waiters[who])])
    case Wake(who) => s.(waiters := s.waiters[who := s.waiters[who].(phase := Looking)])
    case End(who) => s.(waiters := s.waiters[who := s.waiters[who].(phase := Returned(Some(ContextEnded)))])
  }

  ghost predicate Init(s: System) { s == System([], [], true, Progress("", 0, {}), []) }

  ghost predicate Next(covers: Stored -> bool, s: System, t: System) {
    exists step :: Enabled(covers, s, step) && t == Perform(covers, s, step)
  }

  ghost predicate Run(covers: Stored -> bool, run: seq<System>) {
    run != [] && Init(run[0]) && forall i | 0 <= i < |run| - 1 :: Next(covers, run[i], run[i + 1])
  }

  // ----- What holds in every run -----

  /** The events that the view may have seen. */
  function Recorded(s: System): Log {
    if s.isSeen || s.applied == [] then s.applied else s.applied[..|s.applied| - 1]
  }

  function RevisionAfter(events: Log): string {
    if events == [] then "" else Decimal(events[|events| - 1].id)
  }

  ghost predicate WaiterInv(view: Progress, w: Waiter) {
    match w.phase
    case Looking => true
    case Waiting(current, channel) =>
      && channel <= view.changed
      && (channel !in view.closed ==>
          channel == view.changed && current == view.revision && !Reaches(view.revision, w.wanted))
    case Returned(error) => error.None? ==> Reaches(view.revision, w.wanted)
  }

  ghost predicate Inv(covers: Stored -> bool, s: System) {
    && Ascending(s.log) && (forall i | 0 <= i < |s.log| :: s.log[i].id < REVISION_LIMIT)
    && s.applied <= Filter(covers, s.log)
    && (s.applied == [] ==> s.isSeen)
    && s.view.revision == RevisionAfter(Recorded(s))
    && (forall c :: c in s.view.closed <==> 0 <= c < s.view.changed)
    && forall i | 0 <= i < |s.waiters| :: WaiterInv(s.view, s.waiters[i])
  }

  lemma {:induction false} FilterBounded(covers: Stored -> bool, log: Log, limit: nat)
    requires forall i | 0 <= i < |log| :: log[i].id < limit
    ensures forall i | 0 <= i < |Filter(covers, log)| :: Filter(covers, log)[i].id < limit
  {
    forall i | 0 <= i < |Filter(covers, log)| ensures Filter(covers, log)[i].id < limit {
      assert Filter(covers, log)[i] in log;
    }
  }

  /** Recording the next event moves the revision to it. */
  lemma {:induction false} RecordMoves(before: Log, event: Stored)
    requires Ascending(before + [event]) && event.id < REVISION_LIMIT
    requires forall i | 0 <= i < |before| :: before[i].id < REVISION_LIMIT
    ensures CompareRevisions(Decimal(event.id), RevisionAfter(before)) == Some(1)
  {
    if before == [] {
      ComparesAsNumbers(event.id, event.id);
    } else {
      var last := before[|before| - 1];
      assert (before + [event])[|before| - 1] == last && (before + [event])[|before|] == event;
      ComparesAsNumbers(event.id, last.id);
      ComparesAsNumbers(last.id, event.id);
    }
  }

  /** A reader is woken if the view moves, and what it has reached stays reached. */
  lemma {:induction false} WaiterMovesOn(view: Progress, moved: Progress, w: Waiter)
    requires WaiterInv(view, w) && forall c :: c in view.closed <==> 0 <= c < view.changed
    requires moved.changed == view.changed + 1 && moved.closed == view.closed + {view.changed}
    requires Reaches(moved.revision, view.revision)
    ensures WaiterInv(moved, w)
  {
    hide Reaches;
    if w.phase.Returned? && w.phase.error.None? {
      ReachesTransitive(moved.revision, view.revision, w.wanted);
    }
  }

  lemma {:induction false} RecordKeeps(covers: Stored -> bool, s: System)
    requires Inv(covers, s) && Enabled(covers, s, Record)
    ensures Inv(covers, Perform(covers, s, Record))
  {
    hide CompareRevisions, ParseRevision, Decimal, Filter;
    var stream, n := Filter(covers, s.log), |s.applied| - 1;
    var event := s.applied[n];
    FilterAscends(covers, s.log);
    FilterBounded(covers, s.log, REVISION_LIMIT);
    assert s.applied == s.applied[..n] + [event];
    assert forall i | 0 <= i <= n :: s.applied[i] == stream[i];
    RecordMoves(s.applied[..n], event);
    ComparesAsNumbers(event.id, event.id);
    var t := Perform(covers, s, Record);
    assert t.view == Progress(Decimal(event.id), s.view.changed + 1, s.view.closed + {s.view.changed});
    hide Ascending, RevisionAfter;
    assert Reaches(t.view.revision, s.view.revision);
    forall i | 0 <= i < |t.waiters| ensures WaiterInv(t.view, t.waiters[i]) {
      WaiterMovesOn(s.view, t.view, s.waiters[i]);
    }
  }

  lemma {:induction false} StepKeeps(covers: Stored -> bool, s: System, step: Step)
    requires Inv(covers, s) && Enabled(covers, s, step)
    ensures Inv(covers, Perform(covers, s, step))
  {
    hide CompareRevisions, Decimal, Filter;
    match step
    case Write(more) =>
      FilterAppend(covers, s.log, more);
      hide RevisionAfter, WaiterInv;
    case Record =>
      RecordKeeps(covers, s);
      hide Inv, Enabled, Perform;
    case Apply =>
      var stream := Filter(covers, s.log);
      assert s.applied + [stream[|s.applied|]] == stream[..|s.applied| + 1];
      hide Ascending, RevisionAfter, WaiterInv;
    case _ =>
      hide Ascending, RevisionAfter;
  }

  lemma {:induction false} RunKeeps(covers: Stored -> bool, run: seq<System>, i: nat)
    requires Run(covers, run) && i < |run|
    ensures Inv(covers, run[i])
  {
    if i > 0 {
      RunKeeps(covers, run, i - 1);
      assert Next(covers, run[i - 1], run[i]);
      var step :| Enabled(covers, run[i - 1], step) && run[i] == Perform(covers, run[i - 1], step);
      StepKeeps(covers, run[i - 1], step);
    }
  }

  /** Read your own writes: once a WaitFor has returned nil, every event of the
      projection's subjects up to the revision has been applied, whenever it was
      written. */
  lemma {:induction false} WaitedForIsApplied(covers: Stored -> bool, run: seq<System>, i: nat, who: nat, event: Stored)
    requires Run(covers, run) && i < |run| && who < |run[i].waiters| && run[i].waiters[who].phase == Returned(None)
    requires event in Filter(covers, run[i].log) && Reaches(run[i].waiters[who].wanted, Decimal(event.id))
    ensures event in run[i].applied
  {
    hide CompareRevisions, ParseRevision, Decimal, Filter;
    RunKeeps(covers, run, i);
    var s := run[i];
    assert WaiterInv(s.view, s.waiters[who]);
    var stream := Filter(covers, s.log);
    FilterAscends(covers, s.log);
    FilterBounded(covers, s.log, REVISION_LIMIT);
    var k :| 0 <= k < |stream| && stream[k] == event;
    ComparesAsNumbers(event.id, event.id);
    ReachesTransitive(s.view.revision, s.waiters[who].wanted, Decimal(event.id));
    var recorded := Recorded(s);
    assert recorded <= stream;
    assert recorded != [];
    var last := recorded[|recorded| - 1];
    assert last == stream[|recorded| - 1];
    ComparesAsNumbers(last.id, event.id);
    assert last.id >= event.id;
    assert k <= |recorded| - 1;
    assert event == recorded[k];
  }

  /** No wakeup is lost: while a reader waits on a channel that is still open, the
      view has not moved since the reader looked, and has not reached what the
      reader waits for. */
  lemma {:induction false} NoWakeupIsLost(covers: Stored -> bool, run: seq<System>, i: nat, who: nat)
    requires Run(covers, run) && i < |run| && who < |run[i].waiters| && run[i].waiters[who].phase.Waiting?
    ensures var s, w := run[i], run[i].waiters[who];
      w.phase.channel !in s.view.closed ==> s.view.revision == w.phase.current && !Reaches(s.view.revision, w.wanted)
  {
    RunKeeps(covers, run, i);
    assert WaiterInv(run[i].view, run[i].waiters[who]);
  }

  /** WaitForWritten: once a WaitFor of the revision of what was written has returned nil,
      all of it that is about the projection's subjects has been applied. */
  lemma {:induction false} WrittenIsApplied(
      covers: Stored -> bool, run: seq<System>, i: nat, who: nat, written: Log, event: Stored)
    requires Run(covers, run) && i < |run| && who < |run[i].waiters| && run[i].waiters[who].phase == Returned(None)
    requires IsHighest(IdsOf(written), run[i].waiters[who].wanted)
    requires event in written && event in Filter(covers, run[i].log)
    ensures event in run[i].applied
  {
    hide Filter;
    RunKeeps(covers, run, i);
    var k :| 0 <= k < |written| && written[k] == event;
    assert IdsOf(written)[k] == Decimal(event.id);
    FilterBounded(covers, run[i].log, REVISION_LIMIT);
    ComparesAsNumbers(event.id, event.id);
    WaitedForIsApplied(covers, run, i, who, event);
  }

  function IdsOf(events: Log): seq<string> { seq(|events|, i requires 0 <= i < |events| => Decimal(events[i].id)) }

  // ----- The driver -----

  /** The step Apply is what the driver of a rebuilt projection does: as long as it holds
      the first events of its stream, handing over the next one is that step, and
      afterwards it holds one event more. */
  lemma {:induction false} DriverTakesTheStep(
      covers: Stored -> bool, s: System, target: W.Target, writer: W.Writer, account: W.Account, k: nat)
    requires s.isSeen && s.applied == target.applied && k < |Filter(covers, s.log)|
    requires W.Held(W.Rebuild, Filter(covers, s.log), target, writer, account, k, [])
    ensures Enabled(covers, s, Apply)
    ensures var event, next := Filter(covers, s.log)[k], Perform(covers, s, Apply);
      var after := W.Applied(target, event);
      && next.applied == after.applied && next.log == s.log
      && W.Held(
           W.Rebuild, Filter(covers, next.log), after, writer.(lastApplied := Some(event.id)), account, k + 1, [])
  {
    hide Filter;
    W.HeldApply(W.Rebuild, Filter(covers, s.log), target, writer, account, k);
  }

  ghost function PerformAll(covers: Stored -> bool, s: System, steps: seq<Step>): Option<System>
    decreases |steps|
  {
    if steps == [] then Some(s)
    else if Enabled(covers, s, steps[0]) then PerformAll(covers, Perform(covers, s, steps[0]), steps[1..])
    else None
  }

  /** Applying and recording, one event after the other, until the given ones are
      applied. */
  lemma {:induction false} AppliesAll(covers: Stored -> bool, s: System, applied: Log)
    returns (steps: seq<Step>, t: System)
    requires s.isSeen && s.applied <= applied <= Filter(covers, s.log)
    ensures PerformAll(covers, s, steps) == Some(t)
    ensures t.log == s.log && t.applied == applied && t.isSeen && t.waiters == s.waiters
    decreases |applied| - |s.applied|
  {
    hide Filter, SeenBy, Decimal;
    if s.applied == applied {
      return [], s;
    }
    var handed := Perform(covers, s, Apply);
    var recorded := Perform(covers, handed, Record);
    assert recorded.applied == applied[..|s.applied| + 1];
    var rest;
    rest, t := AppliesAll(covers, recorded, applied);
    steps := [Apply] + ([Record] + rest);
    assert ([Record] + rest)[1..] == rest && steps[1..] == [Record] + rest;
    assert PerformAll(covers, handed, [Record] + rest) == Some(t);
  }

  /** From any beginning of the stream, any longer one is reached by a sequence of these
      steps. The driver of a rebuilt projection holds a beginning of the stream at every
      moment, across failures, retries and what others write. */
  lemma {:induction false} DriverTakesSteps(covers: Stored -> bool, s: System, log: Log, target: W.Target)
    returns (steps: seq<Step>, t: System)
    requires s.isSeen && s.log <= log && Ascending(log) && forall i | 0 <= i < |log| :: log[i].id < REVISION_LIMIT
    requires s.applied <= target.applied && W.Durable(W.Rebuild, Filter(covers, log), target)
    ensures PerformAll(covers, s, steps) == Some(t)
    ensures t.log == log && t.applied == target.applied && t.isSeen && t.waiters == s.waiters
  {
    hide Filter;
    var more := log[|s.log|..];
    assert s.log + more == log;
    var written := Perform(covers, s, Write(more));
    var rest;
    rest, t := AppliesAll(covers, written, target.applied);
    steps := [Write(more)] + rest;
    assert steps[1..] == rest;
  }

  /** A whole run of the driver of a rebuilt projection, wherever it ends: by these steps,
      a system that was as far as the driver gets as far as the driver has come. */
  method RunTakesSteps(driver: D.Driver, ghost k0: nat, ghost s: System)
    returns (ended: D.Ended, ghost steps: seq<Step>, ghost t: System)
    requires driver.kind.Rebuild? && driver.Holds(k0, []) && !driver.hasCaughtUp
    requires |driver.reconnects| == |driver.sessions|
    requires s.isSeen && s.log == driver.log && s.applied == driver.target.applied
    modifies driver
    ensures s.log <= driver.log && s.applied <= driver.target.applied
    ensures (forall i | 0 <= i < |driver.log| :: driver.log[i].id < REVISION_LIMIT) ==>
      && PerformAll(driver.covers, s, steps) == Some(t)
      && t.log == driver.log && t.applied == driver.target.applied && t.isSeen && t.waiters == s.waiters
  {
    ghost var k;
    ended, k := driver.Run(k0);
    steps, t := [], s;
    if forall i | 0 <= i < |driver.log| :: driver.log[i].id < REVISION_LIMIT {
      steps, t := DriverTakesSteps(driver.covers, s, driver.log, driver.target);
    }
  }
}
