/** The status of a projection that runs in the background, and waiting until
    several of them have caught up (architecturekit/projection_run.go). */
module ProjectionRuns {
  import opened Basics

  datatype Phase = CatchingUp | Live | Reconnecting | Stopped

  /** err is missing for a status without an error. */
  datatype Status = Status(phase: Phase, since: nat, err: Option<string>, attempts: nat, revision: Option<nat>,
      hasCaughtUp: bool)

  function CaughtUpNow(s: Status, now: nat): Status {
    s.(phase := Live, since := now, err := None, attempts := 0, hasCaughtUp := true)
  }

  /** A disruption goes on until the run has caught up again. */
  function Disrupted(s: Status, err: Option<string>, now: nat): Status {
    var begun := if s.phase.Reconnecting? then s else s.(phase := Reconnecting, since := now, attempts := 0);
    begun.(err := err, attempts := begun.attempts + 1)
  }

  function CommittedUpTo(s: Status, id: nat): Status { s.(revision := Some(id)) }

  function StoppedWith(s: Status, err: Option<string>, now: nat): Status {
    s.(phase := Stopped, since := now, err := err, attempts := 0)
  }

  /** A run as the others see it. */
  datatype Run = Run(status: Status, caughtUp: bool, done: bool)

  /** What a run may become by one of its reports. Once stopped, it reports no more. */
  predicate Reports(before: Status, after: Status) {
    && !before.phase.Stopped?
    && (|| after == CaughtUpNow(before, after.since)
        || after == Disrupted(before, after.err, after.since)
        || after == StoppedWith(before, after.err, after.since)
        || (after.revision.Some? && after == CommittedUpTo(before, after.revision.value)))
  }

  /** One report of a run: it stores the status, and closes a channel only if the
      status says so. */
  predicate Moves(before: Run, after: Run) {
    && Reports(before.status, after.status)
    && (before.caughtUp ==> after.caughtUp) && (after.caughtUp ==> before.caughtUp || after.status.hasCaughtUp)
    && (before.done ==> after.done) && (after.done ==> before.done || after.status.phase.Stopped?)
  }

  /** The run as its goroutine updates it: the status under the lock, and only
      then the channel. */
  class ProjectionRun {
    var status: Status
    var caughtUp: bool
    var done: bool
    var err: Option<string>

    /** A closed channel says no more than the status does. */
    ghost predicate Valid()
      reads this
    {
      && (caughtUp ==> status.hasCaughtUp) && (done ==> status.phase.Stopped? && err == status.err)
      && (status.phase.Live? ==> status.hasCaughtUp) && (status.attempts > 0 ==> status.phase.Reconnecting?)
      && (status.phase.Stopped? ==> done)
    }

    ghost function Shown(): Run
      reads this
    {
      Run(status, caughtUp, done)
    }

    constructor (now: nat)
      ensures Valid() && status == Status(CatchingUp, now, None, 0, None, false) && !caughtUp && !done
    {
      status, caughtUp, done, err := Status(CatchingUp, now, None, 0, None, false), false, false, None;
    }

    method ReportCaughtUp(now: nat)
      requires Valid() && !done
      modifies this
      ensures Valid() && status == CaughtUpNow(old(status), now) && caughtUp && !done
      ensures status.phase.Live? && status.since == now && status.err.None? && status.attempts == 0
      ensures status.hasCaughtUp && status.revision == old(status).revision
      ensures Moves(old(Shown()), Shown())
    {
      status := status.(phase := Live, since := now, err := None, attempts := 0, hasCaughtUp := true);
      caughtUp := true;
    }

    /** Every disruption is one attempt more, and it began when the first of them in a
        row did. */
    method ReportDisrupted(failure: Option<string>, now: nat)
      requires Valid() && !done
      modifies this
      ensures Valid() && status == Disrupted(old(status), failure, now) && caughtUp == old(caughtUp) && !done
      ensures status.phase.Reconnecting? && status.err == failure && status.attempts == old(status).attempts + 1
      ensures status.since == if old(status).phase.Reconnecting? then old(status).since else now
      ensures status.hasCaughtUp == old(status).hasCaughtUp && status.revision == old(status).revision
      ensures Moves(old(Shown()), Shown())
    {
      if !status.phase.Reconnecting? {
        status := status.(phase := Reconnecting, since := now, attempts := 0);
      }
      status := status.(err := failure, attempts := status.attempts + 1);
    }

    method ReportCommitted(id: nat)
      requires Valid() && !done
      modifies this
      ensures Valid() && status == CommittedUpTo(old(status), id) && caughtUp == old(caughtUp) && !done
      ensures status.revision == Some(id) && status.(revision := None) == old(status).(revision := None)
      ensures Moves(old(Shown()), Shown())
    {
      status := status.(revision := Some(id));
    }

    method Stop(failure: Option<string>, now: nat)
      requires Valid() && !done
      modifies this
      ensures Valid() && status == StoppedWith(old(status), failure, now) && done && err == failure
      ensures status.phase.Stopped? && status.since == now && status.err == failure
      ensures status.hasCaughtUp == old(status).hasCaughtUp && status.revision == old(status).revision
      ensures caughtUp == old(caughtUp) && Moves(old(Shown()), Shown())
    {
      status := status.(phase := Stopped, since := now, err := failure, attempts := 0);
      err := failure;
      done := true;
    }
  }

  // ----- WaitCaughtUp -----

  datatype Verdict = EveryoneCaughtUp | RunFailed(run: nat) | ContextEnded | StoppedBefore(run: nat)

  /** Where WaitCaughtUp stands: in the loop of caughtUpVerdict, which reads one
      status after the other, in the select, or done. */
  datatype Waiting =
    | Looking(next: nat, everyCaughtUp: bool, stopped: Option<nat>)
    | Selecting
    | Decided(verdict: Verdict)

  /** hasSent tells of every run whether the goroutine that waits for it has sent
      its signal. settled signals are in the channel, consumed ones were taken. */
  datatype System = System(runs: seq<Run>, hasSent: seq<bool>, settled: nat, consumed: nat, hasEnded: bool,
      main: Waiting)

  datatype Step =
    | Report(run: nat, status: Status)
    | CloseCaughtUp(run: nat)
    | CloseDone(run: nat)
    | Signal(run: nat)
    | EndContext
    | LookAtOne
    | Conclude
    | TakeSignal
    | NoticeEnd

  predicate Enabled(s: System, step: Step) {
    match step
    case Report(r, status) => r < |s.runs| && Reports(s.runs[r].status, status)
    case CloseCaughtUp(r) => r < |s.runs| && s.runs[r].status.hasCaughtUp
    case CloseDone(r) => r < |s.runs| && s.runs[r].status.phase.Stopped?
    case Signal(r) => r < |s.runs| && r < |s.hasSent| && !s.hasSent[r] && (s.runs[r].caughtUp || s.runs[r].done)
    case EndContext => true
    case LookAtOne => s.main.Looking? && s.main.next < |s.runs|
    case Conclude => s.main.Looking? && s.main.next == |s.runs|
    case TakeSignal => s.main.Selecting? && s.settled > 0
    case NoticeEnd => s.main.Selecting? && s.hasEnded
  }

  const BEGIN_LOOKING := Looking(0, true, None)

  function Perform(s: System, step: Step): System
    requires Enabled(s, step)
  {
    match step
    case Report(r, status) => s.(runs := s.runs[r := s.runs[r].(status := status)])
    case CloseCaughtUp(r) => s.(runs := s.runs[r := s.runs[r].(caughtUp := true)])
    case CloseDone(r) => s.(runs := s.runs[r := s.runs[r].(done := true)])
    case Signal(r) => s.(hasSent := s.hasSent[r := true], settled := s.settled + 1)
    case EndContext => s.(hasEnded := true)
    case LookAtOne =>
      var i, status := s.main.next, s.runs[s.main.next].status;
      if status.hasCaughtUp then s.(main := s.main.(next := i + 1))
      else if !status.phase.Stopped? then s.(main := s.main.(next := i + 1, everyCaughtUp := false))
      else if status.err.Some? then s.(main := Decided(RunFailed(i)))
      else s.(main := Looking(i + 1, false, if s.main.stopped.None? then Some(i) else s.main.stopped))
    case Conclude =>
      s.(main :=
        if s.main.everyCaughtUp then Decided(EveryoneCaughtUp)
        else if s.hasEnded then Decided(ContextEnded)
        else if s.main.stopped.Some? then Decided(StoppedBefore(s.main.stopped.value))
        else Selecting)
    case TakeSignal => s.(settled := s.settled - 1, consumed := s.consumed + 1, main := BEGIN_LOOKING)
    case NoticeEnd => s.(main := BEGIN_LOOKING)
  }

  function PerformAll(s: System, steps: seq<Step>): Option<System>
    decreases |steps|
  {
    if steps == [] then Some(s)
    else if Enabled(s, steps[0]) then PerformAll(Perform(s, steps[0]), steps[1..])
    else None
  }

  /** What a run does by one of its reports is a sequence of steps of the system. */
  lemma {:induction false} MovesAreSteps(s: System, r: nat, after: Run) returns (steps: seq<Step>)
    requires r < |s.runs| && Moves(s.runs[r], after)
    ensures PerformAll(s, steps) == Some(s.(runs := s.runs[r := after]))
  {
    hide Reports;
    var before := s.runs[r];
    var closing := if after.caughtUp && !before.caughtUp then [CloseCaughtUp(r)] else [];
    var ending := if after.done && !before.done then [CloseDone(r)] else [];
    var reported := Perform(s, Report(r, after.status));
    var closed := reported.(runs := reported.runs[r := reported.runs[r].(caughtUp := after.caughtUp)]);
    assert closed == if closing == [] then reported else Perform(reported, closing[0]);
    var ended := s.(runs := s.runs[r := after]);
    assert ended == if ending == [] then closed else Perform(closed, ending[0]);
    steps := [Report(r, after.status)] + (closing + ending);
    assert ending != [] ==> ending[1..] == [];
    assert PerformAll(closed, ending) == Some(ended);
    if closing != [] {
      assert (closing + ending)[1..] == ending;
      assert Enabled(reported, closing[0]);
    } else {
      assert closing + ending == ending;
    }
    assert PerformAll(reported, closing + ending) == Some(ended);
    assert steps[1..] == closing + ending;
  }

  ghost predicate Init(s: System) {
    && |s.hasSent| == |s.runs| && s.settled == 0 && s.consumed == 0 && s.main == BEGIN_LOOKING
    && (forall r | 0 <= r < |s.runs| :: !s.hasSent[r]
          && (s.runs[r].caughtUp ==> s.runs[r].status.hasCaughtUp) &&
            (s.runs[r].done ==> s.runs[r].status.phase.Stopped?))
  }

  ghost predicate Next(s: System, t: System) { exists step :: Enabled(s, step) && t == Perform(s, step) }

  ghost predicate Execution(e: seq<System>) {
    e != [] && Init(e[0]) && forall i | 0 <= i < |e| - 1 :: Next(e[i], e[i + 1])
  }

  // ----- What holds in every execution -----

  function CountSent(hasSent: seq<bool>): nat {
    if hasSent == [] then 0 else CountSent(hasSent[..|hasSent| - 1]) + if hasSent[|hasSent| - 1] then 1 else 0
  }

  predicate IsSettled(run: Run) { run.status.hasCaughtUp || run.status.phase.Stopped? }

  ghost predicate RunInv(run: Run, hasSent: bool) {
    && (run.caughtUp ==> run.status.hasCaughtUp) && (run.done ==> run.status.phase.Stopped?)
    && (hasSent ==> IsSettled(run))
  }

  ghost predicate StoppedEarly(s: System, r: nat) {
    r < |s.runs| && s.runs[r].status.phase.Stopped? && !s.runs[r].status.hasCaughtUp
  }

  ghost predicate MainInv(s: System) {
    match s.main
    case Looking(next, everyCaughtUp, stopped) =>
      && next <= |s.runs|
      && (everyCaughtUp ==> forall r | 0 <= r < next :: s.runs[r].status.hasCaughtUp)
      && (stopped.Some? ==> StoppedEarly(s, stopped.value))
      && (!everyCaughtUp && stopped.None? ==> s.consumed < |s.runs|)
    case Selecting => s.consumed < |s.runs|
    case Decided(EveryoneCaughtUp) => forall r | 0 <= r < |s.runs| :: s.runs[r].status.hasCaughtUp
    case Decided(RunFailed(r)) => StoppedEarly(s, r) && s.runs[r].status.err.Some?
    case Decided(StoppedBefore(r)) => StoppedEarly(s, r)
    case Decided(ContextEnded) => s.hasEnded
  }

  ghost predicate Inv(s: System) {
    && |s.hasSent| == |s.runs| && s.settled + s.consumed == CountSent(s.hasSent)
    && (forall r | 0 <= r < |s.runs| :: RunInv(s.runs[r], s.hasSent[r]))
    && MainInv(s)
  }

  lemma {:induction false} CountBounded(hasSent: seq<bool>)
    ensures CountSent(hasSent) <= |hasSent|
    ensures CountSent(hasSent) == |hasSent| ==> forall r | 0 <= r < |hasSent| :: hasSent[r]
    ensures (forall r | 0 <= r < |hasSent| :: hasSent[r]) ==> CountSent(hasSent) == |hasSent|
  {
    if hasSent != [] {
      CountBounded(hasSent[..|hasSent| - 1]);
    }
  }

  lemma {:induction false} CountOneMore(hasSent: seq<bool>, r: nat)
    requires r < |hasSent| && !hasSent[r]
    ensures CountSent(hasSent[r := true]) == CountSent(hasSent) + 1
  {
    var n := |hasSent| - 1;
    if r < n {
      CountOneMore(hasSent[..n], r);
      assert hasSent[r := true][..n] == hasSent[..n][r := true];
    } else {
      assert hasSent[r := true][..n] == hasSent[..n];
    }
  }

  /** Neither catching up nor stopping is ever taken back. */
  lemma {:induction false} ReportsOnlyForward(before: Status, after: Status)
    requires Reports(before, after)
    ensures before.hasCaughtUp ==> after.hasCaughtUp
    ensures !before.phase.Stopped?
  {
  }

  /** What is known of the others is never taken back by what one run does. */
  lemma {:induction false} RunMovesOn(s: System, t: System, r: nat)
    requires Inv(s) && r < |s.runs| == |t.runs| && t.runs == s.runs[r := t.runs[r]]
    requires t.hasSent == s.hasSent && t.settled == s.settled && t.consumed == s.consumed
    requires t.main == s.main && t.hasEnded == s.hasEnded && RunInv(t.runs[r], t.hasSent[r])
    requires t.runs[r].status == s.runs[r].status || Reports(s.runs[r].status, t.runs[r].status)
    ensures Inv(t)
  {
    hide CountSent;
    if t.runs[r].status != s.runs[r].status {
      ReportsOnlyForward(s.runs[r].status, t.runs[r].status);
    }
    hide Reports;
    forall q | 0 <= q < |t.runs| ensures RunInv(t.runs[q], t.hasSent[q]) {
      assert RunInv(s.runs[q], s.hasSent[q]);
    }
  }

  lemma {:induction false} ReportKeeps(s: System, r: nat, status: Status)
    requires Inv(s) && Enabled(s, Report(r, status))
    ensures Inv(Perform(s, Report(r, status)))
  {
    hide CountSent, MainInv;
    ReportsOnlyForward(s.runs[r].status, status);
    assert RunInv(s.runs[r], s.hasSent[r]);
    RunMovesOn(s, Perform(s, Report(r, status)), r);
  }

  lemma {:induction false} CloseKeeps(s: System, step: Step)
    requires Inv(s) && Enabled(s, step) && (step.CloseCaughtUp? || step.CloseDone?)
    ensures Inv(Perform(s, step))
  {
    hide CountSent, MainInv, Reports;
    assert RunInv(s.runs[step.run], s.hasSent[step.run]);
    RunMovesOn(s, Perform(s, step), step.run);
  }

  lemma {:induction false} SignalKeeps(s: System, r: nat)
    requires Inv(s) && Enabled(s, Signal(r))
    ensures Inv(Perform(s, Signal(r)))
  {
    CountOneMore(s.hasSent, r);
    hide CountSent, Reports;
    var t := Perform(s, Signal(r));
    forall q | 0 <= q < |t.runs| ensures RunInv(t.runs[q], t.hasSent[q]) {
      assert RunInv(s.runs[q], s.hasSent[q]);
    }
  }

  lemma {:induction false} LookKeeps(s: System)
    requires Inv(s) && Enabled(s, LookAtOne)
    ensures Inv(Perform(s, LookAtOne))
  {
    CountBounded(s.hasSent);
    hide CountSent, Reports;
    assert RunInv(s.runs[s.main.next], s.hasSent[s.main.next]);
  }

  lemma {:induction false} StepKeeps(s: System, step: Step)
    requires Inv(s) && Enabled(s, step)
    ensures Inv(Perform(s, step))
  {
    match step
    case Report(r, status) => ReportKeeps(s, r, status);
    case Signal(r) => SignalKeeps(s, r);
    case LookAtOne => LookKeeps(s);
    case CloseCaughtUp(r) => CloseKeeps(s, step);
    case CloseDone(r) => CloseKeeps(s, step);
    case _ =>
      hide CountSent, Reports;
  }

  lemma {:induction false} ExecutionKeeps(e: seq<System>, i: nat)
    requires Execution(e) && i < |e|
    ensures Inv(e[i])
  {
    if i == 0 {
      NoneSent(e[0].hasSent);
    } else {
      ExecutionKeeps(e, i - 1);
      assert Next(e[i - 1], e[i]);
      var step :| Enabled(e[i - 1], step) && e[i] == Perform(e[i - 1], step);
      StepKeeps(e[i - 1], step);
    }
  }

  lemma {:induction false} NoneSent(hasSent: seq<bool>)
    requires forall r | 0 <= r < |hasSent| :: !hasSent[r]
    ensures CountSent(hasSent) == 0
  {
    if hasSent != [] {
      NoneSent(hasSent[..|hasSent| - 1]);
    }
  }

  /** WaitCaughtUp returns nil only if every run has caught up, although it reads
      one status after the other. What else it returns is true as well. */
  lemma {:induction false} VerdictIsTrue(e: seq<System>, i: nat)
    requires Execution(e) && i < |e| && e[i].main.Decided?
    ensures var s := e[i];
      match s.main.verdict
      case EveryoneCaughtUp => forall r | 0 <= r < |s.runs| :: s.runs[r].status.hasCaughtUp
      case RunFailed(r) => StoppedEarly(s, r) && s.runs[r].status.err.Some?
      case StoppedBefore(r) => StoppedEarly(s, r)
      case ContextEnded => s.hasEnded
  {
    ExecutionKeeps(e, i);
  }

  /** It waits again only while it has taken fewer signals than there are runs, so
      it decides after at most as many, and it is never stuck: if every run has
      settled, a signal is there, or one of the goroutines can send one. */
  lemma {:induction false} NeverStuck(e: seq<System>, i: nat)
    requires Execution(e) && i < |e| && e[i].main.Selecting?
    ensures e[i].consumed < |e[i].runs|
    ensures (forall r | 0 <= r < |e[i].runs| :: e[i].runs[r].caughtUp || e[i].runs[r].done) ==>
      Enabled(e[i], TakeSignal) || exists r: nat :: Enabled(e[i], Signal(r))
  {
    ExecutionKeeps(e, i);
    var s := e[i];
    CountBounded(s.hasSent);
    if (forall r | 0 <= r < |s.runs| :: s.runs[r].caughtUp || s.runs[r].done) && s.settled == 0 {
      assert !(forall r | 0 <= r < |s.hasSent| :: s.hasSent[r]);
      var r :| 0 <= r < |s.hasSent| && !s.hasSent[r];
      assert Enabled(s, Signal(r));
    }
  }
}
