/** The conditions under which the events of a command are written
    (architecturekit/precondition.go). */
module Preconditions {
  import opened Basics
  import opened EventLog
  import opened Failures
  import opened Revisions

  /** What the database checks, at the moment it appends. */
  datatype DatabasePrecondition =
    | Pristine(subject: string)
    | Populated(subject: string)
    | OnEvent(subject: string, eventId: string)
    | Query(isTrue: Log -> bool)

  predicate Holds(log: Log, precondition: DatabasePrecondition) {
    match precondition
    case Pristine(subject) => Stream(log, subject) == []
    case Populated(subject) => Stream(log, subject) != []
    case OnEvent(subject, eventId) =>
      var last := LastId(Stream(log, subject));
      last.Some? && Decimal(last.value) == eventId
    case Query(isTrue) => isTrue(log)
  }

  /** What a command declares. Zero is the zero Precondition, and a required one
      may be nil. */
  datatype Precondition =
    | Require(database: Option<DatabasePrecondition>)
    | OnStateRead
    | Unconditionally
    | OnEventID(subject: string, eventId: string)
    | Zero

  predicate WellDeclared(declared: seq<Precondition>) {
    && declared != []
    && forall i | 0 <= i < |declared| ::
         && declared[i] != Require(None) && !declared[i].Zero?
         && (declared[i].Unconditionally? ==> |declared| == 1)
  }

  predicate NamesRevisions(declared: seq<Precondition>) {
    forall i | 0 <= i < |declared| :: declared[i].OnEventID? ==> ParseRevision(declared[i].eventId).Some?
  }

  function Check(declared: seq<Precondition>): Result<(), Failure> {
    if !WellDeclared(declared) then Err(Permanent)
    else if !NamesRevisions(declared) then Err(NotARevision)
    else Ok(())
  }

  predicate IsRevision(id: string) { ParseRevision(id).Some? }

  /** A mistake in a declaration comes first, whatever else is wrong: nothing declared,
      the zero precondition, one that is nil, or Unconditionally among others. */
  lemma {:induction false} CheckSays(declared: seq<Precondition>)
    ensures Check(declared) == Err(Permanent) <==>
      || declared == [] || Zero in declared || Require(None) in declared
      || (Unconditionally in declared && |declared| > 1)
    ensures Check(declared) == Err(Permanent) || Check(declared) == Err(NotARevision) || Check(declared).Ok?
    ensures Check(declared).Ok? ==>
      forall i | 0 <= i < |declared| && declared[i].OnEventID? :: IsRevision(declared[i].eventId)
    ensures Check(declared) == Err(NotARevision) ==>
      exists i | 0 <= i < |declared| :: declared[i].OnEventID? && !IsRevision(declared[i].eventId)
  {
    hide ParseRevision;
  }

  /** A mistake in the code is never hidden behind one of the caller: every
      declaration is looked at before the first ID is. */
  method CheckPreconditions(declared: seq<Precondition>) returns (r: Result<(), Failure>)
    ensures r == Check(declared)
    ensures r == Err(Permanent) <==>
      || declared == [] || Zero in declared || Require(None) in declared
      || (Unconditionally in declared && |declared| > 1)
    ensures r == Err(Permanent) || r == Err(NotARevision) || r.Ok?
    ensures r.Ok? ==> forall i | 0 <= i < |declared| && declared[i].OnEventID? :: IsRevision(declared[i].eventId)
    ensures r == Err(NotARevision) ==>
      exists i | 0 <= i < |declared| :: declared[i].OnEventID? && !IsRevision(declared[i].eventId)
  {
    CheckSays(declared);
    if |declared| == 0 {
      return Err(Permanent);
    }
    for i := 0 to |declared|
      invariant forall j | 0 <= j < i ::
        && declared[j] != Require(None) && !declared[j].Zero?
        && (declared[j].Unconditionally? ==> |declared| == 1)
    {
      match declared[i] {
        case Require(database) =>
          if database.None? { return Err(Permanent); }
        case OnStateRead =>
        case Unconditionally =>
          if |declared| > 1 { return Err(Permanent); }
        case OnEventID(_, _) =>
        case Zero => return Err(Permanent);
      }
    }
    for i := 0 to |declared|
      invariant NamesRevisions(declared[..i])
    {
      assert declared[..i + 1] == declared[..i] + [declared[i]];
      if declared[i].OnEventID? && ParseRevision(declared[i].eventId).None? {
        return Err(NotARevision);
      }
    }
    assert declared[..|declared|] == declared;
    return Ok(());
  }

  /** What one declared precondition turns into, given the last event read. */
  function ResolveOne(subject: string, precondition: Precondition, last: Option<nat>): seq<DatabasePrecondition> {
    match precondition
    case Require(database) => if database.Some? then [database.value] else []
    case OnEventID(onSubject, eventId) => [OnEvent(onSubject, eventId)]
    case OnStateRead => [if last.None? then Pristine(subject) else OnEvent(subject, Decimal(last.value))]
    case Unconditionally => []
    case Zero => []
  }

  function Resolve(subject: string, declared: seq<Precondition>, last: Option<nat>): seq<DatabasePrecondition> {
    if declared == [] then []
    else Resolve(subject, declared[..|declared| - 1], last) + ResolveOne(subject, declared[|declared| - 1], last)
  }

  method ResolvePreconditions(subject: string, declared: seq<Precondition>, last: Option<nat>)
    returns (resolved: seq<DatabasePrecondition>)
    requires WellDeclared(declared)
    ensures resolved == Resolve(subject, declared, last)
    ensures AsksAsDeclared(resolved, subject, declared, last)
  {
    resolved := [];
    for i := 0 to |declared|
      invariant resolved == Resolve(subject, declared[..i], last)
    {
      match declared[i] {
        case Require(database) => resolved := resolved + [database.value];
        case OnEventID(onSubject, eventId) => resolved := resolved + [OnEvent(onSubject, eventId)];
        case OnStateRead =>
          if last.None? {
            resolved := resolved + [Pristine(subject)];
          } else {
            resolved := resolved + [OnEvent(subject, Decimal(last.value))];
          }
        case Unconditionally =>
        case Zero => assert false;
      }
      assert declared[..i + 1][..i] == declared[..i];
    }
    assert declared[..|declared|] == declared;
    ResolvedAsksAsDeclared(subject, declared, last);
  }

  /** What a declared precondition asks of the log, given the last event read. */
  predicate DeclaredHolds(log: Log, subject: string, precondition: Precondition, last: Option<nat>) {
    match precondition
    case Require(database) => database.Some? ==> Holds(log, database.value)
    case OnEventID(onSubject, eventId) =>
      var latest := LastId(Stream(log, onSubject));
      latest.Some? && Decimal(latest.value) == eventId
    case OnStateRead => LastId(Stream(log, subject)) == last
    case Unconditionally => true
    case Zero => true
  }

  predicate AllDeclaredHold(log: Log, subject: string, declared: seq<Precondition>, last: Option<nat>) {
    forall i | 0 <= i < |declared| :: DeclaredHolds(log, subject, declared[i], last)
  }

  predicate AllHoldOf(log: Log, preconditions: seq<DatabasePrecondition>) {
    forall i | 0 <= i < |preconditions| :: Holds(log, preconditions[i])
  }

  lemma {:induction false} ResolvedOneHoldsExactly(
      log: Log, subject: string, precondition: Precondition, last: Option<nat>)
    ensures AllHoldOf(log, ResolveOne(subject, precondition, last)) <==> DeclaredHolds(log, subject, precondition, last)
  {
    hide Decimal, Stream;
    var resolved := ResolveOne(subject, precondition, last);
    assert resolved != [] ==> (AllHoldOf(log, resolved) <==> Holds(log, resolved[0]));
    if precondition.OnStateRead? {
      OnStateReadIsExact(log, subject, last);
    }
  }

  /** All that is handed to the database holds of a log exactly if all that was declared
      does: what is required, with its own subject, and for OnStateRead that the subject
      has the last event that was read. */
  lemma {:induction false} ResolvedHoldExactly(
      log: Log, subject: string, declared: seq<Precondition>, last: Option<nat>)
    ensures AllHoldOf(log, Resolve(subject, declared, last)) <==> AllDeclaredHold(log, subject, declared, last)
  {
    hide Holds, DeclaredHolds, ResolveOne;
    if declared != [] {
      var before, latest := declared[..|declared| - 1], declared[|declared| - 1];
      ResolvedHoldExactly(log, subject, before, last);
      ResolvedOneHoldsExactly(log, subject, latest, last);
      AllHoldOfBoth(log, Resolve(subject, before, last), ResolveOne(subject, latest, last));
      assert AllDeclaredHold(log, subject, declared, last) <==>
        AllDeclaredHold(log, subject, before, last) && DeclaredHolds(log, subject, latest, last) by {
        assert forall i | 0 <= i < |before| :: before[i] == declared[i];
      }
    }
  }

  lemma {:induction false} AllHoldOfBoth(log: Log, a: seq<DatabasePrecondition>, b: seq<DatabasePrecondition>)
    ensures AllHoldOf(log, a + b) <==> AllHoldOf(log, a) && AllHoldOf(log, b)
  {
    hide Holds;
    assert forall i | 0 <= i < |a| :: (a + b)[i] == a[i];
    assert forall i | 0 <= i < |b| :: (a + b)[|a| + i] == b[i];
  }

  /** The preconditions ask exactly what was declared, of every log. */
  ghost predicate AsksAsDeclared(
      preconditions: seq<DatabasePrecondition>, subject: string, declared: seq<Precondition>, last: Option<nat>)
  {
    forall log: Log :: AllHoldOf(log, preconditions) <==> AllDeclaredHold(log, subject, declared, last)
  }

  lemma {:induction false} ResolvedAsksAsDeclared(subject: string, declared: seq<Precondition>, last: Option<nat>)
    ensures AsksAsDeclared(Resolve(subject, declared, last), subject, declared, last)
  {
    forall log: Log
      ensures AllHoldOf(log, Resolve(subject, declared, last)) <==> AllDeclaredHold(log, subject, declared, last)
    {
      ResolvedHoldExactly(log, subject, declared, last);
    }
  }

  /** An index that the database names means the declared precondition at that index. */
  lemma {:induction false} ResolvedAtHoldsExactly(
      log: Log, subject: string, declared: seq<Precondition>, last: Option<nat>, i: nat)
    requires WellDeclared(declared) && !(|declared| == 1 && declared[0].Unconditionally?) && i < |declared|
    ensures |Resolve(subject, declared, last)| == |declared|
    ensures Holds(log, Resolve(subject, declared, last)[i]) <==> DeclaredHolds(log, subject, declared[i], last)
  {
    ResolvedAligns(subject, declared, last);
    ResolvedOneHoldsExactly(log, subject, declared[i], last);
    var one := ResolveOne(subject, declared[i], last);
    hide Holds, DeclaredHolds, ResolveOne, Resolve;
    assert one[0] == Resolve(subject, declared, last)[i];
    assert AllHoldOf(log, one) <==> Holds(log, one[0]);
  }

  /** The resolved preconditions align with the declared ones, index by index,
      unless nothing is to be checked at all. */
  lemma {:induction false} ResolvedAligns(subject: string, declared: seq<Precondition>, last: Option<nat>)
    requires forall i | 0 <= i < |declared| ::
      declared[i] != Require(None) && !declared[i].Zero? && !declared[i].Unconditionally?
    ensures |Resolve(subject, declared, last)| == |declared|
    ensures forall i | 0 <= i < |declared| ::
      [Resolve(subject, declared, last)[i]] == ResolveOne(subject, declared[i], last)
  {
    if declared != [] {
      var before, latest := declared[..|declared| - 1], declared[|declared| - 1];
      ResolvedAligns(subject, before, last);
      assert |ResolveOne(subject, latest, last)| == 1;
      hide ResolveOne;
      assert Resolve(subject, declared, last) == Resolve(subject, before, last) + ResolveOne(subject, latest, last);
      assert forall i | 0 <= i < |before| :: declared[i] == before[i];
    }
  }

  lemma {:induction false} DecimalInjective(m: nat, n: nat)
    ensures Decimal(m) == Decimal(n) ==> m == n
  {
    DecimalRoundTrip(m);
    DecimalRoundTrip(n);
  }

  /** OnStateRead, filled in, holds exactly while the subject has the last event
      that was read. */
  lemma {:induction false} OnStateReadIsExact(log: Log, subject: string, last: Option<nat>)
    ensures |ResolveOne(subject, OnStateRead, last)| == 1
    ensures Holds(log, ResolveOne(subject, OnStateRead, last)[0]) <==> LastId(Stream(log, subject)) == last
  {
    var actual := LastId(Stream(log, subject));
    if last.Some? && actual.Some? {
      DecimalInjective(last.value, actual.value);
    }
  }

  /** The declared precondition that the database names. An index out of range
      names none. */
  function ViolatedPrecondition(failure: Failure, declared: seq<Precondition>): Option<Precondition> {
    var index := NamedIndex(failure);
    if index.Some? && 0 <= index.value < |declared| then Some(declared[index.value]) else None
  }

  predicate HasOnStateRead(declared: seq<Precondition>) {
    exists i :: 0 <= i < |declared| && declared[i].OnStateRead?
  }
}
