/** Upcasters, which translate stored events of an older type step by step
    (architecturekit/upcast.go). */
module Upcasting {
  import opened Basics
  import opened EventLog
  import opened Failures

  type Upcaster = Stored -> Result<seq<Stored>, Failure>

  /** No set of upcasters at all is the empty one. */
  type Upcasters = map<string, Upcaster>

  const MAX_UPCAST_STEPS: nat := 16

  function Upcast(u: Upcasters, event: Stored, budget: nat): Result<seq<Stored>, Failure>
    decreases budget, 0, 0
  {
    if event.typ !in u then Ok([event])
    else if budget == 0 then Err(Permanent)
    else
      match u[event.typ](event)
      case Err(_) => Err(Permanent)
      case Ok(produced) => UpcastAll(u, produced, budget - 1)
  }

  function UpcastAll(u: Upcasters, events: seq<Stored>, budget: nat): Result<seq<Stored>, Failure>
    decreases budget, |events|, 1
  {
    if events == [] then Ok([])
    else Join(Upcast(u, events[0], budget), UpcastAll(u, events[1..], budget))
  }

  /** What two reads in a row yield: the first failure counts. */
  function Join(
      first: Result<seq<Stored>, Failure>, second: Result<seq<Stored>, Failure>): Result<seq<Stored>, Failure>
  {
    if first.Err? then first else if second.Err? then second else Ok(first.value + second.value)
  }

  function Apply(u: Upcasters, event: Stored): Result<seq<Stored>, Failure> {
    Upcast(u, event, MAX_UPCAST_STEPS)
  }

  lemma {:induction false} UpcastAllAppend(u: Upcasters, a: seq<Stored>, b: seq<Stored>, budget: nat)
    ensures UpcastAll(u, a + b, budget) == Join(UpcastAll(u, a, budget), UpcastAll(u, b, budget))
  {
    if a == [] {
      assert a + b == b;
      var rest := UpcastAll(u, b, budget);
      assert rest.Ok? ==> [] + rest.value == rest.value;
    } else {
      assert (a + b)[1..] == a[1..] + b && (a + b)[0] == a[0];
      UpcastAllAppend(u, a[1..], b, budget);
      JoinAssociative(Upcast(u, a[0], budget), UpcastAll(u, a[1..], budget), UpcastAll(u, b, budget));
    }
  }

  lemma {:induction false} JoinAssociative(
      a: Result<seq<Stored>, Failure>, b: Result<seq<Stored>, Failure>, c: Result<seq<Stored>, Failure>)
    ensures Join(Join(a, b), c) == Join(a, Join(b, c))
  {
    if a.Ok? && b.Ok? && c.Ok? {
      assert (a.value + b.value) + c.value == a.value + (b.value + c.value);
    }
  }

  lemma {:induction false} UpcastOne(u: Upcasters, event: Stored, budget: nat)
    ensures UpcastAll(u, [event], budget) == Upcast(u, event, budget)
  {
    var first := Upcast(u, event, budget);
    if first.Ok? {
      assert first.value + [] == first.value;
    }
  }

  // ----- The order of what comes out -----

  /** What upcasting several events yields, event by event. */
  ghost predicate ArePieces(u: Upcasters, events: seq<Stored>, pieces: seq<seq<Stored>>, budget: nat) {
    |pieces| == |events| && forall i | 0 <= i < |events| :: Upcast(u, events[i], budget) == Ok(pieces[i])
  }

  /** If every one of the events can be upcasted, the results come in the order of the
      events, each in its own order, with nothing left out. */
  lemma {:induction false} UpcastsInOrder(
      u: Upcasters, events: seq<Stored>, pieces: seq<seq<Stored>>, budget: nat)
    requires ArePieces(u, events, pieces, budget)
    ensures UpcastAll(u, events, budget) == Ok(Flat(pieces))
  {
    if events != [] {
      UpcastsInOrder(u, events[1..], pieces[1..], budget);
      hide Upcast;
    }
  }

  /** It takes all of them: one that can not be upcasted makes the whole fail. */
  lemma {:induction false} UpcastNeedsAll(u: Upcasters, events: seq<Stored>, budget: nat, i: nat)
    requires UpcastAll(u, events, budget).Ok? && i < |events|
    ensures Upcast(u, events[i], budget).Ok?
  {
    if i > 0 {
      UpcastNeedsAll(u, events[1..], budget, i - 1);
    }
  }

  ghost predicate IsMadeOf(u: Upcasters, event: Stored, pieces: seq<seq<Stored>>, budget: nat) {
    && event.typ in u && budget > 0 && u[event.typ](event).Ok?
    && ArePieces(u, u[event.typ](event).value, pieces, budget - 1)
  }

  /** One event: as it is without an upcaster, and otherwise what upcasting everything the
      upcaster makes of it yields, in order. */
  lemma {:induction false} UpcastsItsParts(u: Upcasters, event: Stored, pieces: seq<seq<Stored>>, budget: nat)
    ensures event.typ !in u ==> Upcast(u, event, budget) == Ok([event])
    ensures IsMadeOf(u, event, pieces, budget) ==> Upcast(u, event, budget) == Ok(Flat(pieces))
  {
    if IsMadeOf(u, event, pieces, budget) {
      UpcastsInOrder(u, u[event.typ](event).value, pieces, budget - 1);
    }
  }

  /** The recursion of applyWithBudget, with its appending loop. */
  method ApplyWithBudget(u: Upcasters, event: Stored, budget: nat) returns (r: Result<seq<Stored>, Failure>)
    ensures r == Upcast(u, event, budget)
    decreases budget
  {
    if event.typ !in u {
      return Ok([event]);
    }
    if budget == 0 {
      return Err(Permanent);
    }
    var upcasted := u[event.typ](event);
    if upcasted.Err? {
      return Err(Permanent);
    }
    var produced := upcasted.value;
    var result := [];
    for i := 0 to |produced|
      invariant UpcastAll(u, produced[..i], budget - 1) == Ok(result)
    {
      var further := ApplyWithBudget(u, produced[i], budget - 1);
      assert produced[..i + 1] == produced[..i] + [produced[i]];
      UpcastAllAppend(u, produced[..i], [produced[i]], budget - 1);
      UpcastOne(u, produced[i], budget - 1);
      if further.Err? {
        assert produced == produced[..i + 1] + produced[i + 1..];
        UpcastAllAppend(u, produced[..i + 1], produced[i + 1..], budget - 1);
        return further;
      }
      result := result + further.value;
    }
    assert produced[..|produced|] == produced;
    return Ok(result);
  }

  /** What comes out needs no further upcasting: running it through the same
      set again changes nothing, with any budget. */
  lemma {:induction false} UpcastIsComplete(u: Upcasters, event: Stored, budget: nat)
    ensures Upcast(u, event, budget).Ok? ==>
      forall e | e in Upcast(u, event, budget).value :: e.typ !in u && Upcast(u, e, 0) == Ok([e])
    decreases budget, 0, 0
  {
    if event.typ in u && budget > 0 && u[event.typ](event).Ok? {
      UpcastAllIsComplete(u, u[event.typ](event).value, budget - 1);
    }
  }

  lemma {:induction false} UpcastAllIsComplete(u: Upcasters, events: seq<Stored>, budget: nat)
    ensures UpcastAll(u, events, budget).Ok? ==>
      forall e | e in UpcastAll(u, events, budget).value :: e.typ !in u
    decreases budget, |events|, 1
  {
    if events != [] {
      UpcastIsComplete(u, events[0], budget);
      UpcastAllIsComplete(u, events[1..], budget);
    }
  }

  /** The budget only decides whether a chain ends, never what it yields. */
  lemma {:induction false} BudgetOnlyBounds(u: Upcasters, event: Stored, budget: nat, more: nat)
    requires budget <= more
    ensures Upcast(u, event, budget).Ok? ==> Upcast(u, event, more) == Upcast(u, event, budget)
    decreases budget, 0, 0
  {
    if event.typ in u && budget > 0 && u[event.typ](event).Ok? {
      BudgetOnlyBoundsAll(u, u[event.typ](event).value, budget - 1, more - 1);
    }
  }

  lemma {:induction false} BudgetOnlyBoundsAll(u: Upcasters, events: seq<Stored>, budget: nat, more: nat)
    requires budget <= more
    ensures UpcastAll(u, events, budget).Ok? ==> UpcastAll(u, events, more) == UpcastAll(u, events, budget)
    decreases budget, |events|, 1
  {
    if events != [] {
      BudgetOnlyBounds(u, events[0], budget, more);
      BudgetOnlyBoundsAll(u, events[1..], budget, more);
    }
  }

  /** Every event of the type is upcasted into events among which its own type
      is again. */
  ghost predicate KeepsType(u: Upcasters, typ: string) {
    typ in u && forall e: Stored :: e.typ == typ ==> YieldsOwnType(u, e)
  }

  ghost predicate YieldsOwnType(u: Upcasters, e: Stored)
    requires e.typ in u
  {
    var produced := u[e.typ](e);
    produced.Ok? && exists i :: 0 <= i < |produced.value| && produced.value[i].typ == e.typ
  }

  /** An upcaster that keeps its event type never ends, so reading fails. */
  lemma {:induction false} EndlessChainFails(u: Upcasters, event: Stored, budget: nat)
    requires KeepsType(u, event.typ)
    ensures Upcast(u, event, budget) == Err(Permanent)
    decreases budget
  {
    if budget > 0 {
      assert YieldsOwnType(u, event);
      var produced := u[event.typ](event).value;
      var i :| 0 <= i < |produced| && produced[i].typ == event.typ;
      EndlessChainFails(u, produced[i], budget - 1);
      UpcastAllFails(u, produced, budget - 1, i);
    }
  }

  lemma {:induction false} UpcastAllFails(u: Upcasters, events: seq<Stored>, budget: nat, i: nat)
    requires i < |events| && Upcast(u, events[i], budget) == Err(Permanent)
    ensures UpcastAll(u, events, budget) == Err(Permanent)
  {
    FailsPermanently(u, events[0], budget);
    if i > 0 {
      UpcastAllFails(u, events[1..], budget, i - 1);
    }
  }

  lemma {:induction false} FailsPermanently(u: Upcasters, event: Stored, budget: nat)
    ensures Upcast(u, event, budget).Err? ==> Upcast(u, event, budget) == Err(Permanent)
    decreases budget, 0, 0
  {
    if event.typ in u && budget > 0 && u[event.typ](event).Ok? {
      AllFailPermanently(u, u[event.typ](event).value, budget - 1);
    }
  }

  lemma {:induction false} AllFailPermanently(u: Upcasters, events: seq<Stored>, budget: nat)
    ensures UpcastAll(u, events, budget).Err? ==> UpcastAll(u, events, budget) == Err(Permanent)
    decreases budget, |events|, 1
  {
    if events != [] {
      FailsPermanently(u, events[0], budget);
      AllFailPermanently(u, events[1..], budget);
    }
  }
}
