/** What it takes to tell two graphs apart: a path of finitely many steps at the end of
    which they look different (isSame in architecturekit/state_cache.go). */
module GraphPaths {
  import opened Basics
  import opened GraphEquality

  /** The two look alike before any step is taken: the same type, and, for what has no
      parts, the same value, or for references the same length, and nil or not alike. */
  predicate LooksAlike(h: Heap, left: Value, right: Value)
    requires InHeap(h, left) && InHeap(h, right)
  {
    if left.Invalid? || right.Invalid? then left.Invalid? && right.Invalid?
    else
      && TypeOf(left) == TypeOf(right)
      && match left
         case Func(_, isNil) => isNil == right.isNil
         case Float(_, n) => IsSameNumber(n, right.number)
         case Complex(_, re, im) => IsSameNumber(re, right.re) && IsSameNumber(im, right.im)
         case Map(_, _) =>
           && (left.address == 0 <==> right.address == 0)
           && |h.entries[RefOf(left)]| == |h.entries[RefOf(right)]|
         case Slice(_, _, _) => (left.address == 0 <==> right.address == 0) && left.length == right.length
         case Other(_, datum) => datum == right.datum
         case _ => true
  }

  /** Two values in the same place. */
  datatype Pair = Pair(left: Value, right: Value)

  function Zip(items: seq<Value>, others: seq<Value>): seq<Pair>
    requires |items| == |others|
  {
    seq(|items|, i requires 0 <= i < |items| => Pair(items[i], others[i]))
  }

  /** What one step leads to: what is in an interface or behind a pointer, an element, a
      field, or the values of two maps under a key of the left one. */
  function Parts(h: Heap, left: Value, right: Value): seq<Pair>
    requires InHeap(h, left) && InHeap(h, right) && LooksAlike(h, left, right)
  {
    match left
    case Interface(_, dynamic) => [Pair(dynamic, right.dynamic)]
    case Pointer(_, _) => [Pair(h.pointees[RefOf(left)], h.pointees[RefOf(right)])]
    case Map(_, _) =>
      var entries, others := h.entries[RefOf(left)], h.entries[RefOf(right)];
      seq(|entries|, i requires 0 <= i < |entries| => Pair(entries[i].value, MapIndex(others, entries[i].key)))
    case Slice(_, _, _) => Zip(h.elements[RefOf(left)], h.elements[RefOf(right)])
    case Array(_, items) => Zip(items, right.items)
    case Struct(_, fields) => Zip(fields, right.fields)
    case _ => []
  }

  ghost predicate PairInHeap(h: Heap, p: Pair) { InHeap(h, p.left) && InHeap(h, p.right) }

  lemma {:induction false} PartsInHeap(h: Heap, left: Value, right: Value)
    requires WellFormed(h) && InHeap(h, left) && InHeap(h, right) && LooksAlike(h, left, right)
    ensures forall i | 0 <= i < |Parts(h, left, right)| :: PairInHeap(h, Parts(h, left, right)[i])
  {
    if left.Map? {
      var others := h.entries[RefOf(right)];
      forall i | 0 <= i < |Parts(h, left, right)| ensures PairInHeap(h, Parts(h, left, right)[i]) {
        MapIndexInHeap(h, others, h.entries[RefOf(left)][i].key);
      }
    }
  }

  /** Where a path leads, as long as the two look alike on the way. */
  ghost function Along(h: Heap, left: Value, right: Value, path: seq<nat>): (end: Option<Pair>)
    requires WellFormed(h) && InHeap(h, left) && InHeap(h, right)
    ensures end.Some? ==> PairInHeap(h, end.value)
    decreases |path|
  {
    if path == [] then Some(Pair(left, right))
    else if !LooksAlike(h, left, right) || path[0] >= |Parts(h, left, right)| then None
    else
      PartsInHeap(h, left, right);
      var part := Parts(h, left, right)[path[0]];
      assert PairInHeap(h, part);
      Along(h, part.left, part.right, path[1..])
  }

  /** The path does not tell the two apart. */
  ghost predicate TellsNothing(h: Heap, left: Value, right: Value, path: seq<nat>)
    requires WellFormed(h) && InHeap(h, left) && InHeap(h, right)
  {
    var end := Along(h, left, right, path);
    end.Some? ==> LooksAlike(h, end.value.left, end.value.right)
  }

  ghost predicate NothingTells(h: Heap, left: Value, right: Value)
    requires WellFormed(h) && InHeap(h, left) && InHeap(h, right)
  {
    forall path :: TellsNothing(h, left, right, path)
  }

  // ----- From a bisimulation to paths -----

  lemma {:induction false} AlikeLooksAlike(h: Heap, pairs: set<Visit>, left: Value, right: Value)
    requires InHeap(h, left) && InHeap(h, right) && Alike(h, pairs, left, right)
    ensures LooksAlike(h, left, right)
  {
  }

  lemma {:induction false} PartsAreAlike(h: Heap, pairs: set<Visit>, left: Value, right: Value, i: nat)
    requires WellFormed(h) && InHeap(h, left) && InHeap(h, right) && LooksAlike(h, left, right)
    requires Bisimulation(h, pairs) && Alike(h, pairs, left, right) && i < |Parts(h, left, right)|
    ensures PairInHeap(h, Parts(h, left, right)[i])
    ensures Alike(h, pairs, Parts(h, left, right)[i].left, Parts(h, left, right)[i].right)
  {
    PartsInHeap(h, left, right);
    if IsReference(left) {
      var p := VisitOf(left, right);
      assert Supported(h, pairs, p) && LeftOf(p) == RefOf(left) && RightOf(p) == RefOf(right);
      if left.Map? {
        assert EntryFound(h, pairs, h.entries[RefOf(left)][i], h.entries[RefOf(right)]);
      }
    }
  }

  lemma {:induction false} AlikeTellsNothing(h: Heap, pairs: set<Visit>, left: Value, right: Value, path: seq<nat>)
    requires WellFormed(h) && InHeap(h, left) && InHeap(h, right)
    requires Bisimulation(h, pairs) && Alike(h, pairs, left, right)
    ensures TellsNothing(h, left, right, path)
    decreases |path|
  {
    AlikeLooksAlike(h, pairs, left, right);
    hide Alike, LooksAlike, Parts, InHeap, Bisimulation;
    if path != [] && path[0] < |Parts(h, left, right)| {
      PartsAreAlike(h, pairs, left, right, path[0]);
      var part := Parts(h, left, right)[path[0]];
      AlikeTellsNothing(h, pairs, part.left, part.right, path[1..]);
    }
  }

  // ----- From paths to a bisimulation -----

  lemma {:induction false} AlongOneMore(h: Heap, left: Value, right: Value, path: seq<nat>, i: nat)
    requires WellFormed(h) && InHeap(h, left) && InHeap(h, right) && Along(h, left, right, path).Some?
    requires var end := Along(h, left, right, path).value;
      LooksAlike(h, end.left, end.right) && i < |Parts(h, end.left, end.right)|
    ensures var end := Along(h, left, right, path).value;
      Along(h, left, right, path + [i]) == Some(Parts(h, end.left, end.right)[i])
    decreases |path|
  {
    hide LooksAlike, Parts, InHeap;
    if path == [] {
      assert (path + [i])[1..] == [];
      PartsInHeap(h, left, right);
    } else {
      assert (path + [i])[0] == path[0] && (path + [i])[1..] == path[1..] + [i];
      PartsInHeap(h, left, right);
      var part := Parts(h, left, right)[path[0]];
      AlongOneMore(h, part.left, part.right, path[1..], i);
    }
  }

  /** Some path leads to the two references. */
  ghost predicate LeadsTo(h: Heap, left: Value, right: Value, path: seq<nat>, p: Visit)
    requires WellFormed(h) && InHeap(h, left) && InHeap(h, right)
  {
    var end := Along(h, left, right, path);
    && end.Some? && IsReference(end.value.left) && IsReference(end.value.right)
    && p == VisitOf(end.value.left, end.value.right)
  }

  ghost function Reached(h: Heap, left: Value, right: Value): set<Visit>
    requires WellFormed(h) && InHeap(h, left) && InHeap(h, right)
  {
    set p <- Visits(h) | exists path :: LeadsTo(h, left, right, path, p)
  }

  /** Wherever a path leads, the two are alike under all that is reached. */
  lemma {:induction false} ReachedIsAlike(h: Heap, left: Value, right: Value, path: seq<nat>, a: Value, b: Value)
    requires WellFormed(h) && InHeap(h, left) && InHeap(h, right) && InHeap(h, a) && InHeap(h, b)
    requires NothingTells(h, left, right) && Along(h, left, right, path) == Some(Pair(a, b))
    ensures Alike(h, Reached(h, left, right), a, b)
    decreases a
  {
    hide Along, NothingTells, Visits, Alike, LooksAlike, Parts, InHeap, Reached;
    LooksAlikeThere(h, left, right, path);
    var pairs := Reached(h, left, right);
    if a.Interface? || a.Array? || a.Struct? {
      PartsInHeap(h, a, b);
      forall i | 0 <= i < |Parts(h, a, b)| ensures Alike(h, pairs, Parts(h, a, b)[i].left, Parts(h, a, b)[i].right) {
        assert PairInHeap(h, Parts(h, a, b)[i]);
        AlongOneMore(h, left, right, path, i);
        PartsAreSmaller(h, a, b, i);
        ReachedIsAlike(h, left, right, path + [i], Parts(h, a, b)[i].left, Parts(h, a, b)[i].right);
      }
      PartsMakeAlike(h, pairs, a, b);
    } else {
      if IsReference(a) {
        IsReached(h, left, right, path);
      }
      LeafIsAlike(h, pairs, a, b);
    }
  }

  lemma {:induction false} LooksAlikeThere(h: Heap, left: Value, right: Value, path: seq<nat>)
    requires WellFormed(h) && InHeap(h, left) && InHeap(h, right)
    requires NothingTells(h, left, right) && Along(h, left, right, path).Some?
    ensures LooksAlike(h, Along(h, left, right, path).value.left, Along(h, left, right, path).value.right)
  {
    hide Along, LooksAlike, InHeap;
    assert TellsNothing(h, left, right, path);
  }

  lemma {:induction false} PartsAreSmaller(h: Heap, a: Value, b: Value, i: nat)
    requires InHeap(h, a) && InHeap(h, b) && LooksAlike(h, a, b) && (a.Interface? || a.Array? || a.Struct?)
    requires i < |Parts(h, a, b)|
    ensures Parts(h, a, b)[i].left < a
  {
  }

  lemma {:induction false} IsReached(h: Heap, left: Value, right: Value, path: seq<nat>)
    requires WellFormed(h) && InHeap(h, left) && InHeap(h, right) && Along(h, left, right, path).Some?
    requires var end := Along(h, left, right, path).value;
      IsReference(end.left) && LooksAlike(h, end.left, end.right)
    ensures var end := Along(h, left, right, path).value;
      IsReference(end.right) && VisitOf(end.left, end.right) in Reached(h, left, right)
  {
    hide Along, Visits, LooksAlike, InHeap;
    var end := Along(h, left, right, path).value;
    VisitIsThere(h, end.left, end.right);
    assert LeadsTo(h, left, right, path, VisitOf(end.left, end.right));
  }

  lemma {:induction false} VisitIsThere(h: Heap, a: Value, b: Value)
    requires WellFormed(h) && InHeap(h, a) && InHeap(h, b) && IsReference(a) && LooksAlike(h, a, b)
    ensures IsReference(b) && VisitOf(a, b) in Visits(h)
  {
    hide Visits, WellFormed;
    IsAVisit(h, a, b);
  }

  lemma {:induction false} LeafIsAlike(h: Heap, pairs: set<Visit>, a: Value, b: Value)
    requires InHeap(h, a) && InHeap(h, b) && LooksAlike(h, a, b) && !a.Interface? && !a.Array? && !a.Struct?
    requires IsReference(a) ==> IsReference(b) && VisitOf(a, b) in pairs
    ensures Alike(h, pairs, a, b)
  {
  }

  lemma {:induction false} PartsMakeAlike(h: Heap, pairs: set<Visit>, a: Value, b: Value)
    requires InHeap(h, a) && InHeap(h, b) && LooksAlike(h, a, b) && (a.Interface? || a.Array? || a.Struct?)
    requires forall i | 0 <= i < |Parts(h, a, b)| ::
      PairInHeap(h, Parts(h, a, b)[i]) && Alike(h, pairs, Parts(h, a, b)[i].left, Parts(h, a, b)[i].right)
    ensures Alike(h, pairs, a, b)
  {
    if a.Interface? {
      assert Parts(h, a, b)[0] == Pair(a.dynamic, b.dynamic);
    } else {
      assert forall i | 0 <= i < |Parts(h, a, b)| :: Alike(h, pairs, Parts(h, a, b)[i].left, Parts(h, a, b)[i].right);
      if a.Array? {
        assert forall i | 0 <= i < |a.items| :: Parts(h, a, b)[i] == Pair(a.items[i], b.items[i]);
      } else {
        assert forall i | 0 <= i < |a.fields| :: Parts(h, a, b)[i] == Pair(a.fields[i], b.fields[i]);
      }
    }
  }

  lemma {:induction false} ReachedIsBisimulation(h: Heap, left: Value, right: Value)
    requires WellFormed(h) && InHeap(h, left) && InHeap(h, right) && NothingTells(h, left, right)
    ensures Bisimulation(h, Reached(h, left, right))
  {
    hide Along, LooksAlike, Parts, Alike, InHeap, Supported, NothingTells, Visits;
    var pairs := Reached(h, left, right);
    forall p <- pairs ensures Supported(h, pairs, p) {
      var path: seq<nat> :| LeadsTo(h, left, right, path, p);
      var end := Along(h, left, right, path).value;
      LooksAlikeThere(h, left, right, path);
      PartsInHeap(h, end.left, end.right);
      forall i | 0 <= i < |Parts(h, end.left, end.right)|
        ensures Alike(h, pairs, Parts(h, end.left, end.right)[i].left, Parts(h, end.left, end.right)[i].right)
      {
        assert PairInHeap(h, Parts(h, end.left, end.right)[i]);
        AlongOneMore(h, left, right, path, i);
        ReachedIsAlike(
          h, left, right, path + [i], Parts(h, end.left, end.right)[i].left, Parts(h, end.left, end.right)[i].right);
      }
      PartsSupport(h, pairs, end.left, end.right);
    }
  }

  lemma {:induction false} PartsSupport(h: Heap, pairs: set<Visit>, a: Value, b: Value)
    requires WellFormed(h) && InHeap(h, a) && InHeap(h, b) && LooksAlike(h, a, b) && IsReference(a) && IsReference(b)
    requires forall i | 0 <= i < |Parts(h, a, b)| ::
      PairInHeap(h, Parts(h, a, b)[i]) && Alike(h, pairs, Parts(h, a, b)[i].left, Parts(h, a, b)[i].right)
    ensures Supported(h, pairs, VisitOf(a, b))
  {
    var p := VisitOf(a, b);
    assert LeftOf(p) == RefOf(a) && RightOf(p) == RefOf(b);
    hide Alike;
    match a
    case Pointer(_, _) => assert Parts(h, a, b)[0] == Pair(h.pointees[RefOf(a)], h.pointees[RefOf(b)]);
    case Map(_, _) =>
      var entries, others := h.entries[RefOf(a)], h.entries[RefOf(b)];
      forall i | 0 <= i < |entries| ensures EntryFound(h, pairs, entries[i], others) {
        assert Parts(h, a, b)[i] == Pair(entries[i].value, MapIndex(others, entries[i].key));
      }
    case Slice(_, _, _) =>
      var items, others := h.elements[RefOf(a)], h.elements[RefOf(b)];
      assert forall i | 0 <= i < |items| :: Parts(h, a, b)[i] == Pair(items[i], others[i]);
  }

  /** Two graphs are the same exactly if no path of whatever length tells them apart. */
  lemma {:induction false} SameExactlyIfNothingTells(h: Heap, left: Value, right: Value)
    requires WellFormed(h) && InHeap(h, left) && InHeap(h, right)
    ensures Bisimilar(h, left, right) <==> NothingTells(h, left, right)
  {
    hide Alike, Bisimulation, InHeap, Reached, LooksAlike;
    if Bisimilar(h, left, right) {
      var pairs :| Bisimulation(h, pairs) && Alike(h, pairs, left, right);
      forall path ensures TellsNothing(h, left, right, path) {
        AlikeTellsNothing(h, pairs, left, right, path);
      }
    }
    if NothingTells(h, left, right) {
      ReachedIsBisimulation(h, left, right);
      assert Along(h, left, right, []) == Some(Pair(left, right));
      ReachedIsAlike(h, left, right, [], left, right);
    }
  }
}
