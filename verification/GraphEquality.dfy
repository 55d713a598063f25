/** Equality of graphs of Go values that may be cyclic, as the state cache compares
    initial states (isSame in architecturekit/state_cache.go). */
module GraphEquality {

  datatype Number = NaN | Infinite(isNegative: bool) | Finite(value: real, hasMinus: bool)

  datatype Kind =
    FuncKind | FloatKind | ComplexKind | InterfaceKind | PointerKind | MapKind | SliceKind | ArrayKind | StructKind |
    OtherKind

  /** size is how many fields or elements a struct or array of the type has. */
  datatype Type = Type(kind: Kind, id: nat, size: nat)

  /** A value as reflection sees it. What a reference refers to is in the heap; nil
      is address 0. Other stands for every kind that == compares. */
  datatype Value =
    | Invalid
    | Func(id: nat, isNil: bool)
    | Float(id: nat, number: Number)
    | Complex(id: nat, re: Number, im: Number)
    | Interface(id: nat, dynamic: Value)
    | Pointer(id: nat, address: nat)
    | Map(id: nat, address: nat)
    | Slice(id: nat, address: nat, length: nat)
    | Array(id: nat, items: seq<Value>)
    | Struct(id: nat, fields: seq<Value>)
    | Other(id: nat, datum: int)

  datatype Entry = Entry(key: Value, value: Value)

  datatype Ref = Ref(valueType: Type, address: nat, length: nat)

  /** The same address may be referred to by several types, as a struct and its
      first field are, and by slices of several lengths. */
  datatype Heap = Heap(pointees: map<Ref, Value>, entries: map<Ref, seq<Entry>>, elements: map<Ref, seq<Value>>)

  datatype Visit = Visit(left: nat, right: nat, length: nat, valueType: Type)

  function TypeOf(v: Value): Type
    requires !v.Invalid?
  {
    match v
    case Func(id, _) => Type(FuncKind, id, 0)
    case Float(id, _) => Type(FloatKind, id, 0)
    case Complex(id, _, _) => Type(ComplexKind, id, 0)
    case Interface(id, _) => Type(InterfaceKind, id, 0)
    case Pointer(id, _) => Type(PointerKind, id, 0)
    case Map(id, _) => Type(MapKind, id, 0)
    case Slice(id, _, _) => Type(SliceKind, id, 0)
    case Array(id, items) => Type(ArrayKind, id, |items|)
    case Struct(id, fields) => Type(StructKind, id, |fields|)
    case Other(id, _) => Type(OtherKind, id, 0)
  }

  function LengthOf(v: Value): nat { if v.Slice? then v.length else 0 }

  predicate IsReference(v: Value) { v.Pointer? || v.Map? || v.Slice? }

  function RefOf(v: Value): Ref
    requires IsReference(v)
  {
    Ref(TypeOf(v), v.address, LengthOf(v))
  }

  function VisitOf(left: Value, right: Value): Visit
    requires IsReference(left) && IsReference(right)
  {
    Visit(left.address, right.address, LengthOf(left), TypeOf(left))
  }

  /** Everything a value refers to is there. Nil is there as well: it refers to no
      value, no entry and no element. */
  predicate InHeap(h: Heap, v: Value) {
    match v
    case Interface(_, dynamic) => InHeap(h, dynamic)
    case Pointer(_, _) => RefOf(v) in h.pointees
    case Map(_, _) => RefOf(v) in h.entries
    case Slice(_, _, _) => RefOf(v) in h.elements && |h.elements[RefOf(v)]| == v.length
    case Array(_, items) => forall i | 0 <= i < |items| :: InHeap(h, items[i])
    case Struct(_, fields) => forall i | 0 <= i < |fields| :: InHeap(h, fields[i])
    case _ => true
  }

  /** What Go guarantees of its heap: nothing dangles, nil is empty, and no two keys
      of a map are equal, as == sees it. */
  ghost predicate WellFormed(h: Heap) {
    && (forall ref <- h.pointees :: ref.valueType.kind.PointerKind? && ref.length == 0)
    && (forall ref <- h.entries :: ref.valueType.kind.MapKind? && ref.length == 0)
    && (forall ref <- h.elements :: ref.valueType.kind.SliceKind?)
    && (forall ref <- h.pointees :: InHeap(h, h.pointees[ref]) && (ref.address == 0 ==> h.pointees[ref].Invalid?))
    && (forall ref <- h.elements :: AllInHeap(h, h.elements[ref]))
    && (forall ref <- h.entries :: ref.address == 0 ==> h.entries[ref] == [])
    && (forall ref <- h.entries, i | 0 <= i < |h.entries[ref]| ::
          !h.entries[ref][i].value.Invalid? && InHeap(h, h.entries[ref][i].value))
    && (forall ref <- h.entries :: DistinctKeys(h.entries[ref]))
  }

  predicate DistinctKeys(entries: seq<Entry>) {
    forall i, j | 0 <= i < |entries| && 0 <= j < |entries| && i != j :: !GoEqual(entries[i].key, entries[j].key)
  }

  // ----- Equality as Go has it, for the keys of maps -----

  predicate GoEqualNumbers(left: Number, right: Number) {
    match (left, right)
    case (Infinite(l), Infinite(r)) => l == r
    case (Finite(l, _), Finite(r, _)) => l == r
    case _ => false
  }

  predicate GoEqual(left: Value, right: Value) {
    if left.Invalid? || right.Invalid? then left.Invalid? && right.Invalid?
    else if TypeOf(left) != TypeOf(right) then false
    else
      match left
      case Float(_, n) => GoEqualNumbers(n, right.number)
      case Complex(_, re, im) => GoEqualNumbers(re, right.re) && GoEqualNumbers(im, right.im)
      case Interface(_, dynamic) => GoEqual(dynamic, right.dynamic)
      case Pointer(_, address) => address == right.address
      case Array(_, items) => forall i | 0 <= i < |items| :: GoEqual(items[i], right.items[i])
      case Struct(_, fields) => forall i | 0 <= i < |fields| :: GoEqual(fields[i], right.fields[i])
      case Other(_, datum) => datum == right.datum
      case _ => false
  }

  function MapIndex(entries: seq<Entry>, key: Value): Value {
    if entries == [] then Invalid
    else if GoEqual(entries[0].key, key) then entries[0].value
    else MapIndex(entries[1..], key)
  }

  predicate IsSameNumber(left: Number, right: Number) { GoEqualNumbers(left, right) || (left.NaN? && right.NaN?) }

  // ----- What it means for two graphs to be the same -----

  /** left and right agree as far as one sees without following a reference, and
      pairs holds every pair of references they hold in the same place. */
  predicate Alike(h: Heap, pairs: set<Visit>, left: Value, right: Value)
    requires InHeap(h, left) && InHeap(h, right)
  {
    if left.Invalid? || right.Invalid? then left.Invalid? && right.Invalid?
    else if TypeOf(left) != TypeOf(right) then false
    else
      match left
      case Invalid => false
      case Func(_, isNil) => isNil == right.isNil
      case Float(_, n) => IsSameNumber(n, right.number)
      case Complex(_, re, im) => IsSameNumber(re, right.re) && IsSameNumber(im, right.im)
      case Interface(_, dynamic) => Alike(h, pairs, dynamic, right.dynamic)
      case Pointer(_, _) => VisitOf(left, right) in pairs
      case Map(_, _) =>
        && (left.address == 0 <==> right.address == 0) && |h.entries[RefOf(left)]| == |h.entries[RefOf(right)]|
        && VisitOf(left, right) in pairs
      case Slice(_, _, _) =>
        (left.address == 0 <==> right.address == 0) && left.length == right.length && VisitOf(left, right) in pairs
      case Array(_, items) => forall i | 0 <= i < |items| :: Alike(h, pairs, items[i], right.items[i])
      case Struct(_, fields) => forall i | 0 <= i < |fields| :: Alike(h, pairs, fields[i], right.fields[i])
      case Other(_, datum) => datum == right.datum
  }

  function LeftOf(p: Visit): Ref { Ref(p.valueType, p.left, p.length) }

  function RightOf(p: Visit): Ref { Ref(p.valueType, p.right, p.length) }

  function References(h: Heap): set<Ref> { h.pointees.Keys + h.entries.Keys + h.elements.Keys }

  /** Every pair of references that can ever be compared. */
  function Visits(h: Heap): set<Visit> {
    set l <- References(h), r <- References(h) | l.valueType == r.valueType && l.length == r.length ::
      Visit(l.address, r.address, l.length, l.valueType)
  }

  /** What the two references of a pair refer to is alike. */
  ghost predicate Supported(h: Heap, pairs: set<Visit>, p: Visit)
    requires WellFormed(h)
  {
    && (LeftOf(p) in h.pointees && RightOf(p) in h.pointees ==>
          Alike(h, pairs, h.pointees[LeftOf(p)], h.pointees[RightOf(p)]))
    && (LeftOf(p) in h.entries && RightOf(p) in h.entries ==> EntriesAlike(h, pairs, LeftOf(p), RightOf(p)))
    && (LeftOf(p) in h.elements && RightOf(p) in h.elements ==>
        AllAlike(h, pairs, h.elements[LeftOf(p)], h.elements[RightOf(p)]))
  }

  ghost predicate EntriesAlike(h: Heap, pairs: set<Visit>, left: Ref, right: Ref)
    requires WellFormed(h) && left in h.entries && right in h.entries
  {
    forall i | 0 <= i < |h.entries[left]| :: EntryFound(h, pairs, h.entries[left][i], h.entries[right])
  }

  ghost predicate EntryFound(h: Heap, pairs: set<Visit>, entry: Entry, others: seq<Entry>) {
    && InHeap(h, entry.value) && InHeap(h, MapIndex(others, entry.key))
    && Alike(h, pairs, entry.value, MapIndex(others, entry.key))
  }

  lemma {:induction false} FoundGrows(
      h: Heap, pairs: set<Visit>, more: set<Visit>, entries: seq<Entry>, others: seq<Entry>, rest: set<int>)
    requires pairs <= more
    requires forall i | 0 <= i < |entries| && i !in rest :: EntryFound(h, pairs, entries[i], others)
    ensures forall i | 0 <= i < |entries| && i !in rest :: EntryFound(h, more, entries[i], others)
  {
    forall i | 0 <= i < |entries| && i !in rest ensures EntryFound(h, more, entries[i], others) {
      AlikeGrows(h, pairs, more, entries[i].value, MapIndex(others, entries[i].key));
    }
  }

  predicate AllInHeap(h: Heap, values: seq<Value>) { forall i | 0 <= i < |values| :: InHeap(h, values[i]) }

  ghost predicate AllAlike(h: Heap, pairs: set<Visit>, items: seq<Value>, others: seq<Value>)
    requires AllInHeap(h, items) && AllInHeap(h, others)
  {
    |items| == |others| && forall i | 0 <= i < |items| :: Alike(h, pairs, items[i], others[i])
  }

  ghost predicate Bisimulation(h: Heap, pairs: set<Visit>)
    requires WellFormed(h)
  {
    forall p <- pairs :: Supported(h, pairs, p)
  }

  /** Two graphs are the same if nothing tells them apart, however many references
      one follows. */
  ghost predicate Bisimilar(h: Heap, left: Value, right: Value)
    requires WellFormed(h) && InHeap(h, left) && InHeap(h, right)
  {
    exists pairs :: Bisimulation(h, pairs) && Alike(h, pairs, left, right)
  }

  // ----- The comparison -----

  lemma {:induction false} MapIndexInHeap(h: Heap, entries: seq<Entry>, key: Value)
    requires forall i | 0 <= i < |entries| :: InHeap(h, entries[i].value)
    ensures InHeap(h, MapIndex(entries, key))
  {
    if entries != [] && !GoEqual(entries[0].key, key) {
      MapIndexInHeap(h, entries[1..], key);
    }
  }

  lemma {:induction false} AlikeGrows(h: Heap, pairs: set<Visit>, more: set<Visit>, left: Value, right: Value)
    requires InHeap(h, left) && InHeap(h, right) && pairs <= more && Alike(h, pairs, left, right)
    ensures Alike(h, more, left, right)
    decreases left
  {
    match left
    case Interface(_, dynamic) =>
      if !right.Invalid? {
        AlikeGrows(h, pairs, more, dynamic, right.dynamic);
      }
    case Array(_, items) =>
      forall i | 0 <= i < |items| ensures Alike(h, more, items[i], right.items[i]) {
        AlikeGrows(h, pairs, more, items[i], right.items[i]);
      }
    case Struct(_, fields) =>
      forall i | 0 <= i < |fields| ensures Alike(h, more, fields[i], right.fields[i]) {
        AlikeGrows(h, pairs, more, fields[i], right.fields[i]);
      }
    case _ =>
  }

  lemma {:induction false} AllAlikeGrows(
      h: Heap, pairs: set<Visit>, more: set<Visit>, items: seq<Value>, others: seq<Value>)
    requires AllInHeap(h, items) && AllInHeap(h, others) && pairs <= more && AllAlike(h, pairs, items, others)
    ensures AllAlike(h, more, items, others)
  {
    forall i | 0 <= i < |items| ensures Alike(h, more, items[i], others[i]) {
      AlikeGrows(h, pairs, more, items[i], others[i]);
    }
  }

  lemma {:induction false} SupportGrows(h: Heap, pairs: set<Visit>, more: set<Visit>, p: Visit)
    requires WellFormed(h) && pairs <= more && Supported(h, pairs, p)
    ensures Supported(h, more, p)
  {
    var l, r := LeftOf(p), RightOf(p);
    if l in h.pointees && r in h.pointees {
      AlikeGrows(h, pairs, more, h.pointees[l], h.pointees[r]);
    }
    if l in h.entries && r in h.entries {
      forall i | 0 <= i < |h.entries[l]| ensures EntryFound(h, more, h.entries[l][i], h.entries[r]) {
        assert EntryFound(h, pairs, h.entries[l][i], h.entries[r]);
        AlikeGrows(h, pairs, more, h.entries[l][i].value, MapIndex(h.entries[r], h.entries[l][i].key));
      }
    }
    if l in h.elements && r in h.elements {
      AllAlikeGrows(h, pairs, more, h.elements[l], h.elements[r]);
    }
  }

  /** From pairs to more, only pairs were added whose referents are alike. */
  ghost predicate Extends(h: Heap, pairs: set<Visit>, more: set<Visit>)
    requires WellFormed(h)
  {
    pairs <= more <= Visits(h) && forall p <- more | p !in pairs :: Supported(h, more, p)
  }

  lemma {:induction false} ExtendsFurther(h: Heap, pairs: set<Visit>, more: set<Visit>, most: set<Visit>)
    requires WellFormed(h) && Extends(h, pairs, more) && Extends(h, more, most)
    ensures Extends(h, pairs, most)
  {
    forall p <- most | p !in pairs ensures Supported(h, most, p) {
      if p in more {
        SupportGrows(h, more, most, p);
      }
    }
  }

  /** The pair that was added first is supported once its referents are alike. */
  lemma {:induction false} ExtendsFromVisit(h: Heap, pairs: set<Visit>, p: Visit, begun: set<Visit>, more: set<Visit>)
    requires WellFormed(h) && begun == pairs + {p} && Extends(h, begun, more) && Supported(h, more, p)
    ensures Extends(h, pairs, more)
  {
    hide Supported, Visits;
  }

  lemma {:induction false} IsAVisit(h: Heap, left: Value, right: Value)
    requires WellFormed(h) && InHeap(h, left) && InHeap(h, right) && IsReference(left) && IsReference(right)
    requires TypeOf(left) == TypeOf(right) && LengthOf(left) == LengthOf(right)
    ensures var p := VisitOf(left, right); p in Visits(h) && LeftOf(p) == RefOf(left) && RightOf(p) == RefOf(right)
  {
    assert RefOf(left) in References(h) && RefOf(right) in References(h);
  }

  lemma {:induction false} FewerLeft(h: Heap, pairs: set<Visit>, more: set<Visit>)
    requires pairs <= more <= Visits(h)
    ensures |Visits(h) - more| <= |Visits(h) - pairs|
    ensures pairs != more ==> |Visits(h) - more| < |Visits(h) - pairs|
  {
    var left, fewer := Visits(h) - pairs, Visits(h) - more;
    SubsetSize(fewer, left);
    if pairs != more {
      var p :| p in more && p !in pairs;
      assert p in left && p !in fewer;
    }
  }

  lemma {:induction false} SubsetSize<T>(a: set<T>, b: set<T>)
    requires a <= b
    ensures |a| <= |b| && (a != b ==> |a| < |b|)
  {
    if a != {} {
      var x :| x in a;
      SubsetSize(a - {x}, b - {x});
    }
  }

  /** One comparison of two graphs, with the pairs it has visited. */
  class Comparison {
    const heap: Heap
    var visited: set<Visit>

    constructor (heap: Heap)
      ensures this.heap == heap && visited == {}
    {
      this.heap := heap;
      visited := {};
    }

    method IsVisited(left: Value, right: Value) returns (was: bool)
      requires IsReference(left) && IsReference(right)
      modifies this
      ensures was <==> VisitOf(left, right) in old(visited)
      ensures visited == old(visited) + {VisitOf(left, right)}
    {
      var visit := VisitOf(left, right);
      was := visit in visited;
      visited := visited + {visit};
    }

    ghost predicate Valid()
      reads this
    {
      WellFormed(heap) && visited <= Visits(heap)
    }

    ghost predicate Takes(left: Value, right: Value, known: set<Visit>) {
      WellFormed(heap) && InHeap(heap, left) && InHeap(heap, right) && Bisimulation(heap, known)
    }

    /** It ends on every heap. If it says yes, left and right are alike under the
        pairs visited, and so is whatever the pairs it has added refer to. It says
        yes whenever any bisimulation at all has left and right alike. */
    method IsSame(left: Value, right: Value, ghost known: set<Visit>) returns (same: bool)
      requires Valid() && Takes(left, right, known)
      modifies this
      ensures Valid() && old(visited) <= visited
      ensures same ==> Extends(heap, old(visited), visited) && Alike(heap, visited, left, right)
      ensures Alike(heap, known, left, right) ==> same
      decreases |Visits(heap) - visited|, left, 2
    {
      if left.Invalid? || right.Invalid? {
        return left.Invalid? && right.Invalid?;
      }
      if TypeOf(left) != TypeOf(right) {
        return false;
      }
      match left
      case Func(_, isNil) => same := isNil == right.isNil;
      case Float(_, number) => same := IsSameNumber(number, right.number);
      case Complex(_, re, im) => same := IsSameNumber(re, right.re) && IsSameNumber(im, right.im);
      case Interface(_, dynamic) => same := IsSame(dynamic, right.dynamic, known);
      case Pointer(_, _) => same := IsSamePointer(left, right, known);
      case Map(_, _) => same := IsSameMap(left, right, known);
      case Slice(_, _, _) => same := IsSameSlice(left, right, known);
      case Array(_, items) => same := IsSameElements(items, right.items, left, known);
      case Struct(_, _) => same := IsSameStruct(left, right, known);
      case Other(_, datum) => same := datum == right.datum;
    }

    method IsSamePointer(left: Value, right: Value, ghost known: set<Visit>) returns (same: bool)
      requires Valid() && Takes(left, right, known) && left.Pointer? && right.Pointer? && left.id == right.id
      modifies this
      ensures Valid() && old(visited) <= visited
      ensures same ==> Extends(heap, old(visited), visited) && Alike(heap, visited, left, right)
      ensures Alike(heap, known, left, right) ==> same
      decreases |Visits(heap) - visited|, left, 1
    {
      var p := VisitOf(left, right);
      IsAVisit(heap, left, right);
      hide Visits;
      same := IsVisited(left, right);
      if !same {
        ghost var begun := visited;
        FewerLeft(heap, old(visited), begun);
        same := IsSame(heap.pointees[RefOf(left)], heap.pointees[RefOf(right)], known);
        if same {
          ExtendsFromVisit(heap, old(visited), p, begun, visited);
        }
      } else {
        assert old(visited) == visited;
      }
    }

    method IsSameMap(left: Value, right: Value, ghost known: set<Visit>) returns (same: bool)
      requires Valid() && Takes(left, right, known) && left.Map? && right.Map? && left.id == right.id
      modifies this
      ensures Valid() && old(visited) <= visited
      ensures same ==> Extends(heap, old(visited), visited) && Alike(heap, visited, left, right)
      ensures Alike(heap, known, left, right) ==> same
      decreases |Visits(heap) - visited|, left, 1
    {
      var l, r := RefOf(left), RefOf(right);
      if (left.address == 0) != (right.address == 0) || |heap.entries[l]| != |heap.entries[r]| {
        return false;
      }
      var p := VisitOf(left, right);
      IsAVisit(heap, left, right);
      hide Visits;
      var was := IsVisited(left, right);
      if was {
        assert old(visited) == visited;
        return true;
      }
      ghost var begun := visited;
      FewerLeft(heap, old(visited), begun);
      same := IsSameEntries(left, right, known);
      if same {
        ExtendsFromVisit(heap, old(visited), p, begun, visited);
      }
    }

    function Indices(entries: seq<Entry>): set<int> { set i {:trigger entries[i]} | 0 <= i < |entries| }

    /** A map is ranged over in whatever order. */
    method IsSameEntries(left: Value, right: Value, ghost known: set<Visit>) returns (same: bool)
      requires Valid() && Takes(left, right, known) && left.Map? && right.Map? && left.id == right.id
      modifies this
      ensures Valid() && old(visited) <= visited
      ensures same ==> Extends(heap, old(visited), visited) && EntriesAlike(heap, visited, RefOf(left), RefOf(right))
      ensures EntriesAlike(heap, known, RefOf(left), RefOf(right)) ==> same
      decreases |Visits(heap) - visited| + 1, left, 0
    {
      hide Visits, Supported, Alike, Bisimulation;
      var entries, others := heap.entries[RefOf(left)], heap.entries[RefOf(right)];
      var rest := Indices(entries);
      same := true;
      while rest != {} && same
        invariant Valid() && old(visited) <= visited && rest <= Indices(entries)
        invariant same ==> Extends(heap, old(visited), visited)
        invariant same ==> forall i | 0 <= i < |entries| && i !in rest :: EntryFound(heap, visited, entries[i], others)
        invariant EntriesAlike(heap, known, RefOf(left), RefOf(right)) ==> same
        decreases rest, same
      {
        var i :| i in rest;
        rest := rest - {i};
        ghost var before := visited;
        MapIndexInHeap(heap, others, entries[i].key);
        FewerLeft(heap, old(visited), visited);
        same := IsSame(entries[i].value, MapIndex(others, entries[i].key), known);
        if same {
          ExtendsFurther(heap, old(visited), before, visited);
          assert EntryFound(heap, visited, entries[i], others);
          FoundGrows(heap, before, visited, entries, others, rest + {i});
        }
      }
    }

    method IsSameSlice(left: Value, right: Value, ghost known: set<Visit>) returns (same: bool)
      requires Valid() && Takes(left, right, known) && left.Slice? && right.Slice? && left.id == right.id
      modifies this
      ensures Valid() && old(visited) <= visited
      ensures same ==> Extends(heap, old(visited), visited) && Alike(heap, visited, left, right)
      ensures Alike(heap, known, left, right) ==> same
      decreases |Visits(heap) - visited|, left, 1
    {
      if (left.address == 0) != (right.address == 0) || left.length != right.length {
        return false;
      }
      var p := VisitOf(left, right);
      IsAVisit(heap, left, right);
      hide Visits;
      var was := IsVisited(left, right);
      if was {
        assert old(visited) == visited;
        return true;
      }
      ghost var begun := visited;
      FewerLeft(heap, old(visited), begun);
      same := IsSameElements(heap.elements[RefOf(left)], heap.elements[RefOf(right)], left, known);
      if same {
        ExtendsFromVisit(heap, old(visited), p, begun, visited);
      }
    }

    /** The elements of two arrays, or of two slices of the same length. owner is the
        array or the slice on the left. */
    method IsSameElements(items: seq<Value>, others: seq<Value>, ghost owner: Value, ghost known: set<Visit>)
      returns (same: bool)
      requires Valid() && Bisimulation(heap, known) && AllInHeap(heap, items) && AllInHeap(heap, others)
      requires |items| == |others| && (owner.Slice? || (owner.Array? && owner.items == items))
      modifies this
      ensures Valid() && old(visited) <= visited
      ensures same ==> Extends(heap, old(visited), visited) && AllAlike(heap, visited, items, others)
      ensures AllAlike(heap, known, items, others) ==> same
      decreases |Visits(heap) - visited| + (if owner.Slice? then 1 else 0), owner, 0
    {
      hide Visits, Supported;
      var i := 0;
      same := true;
      while i < |items| && same
        invariant 0 <= i <= |items| && Valid() && old(visited) <= visited
        invariant same ==> Extends(heap, old(visited), visited)
        invariant same ==> AllAlike(heap, visited, items[..i], others[..i])
        invariant AllAlike(heap, known, items, others) ==> same
        decreases |items| - i, same
      {
        ghost var before := visited;
        FewerLeft(heap, old(visited), visited);
        same := IsSame(items[i], others[i], known);
        if same {
          ExtendsFurther(heap, old(visited), before, visited);
          AllAlikeGrows(heap, before, visited, items[..i], others[..i]);
        }
        i := i + 1;
      }
    }

    method IsSameStruct(left: Value, right: Value, ghost known: set<Visit>) returns (same: bool)
      requires Valid() && Takes(left, right, known) && left.Struct? && right.Struct? && TypeOf(left) == TypeOf(right)
      modifies this
      ensures Valid() && old(visited) <= visited
      ensures same ==> Extends(heap, old(visited), visited) && Alike(heap, visited, left, right)
      ensures Alike(heap, known, left, right) ==> same
      decreases |Visits(heap) - visited|, left, 1
    {
      hide Visits, Supported;
      var i := 0;
      same := true;
      while i < |left.fields| && same
        invariant 0 <= i <= |left.fields| && Valid() && old(visited) <= visited
        invariant same ==> Extends(heap, old(visited), visited)
        invariant same ==> forall j | 0 <= j < i :: Alike(heap, visited, left.fields[j], right.fields[j])
        invariant Alike(heap, known, left, right) ==> same
        decreases |left.fields| - i, same
      {
        ghost var before := visited;
        FewerLeft(heap, old(visited), visited);
        same := IsSame(left.fields[i], right.fields[i], known);
        if same {
          ExtendsFurther(heap, old(visited), before, visited);
          forall j | 0 <= j < i ensures Alike(heap, visited, left.fields[j], right.fields[j]) {
            AlikeGrows(heap, before, visited, left.fields[j], right.fields[j]);
          }
        }
        i := i + 1;
      }
    }
  }

  lemma {:induction false} AnyBisimulation(h: Heap, left: Value, right: Value) returns (known: set<Visit>)
    requires WellFormed(h) && InHeap(h, left) && InHeap(h, right)
    ensures Bisimulation(h, known) && (Bisimilar(h, left, right) ==> Alike(h, known, left, right))
  {
    hide Alike, InHeap, Supported;
    known := {};
    if Bisimilar(h, left, right) {
      known :| Bisimulation(h, known) && Alike(h, known, left, right);
    }
  }

  lemma {:induction false} FoundBisimilar(h: Heap, pairs: set<Visit>, left: Value, right: Value)
    requires WellFormed(h) && InHeap(h, left) && InHeap(h, right)
    requires Extends(h, {}, pairs) && Alike(h, pairs, left, right)
    ensures Bisimilar(h, left, right)
  {
    hide Alike, InHeap;
    assert Bisimulation(h, pairs);
  }

  /** isSame, begun with nothing visited, says yes exactly when the graphs are
      bisimilar. */
  method AreSame(h: Heap, left: Value, right: Value) returns (same: bool)
    requires WellFormed(h) && InHeap(h, left) && InHeap(h, right)
    ensures same <==> Bisimilar(h, left, right)
  {
    ghost var known := AnyBisimulation(h, left, right);
    hide Alike, InHeap, Supported, Visits, Bisimilar;
    var comparison := new Comparison(h);
    same := comparison.IsSame(left, right, known);
    if same {
      FoundBisimilar(h, comparison.visited, left, right);
    }
  }

  /** How a state is built, as far as that can be seen (stateShape). */
  datatype Shape = Shape(
    source: nat, initial: Value, evolved: seq<string>, ignored: seq<string>, upcasted: seq<string>, fromLatest: string)

  /** A shape equals itself whatever its initial value holds. */
  method ShapesEqual(h: Heap, left: Shape, right: Shape) returns (areEqual: bool)
    requires WellFormed(h) && InHeap(h, left.initial) && InHeap(h, right.initial)
    ensures left.source == right.source ==> areEqual
    ensures left.source != right.source ==> (areEqual <==>
      Bisimilar(h, left.initial, right.initial) && left == right.(source := left.source, initial := left.initial))
  {
    if left.source == right.source {
      return true;
    }
    areEqual := AreSame(h, left.initial, right.initial);
    areEqual := areEqual && left.evolved == right.evolved && left.ignored == right.ignored &&
      left.upcasted == right.upcasted && left.fromLatest == right.fromLatest;
  }

  // ----- Which graphs equal themselves -----

  predicate RefersInto(v: Value, refs: set<Ref>) {
    match v
    case Interface(_, dynamic) => RefersInto(dynamic, refs)
    case Array(_, items) => forall i | 0 <= i < |items| :: RefersInto(items[i], refs)
    case Struct(_, fields) => forall i | 0 <= i < |fields| :: RefersInto(fields[i], refs)
    case _ => IsReference(v) ==> RefOf(v) in refs
  }

  /** What ref refers to refers into refs, and a map's keys equal themselves, which
      a NaN and whatever holds one does not in Go. */
  ghost predicate IsClosedAt(h: Heap, refs: set<Ref>, ref: Ref) {
    && (ref in h.pointees ==> RefersInto(h.pointees[ref], refs))
    && (ref in h.elements ==> forall i | 0 <= i < |h.elements[ref]| :: RefersInto(h.elements[ref][i], refs))
    && (ref in h.entries ==> forall i | 0 <= i < |h.entries[ref]| :: EntryRefersInto(h.entries[ref][i], refs))
  }

  predicate EntryRefersInto(entry: Entry, refs: set<Ref>) {
    RefersInto(entry.value, refs) && GoEqual(entry.key, entry.key)
  }

  ghost predicate Closed(h: Heap, refs: set<Ref>) { forall ref <- refs :: IsClosedAt(h, refs, ref) }

  /** Following references from v, one never comes to a map with a NaN key. */
  ghost predicate ReachesNoNaNKey(h: Heap, v: Value) {
    exists refs :: RefersInto(v, refs) && Closed(h, refs)
  }

  /** A key that equals itself finds its own entry, and one that does not finds none. */
  lemma {:induction false} KeyFindsItsEntry(entries: seq<Entry>, i: nat)
    requires DistinctKeys(entries) && i < |entries|
    ensures MapIndex(entries, entries[i].key) ==
      if GoEqual(entries[i].key, entries[i].key) then entries[i].value else Invalid
  {
    KeyFoundFrom(entries, i, 0);
  }

  lemma {:induction false} KeyFoundFrom(entries: seq<Entry>, i: nat, from: nat)
    requires DistinctKeys(entries) && i < |entries| && from <= |entries|
    ensures MapIndex(entries[from..], entries[i].key) ==
      if from <= i && GoEqual(entries[i].key, entries[i].key) then entries[i].value else Invalid
    decreases |entries| - from
  {
    if from < |entries| {
      KeyFoundFrom(entries, i, from + 1);
      assert entries[from..][1..] == entries[from + 1..];
    }
  }

  function Diagonal(refs: set<Ref>): set<Visit> {
    set ref <- refs :: Visit(ref.address, ref.address, ref.length, ref.valueType)
  }

  lemma {:induction false} AlikeItself(h: Heap, v: Value, refs: set<Ref>)
    requires InHeap(h, v) && RefersInto(v, refs)
    ensures Alike(h, Diagonal(refs), v, v)
  {
    match v
    case Interface(_, dynamic) => AlikeItself(h, dynamic, refs);
    case Array(_, items) =>
      forall i | 0 <= i < |items| ensures Alike(h, Diagonal(refs), items[i], items[i]) {
        AlikeItself(h, items[i], refs);
      }
    case Struct(_, fields) =>
      forall i | 0 <= i < |fields| ensures Alike(h, Diagonal(refs), fields[i], fields[i]) {
        AlikeItself(h, fields[i], refs);
      }
    case Pointer(_, _) => assert RefOf(v) in refs;
    case Map(_, _) => assert RefOf(v) in refs;
    case Slice(_, _, _) => assert RefOf(v) in refs;
    case _ =>
  }

  lemma {:induction false} DiagonalIsSupported(h: Heap, refs: set<Ref>, ref: Ref)
    requires WellFormed(h) && Closed(h, refs) && ref in refs
    ensures Supported(h, Diagonal(refs), Visit(ref.address, ref.address, ref.length, ref.valueType))
  {
    hide Diagonal;
    var pairs := Diagonal(refs);
    if ref in h.pointees {
      AlikeItself(h, h.pointees[ref], refs);
    }
    if ref in h.elements {
      forall i | 0 <= i < |h.elements[ref]| ensures Alike(h, pairs, h.elements[ref][i], h.elements[ref][i]) {
        AlikeItself(h, h.elements[ref][i], refs);
      }
    }
    if ref in h.entries {
      forall i | 0 <= i < |h.entries[ref]| ensures EntryFound(h, pairs, h.entries[ref][i], h.entries[ref]) {
        assert EntryRefersInto(h.entries[ref][i], refs);
        KeyFindsItsEntry(h.entries[ref], i);
        AlikeItself(h, h.entries[ref][i].value, refs);
      }
    }
  }

  function OwnRefs(pairs: set<Visit>): set<Ref> { set p <- pairs | p.left == p.right :: LeftOf(p) }

  lemma {:induction false} AlikeRefersInto(h: Heap, v: Value, pairs: set<Visit>)
    requires InHeap(h, v) && Alike(h, pairs, v, v)
    ensures RefersInto(v, OwnRefs(pairs))
  {
    match v
    case Interface(_, dynamic) => AlikeRefersInto(h, dynamic, pairs);
    case Array(_, items) =>
      forall i | 0 <= i < |items| ensures RefersInto(items[i], OwnRefs(pairs)) {
        AlikeRefersInto(h, items[i], pairs);
      }
    case Struct(_, fields) =>
      forall i | 0 <= i < |fields| ensures RefersInto(fields[i], OwnRefs(pairs)) {
        AlikeRefersInto(h, fields[i], pairs);
      }
    case Pointer(_, _) => assert LeftOf(VisitOf(v, v)) == RefOf(v);
    case Map(_, _) => assert LeftOf(VisitOf(v, v)) == RefOf(v);
    case Slice(_, _, _) => assert LeftOf(VisitOf(v, v)) == RefOf(v);
    case _ =>
  }

  lemma {:induction false} OwnRefsAreClosed(h: Heap, pairs: set<Visit>, ref: Ref)
    requires WellFormed(h) && Bisimulation(h, pairs) && ref in OwnRefs(pairs)
    ensures IsClosedAt(h, OwnRefs(pairs), ref)
  {
    var p :| p in pairs && p.left == p.right && LeftOf(p) == ref;
    assert Supported(h, pairs, p) && RightOf(p) == ref;
    hide OwnRefs;
    if ref in h.pointees {
      AlikeRefersInto(h, h.pointees[ref], pairs);
    }
    if ref in h.elements {
      forall i | 0 <= i < |h.elements[ref]| ensures RefersInto(h.elements[ref][i], OwnRefs(pairs)) {
        AlikeRefersInto(h, h.elements[ref][i], pairs);
      }
    }
    if ref in h.entries {
      forall i | 0 <= i < |h.entries[ref]|
        ensures EntryRefersInto(h.entries[ref][i], OwnRefs(pairs))
      {
        assert EntryFound(h, pairs, h.entries[ref][i], h.entries[ref]);
        KeyFindsItsEntry(h.entries[ref], i);
        AlikeRefersInto(h, h.entries[ref][i].value, pairs);
      }
    }
  }

  /** Exactly the graphs that reach no NaN key equal themselves, cyclic or not,
      whatever functions and NaNs they hold elsewhere. */
  lemma {:induction false} SameAsItself(h: Heap, v: Value)
    requires WellFormed(h) && InHeap(h, v)
    ensures Bisimilar(h, v, v) <==> ReachesNoNaNKey(h, v)
  {
    if ReachesNoNaNKey(h, v) {
      var refs :| RefersInto(v, refs) && Closed(h, refs);
      AlikeItself(h, v, refs);
      forall p <- Diagonal(refs) ensures Supported(h, Diagonal(refs), p) {
        var ref: Ref :| ref in refs && p == Visit(ref.address, ref.address, ref.length, ref.valueType);
        DiagonalIsSupported(h, refs, ref);
      }
    }
    if Bisimilar(h, v, v) {
      var pairs :| Bisimulation(h, pairs) && Alike(h, pairs, v, v);
      AlikeRefersInto(h, v, pairs);
      forall ref <- OwnRefs(pairs) ensures IsClosedAt(h, OwnRefs(pairs), ref) {
        OwnRefsAreClosed(h, pairs, ref);
      }
    }
  }
}
