/** Which types have values that share a text: exactly those with an interface in a
    place where a value can be, since the name of the type that an interface holds
    is written right before the value (architecturekit/httpapi/spell_out.go). */
module SpellInterfaces {
  import opened SpellTexts
  import opened SpellTrees

  ghost predicate HasValues(types: Types, id: nat) { exists t :: HasType(types, id, t) }

  /** Every field of the struct has a type with values. */
  ghost predicate FieldsHaveValues(types: Types, fields: seq<FieldType>) {
    forall i | 0 <= i < |fields| :: HasValues(types, fields[i].value)
  }

  /** Within so many steps from the type to a part of its values, there is an
      interface. */
  ghost predicate ReachesInterface(types: Types, id: nat, steps: nat)
    decreases steps, 0
  {
    id in types &&
    match types[id]
    case InterfaceType => true
    case PointerType(target) => steps > 0 && ReachesInterface(types, target, steps - 1)
    case SliceType(item) => steps > 0 && ReachesInterface(types, item, steps - 1)
    case ArrayType(size, item) => steps > 0 && size > 0 && ReachesInterface(types, item, steps - 1)
    case StructType(fields) =>
      steps > 0 && FieldsHaveValues(types, fields) && FieldReachesInterface(types, fields, steps - 1)
    case MapType(_, element) => steps > 0 && ReachesInterface(types, element, steps - 1)
    case _ => false
  }

  ghost predicate FieldReachesInterface(types: Types, fields: seq<FieldType>, steps: nat)
    decreases steps, 1
  {
    exists i | 0 <= i < |fields| :: ReachesInterface(types, fields[i].value, steps)
  }

  ghost predicate HasInterface(types: Types, id: nat) { exists steps: nat :: ReachesInterface(types, id, steps) }

  // ----- With an interface, two values share a text -----

  /** Two different values of the type that have the same text. */
  ghost predicate RunTogether(shows: char -> bool, types: Types, id: nat, t: Tree, u: Tree) {
    HasType(types, id, t) && HasType(types, id, u) && t != u && Print(shows, t) == Print(shows, u)
  }

  /** The int 83 and the int8 3 in an interface. */
  lemma {:induction false} NumbersRunTogether(shows: char -> bool)
    ensures Print(shows, Interface("int", Number(83))) == Print(shows, Interface("int8", Number(3))) == "int83"
  {
    assert FormatNumber(83) == "83" && FormatNumber(3) == "3";
  }

  lemma {:induction false} InterfacesRunTogether(shows: char -> bool, types: Types, id: nat, steps: nat)
    returns (t: Tree, u: Tree)
    requires ReachesInterface(types, id, steps)
    ensures RunTogether(shows, types, id, t, u)
    decreases steps, 1
  {
    match types[id]
    case InterfaceType =>
      NumbersRunTogether(shows);
      t, u := Interface("int", Number(83)), Interface("int8", Number(3));
    case PointerType(target) =>
      var a, b := InterfacesRunTogether(shows, types, target, steps - 1);
      t, u := Pointer(a), Pointer(b);
    case SliceType(item) =>
      var a, b := InterfacesRunTogether(shows, types, item, steps - 1);
      t, u := ListsRunTogether(shows, types, item, a, b, 1);
    case ArrayType(size, item) =>
      var a, b := InterfacesRunTogether(shows, types, item, steps - 1);
      t, u := ListsRunTogether(shows, types, item, a, b, size);
    case StructType(fields) =>
      var i :| 0 <= i < |fields| && ReachesInterface(types, fields[i].value, steps - 1);
      var a, b := InterfacesRunTogether(shows, types, fields[i].value, steps - 1);
      t, u := StructsRunTogether(shows, types, id, i, a, b);
    case MapType(kind, element) =>
      var a, b := InterfacesRunTogether(shows, types, element, steps - 1);
      t, u := TablesRunTogether(shows, types, id, a, b);
  }

  lemma {:induction false} ListsRunTogether(
      shows: char -> bool, types: Types, item: nat, a: Tree, b: Tree, size: nat)
    returns (t: Tree, u: Tree)
    requires RunTogether(shows, types, item, a, b) && size > 0
    ensures t.List? && u.List? && |t.items| == |u.items| == size && t != u && Print(shows, t) == Print(shows, u)
    ensures forall i | 0 <= i < size :: HasType(types, item, t.items[i]) && HasType(types, item, u.items[i])
  {
    t, u := List(seq(size, i => a)), List(seq(size, i => b));
    assert t.items[0] == a && u.items[0] == b;
    hide Print, HasType;
    SameItemTextsSameText(shows, t, u);
  }

  lemma {:induction false} SameItemTextsSameText(shows: char -> bool, t: Tree, u: Tree)
    requires t.List? && u.List? && |t.items| == |u.items|
    requires forall i | 0 <= i < |t.items| :: Print(shows, t.items[i]) == Print(shows, u.items[i])
    ensures Print(shows, t) == Print(shows, u)
  {
    hide Commas;
    var n := |t.items|;
    assert seq(n, i requires 0 <= i < n => Print(shows, t.items[i]))
      == seq(n, i requires 0 <= i < n => Print(shows, u.items[i]));
  }

  lemma {:induction false} StructsRunTogether(
      shows: char -> bool, types: Types, id: nat, at: nat, a: Tree, b: Tree)
    returns (t: Tree, u: Tree)
    requires id in types && types[id].StructType? && at < |types[id].fields|
    requires FieldsHaveValues(types, types[id].fields) && RunTogether(shows, types, types[id].fields[at].value, a, b)
    ensures RunTogether(shows, types, id, t, u)
  {
    var fields := types[id].fields;
    var some := AnyFields(types, fields, |fields|);
    t, u := Struct(some[at := Field(fields[at].name, a)]), Struct(some[at := Field(fields[at].name, b)]);
    assert t.fields[at].value == a && u.fields[at].value == b;
    WithFieldHasType(types, id, some, at, a);
    WithFieldHasType(types, id, some, at, b);
    hide Print, HasType;
    SameFieldTextsSameText(shows, t, u);
  }

  /** The struct with the one field set has the type. */
  lemma {:induction false} WithFieldHasType(types: Types, id: nat, some: seq<Field>, at: nat, a: Tree)
    requires id in types && types[id].StructType? && at < |types[id].fields| == |some|
    requires forall i | 0 <= i < |some| ::
      some[i].name == types[id].fields[i].name && HasType(types, types[id].fields[i].value, some[i].value)
    requires HasType(types, types[id].fields[at].value, a)
    ensures HasType(types, id, Struct(some[at := Field(types[id].fields[at].name, a)]))
  {
    var written := Field(types[id].fields[at].name, a);
    var t := Struct(some[at := written]);
    assert forall i | 0 <= i < |some| :: t.fields[i] == if i == at then written else some[i];
  }

  lemma {:induction false} SameFieldTextsSameText(shows: char -> bool, t: Tree, u: Tree)
    requires t.Struct? && u.Struct? && |t.fields| == |u.fields|
    requires forall i | 0 <= i < |t.fields| ::
      t.fields[i].name == u.fields[i].name && Print(shows, t.fields[i].value) == Print(shows, u.fields[i].value)
    ensures Print(shows, t) == Print(shows, u)
  {
    hide Commas;
    var n := |t.fields|;
    assert seq(n, i requires 0 <= i < n => t.fields[i].name + ":" + Print(shows, t.fields[i].value))
      == seq(n, i requires 0 <= i < n => u.fields[i].name + ":" + Print(shows, u.fields[i].value));
  }

  lemma {:induction false} AnyFields(types: Types, fields: seq<FieldType>, n: nat) returns (some: seq<Field>)
    requires FieldsHaveValues(types, fields) && n <= |fields|
    ensures |some| == n
    ensures forall i | 0 <= i < n :: some[i].name == fields[i].name && HasType(types, fields[i].value, some[i].value)
  {
    hide HasType;
    some := [];
    if n > 0 {
      some := AnyFields(types, fields, n - 1);
      assert HasValues(types, fields[n - 1].value);
      var t :| HasType(types, fields[n - 1].value, t);
      some := some + [Field(fields[n - 1].name, t)];
    }
  }

  function KeyOfKind(kind: KeyKind): Key {
    match kind
    case TextKeys => TextKey([])
    case NumberKeys => NumberKey(0)
    case FlagKeys => FlagKey(true)
  }

  lemma {:induction false} TablesRunTogether(shows: char -> bool, types: Types, id: nat, a: Tree, b: Tree)
    returns (t: Tree, u: Tree)
    requires id in types && types[id].MapType? && RunTogether(shows, types, types[id].element, a, b)
    ensures RunTogether(shows, types, id, t, u)
  {
    var k := KeyOfKind(types[id].keys);
    t, u := Table(map[k := a]), Table(map[k := b]);
    assert t.entries[k] == a && u.entries[k] == b;
    assert HasType(types, id, t) && HasType(types, id, u);
    hide Print, HasType;
    SamePiecesSameText(shows, t, u);
  }

  lemma {:induction false} SamePiecesSameText(shows: char -> bool, t: Tree, u: Tree)
    requires t.Table? && u.Table? && t.entries.Keys == u.entries.Keys
    requires forall k <- t.entries :: Print(shows, t.entries[k]) == Print(shows, u.entries[k])
    ensures Print(shows, t) == Print(shows, u)
  {
    PrintsTable(shows, t);
    PrintsTable(shows, u);
    hide InOrder, Commas, KeyText, Print;
    assert TablePieces(shows, t.entries) == TablePieces(shows, u.entries);
  }

  // ----- Without one, every text tells its value -----

  /** A value with something in an interface shows where its type has one. */
  lemma {:induction false} HeldInInterface(types: Types, id: nat, t: Tree) returns (steps: nat)
    requires HasType(types, id, t) && !IsBare(t)
    ensures ReachesInterface(types, id, steps)
    decreases t
  {
    match types[id]
    case InterfaceType => steps := 0;
    case PointerType(target) =>
      var n := HeldInInterface(types, target, t.target);
      steps := n + 1;
    case SliceType(item) =>
      var i :| 0 <= i < |t.items| && !IsBare(t.items[i]);
      var n := HeldInInterface(types, item, t.items[i]);
      steps := n + 1;
    case ArrayType(_, item) =>
      var i :| 0 <= i < |t.items| && !IsBare(t.items[i]);
      var n := HeldInInterface(types, item, t.items[i]);
      steps := n + 1;
    case StructType(fields) =>
      var i :| 0 <= i < |t.fields| && !IsBare(t.fields[i].value);
      var n := HeldInInterface(types, fields[i].value, t.fields[i].value);
      assert forall j | 0 <= j < |fields| :: HasType(types, fields[j].value, t.fields[j].value);
      steps := n + 1;
    case MapType(_, element) =>
      var k :| k in t.entries && !IsBare(t.entries[k]);
      var n := HeldInInterface(types, element, t.entries[k]);
      steps := n + 1;
    case _ =>
  }

  /** Equal texts mean equal values of the type. */
  ghost predicate TextsTellValues(shows: char -> bool, types: Types, id: nat) {
    forall t, u | HasType(types, id, t) && HasType(types, id, u) && Print(shows, t) == Print(shows, u) :: t == u
  }

  /** The texts of a type tell its values apart exactly if there is no interface where
      a value of it can have a part. */
  lemma {:induction false} TextsTellValuesExactly(shows: char -> bool, types: Types, id: nat)
    ensures TextsTellValues(shows, types, id) <==> !HasInterface(types, id)
  {
    if HasInterface(types, id) {
      var steps: nat :| ReachesInterface(types, id, steps);
      var t, u := InterfacesRunTogether(shows, types, id, steps);
    } else {
      forall t, u | HasType(types, id, t) && HasType(types, id, u) && Print(shows, t) == Print(shows, u)
        ensures t == u
      {
        HoldsNothing(types, id, t);
        HoldsNothing(types, id, u);
        TextTellsValues(shows, types, id, t, u);
      }
    }
  }

  lemma {:induction false} HoldsNothing(types: Types, id: nat, t: Tree)
    requires HasType(types, id, t) && !HasInterface(types, id)
    ensures IsBare(t)
  {
    hide HasType, IsBare, ReachesInterface;
    if !IsBare(t) {
      var steps := HeldInInterface(types, id, t);
    }
  }
}
