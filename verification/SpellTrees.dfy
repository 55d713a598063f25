/** The text that spellOut writes for a value whose references are followed, and
    that no two values of one type share a text
    (architecturekit/httpapi/spell_out.go). */
module SpellTrees {
  import opened SpellTexts

  /** A value with its pointers followed. A float and a complex number stand for
      themselves by the shortest text that parses back to them, which is what is
      written. */
  datatype Tree =
    | Nil
    | Flag(flag: bool)
    | Number(number: int)
    | Float(text: string)
    | Complex(text: string)
    | Text(units: seq<Unit>)
    | Pointer(target: Tree)
    | List(items: seq<Tree>)
    | Struct(fields: seq<Field>)
    | Table(entries: map<Key, Tree>)
    | Interface(typeName: string, held: Tree)

  datatype Field = Field(name: string, value: Tree)

  /** A type names the types of its parts, so that it may be recursive. */
  datatype Type =
    | FlagType
    | NumberType
    | FloatType
    | ComplexType
    | TextType
    | PointerType(target: nat)
    | SliceType(item: nat)
    | ArrayType(size: nat, item: nat)
    | StructType(fields: seq<FieldType>)
    | MapType(keys: KeyKind, element: nat)
    | InterfaceType

  datatype FieldType = FieldType(name: string, value: nat)

  type Types = map<nat, Type>

  predicate HasType(types: Types, id: nat, t: Tree)
    decreases t
  {
    id in types &&
    match types[id]
    case FlagType => t.Flag?
    case NumberType => t.Number?
    case FloatType => t.Float? && IsFloatText(t.text)
    case ComplexType => t.Complex? && IsComplexText(t.text)
    case TextType => t.Text? && AreUnits(t.units)
    case PointerType(target) => t.Nil? || (t.Pointer? && HasType(types, target, t.target))
    case SliceType(item) => t.Nil? || (t.List? && forall i | 0 <= i < |t.items| :: HasType(types, item, t.items[i]))
    case ArrayType(size, item) =>
      t.List? && |t.items| == size && forall i | 0 <= i < |t.items| :: HasType(types, item, t.items[i])
    case StructType(fields) =>
      && t.Struct? && |t.fields| == |fields|
      && forall i | 0 <= i < |fields| ::
           t.fields[i].name == fields[i].name && HasType(types, fields[i].value, t.fields[i].value)
    case MapType(kind, element) =>
      t.Nil? || (t.Table? && forall k <- t.entries :: OfKind(kind, k) && HasType(types, element, t.entries[k]))
    case InterfaceType => t.Nil? || t.Interface?
  }

  /** No interface in it holds a value. */
  predicate IsBare(t: Tree) {
    match t
    case Pointer(target) => IsBare(target)
    case List(items) => forall i | 0 <= i < |items| :: IsBare(items[i])
    case Struct(fields) => forall i | 0 <= i < |fields| :: IsBare(fields[i].value)
    case Table(entries) => forall k <- entries :: IsBare(entries[k])
    case Interface(_, _) => false
    case _ => true
  }

  // ----- The order of a map's entries -----

  ghost predicate IsLeast(shows: char -> bool, keys: set<Key>, k: Key) {
    k in keys && forall other <- keys | other != k :: Less(KeyText(shows, k), KeyText(shows, other))
  }

  /** The keys of a map, ordered by how they are written. */
  ghost function InOrder(shows: char -> bool, keys: set<Key>): seq<Key>
    decreases |keys|
  {
    if exists k :: IsLeast(shows, keys, k) then
      var k :| IsLeast(shows, keys, k);
      [k] + InOrder(shows, keys - {k})
    else []
  }

  lemma {:induction false} LeastExists(shows: char -> bool, kind: KeyKind, keys: set<Key>)
    requires AllOfKind(kind, keys) && keys != {}
    ensures exists k :: IsLeast(shows, keys, k)
    decreases |keys|
  {
    hide OfKind, KeyText;
    var some :| some in keys;
    var others := keys - {some};
    if others == {} {
      assert keys == {some};
      assert IsLeast(shows, keys, some);
    } else {
      LeastExists(shows, kind, others);
      var k :| IsLeast(shows, others, k);
      KeyTextsSeparable(shows, kind, some, k);
      LessIsTotal(KeyText(shows, some), KeyText(shows, k));
      if Less(KeyText(shows, some), KeyText(shows, k)) {
        forall other <- keys | other != some ensures Less(KeyText(shows, some), KeyText(shows, other)) {
          assert other in others;
          if other != k {
            LessIsTransitive(KeyText(shows, some), KeyText(shows, k), KeyText(shows, other));
          }
        }
        assert IsLeast(shows, keys, some);
      } else {
        assert IsLeast(shows, keys, k);
      }
    }
  }

  lemma {:induction false} InOrderHoldsAll(shows: char -> bool, kind: KeyKind, keys: set<Key>)
    requires AllOfKind(kind, keys)
    ensures |InOrder(shows, keys)| == |keys| && forall k :: k in InOrder(shows, keys) <==> k in keys
    decreases |keys|
  {
    if keys != {} {
      LeastExists(shows, kind, keys);
      var k :| IsLeast(shows, keys, k) && InOrder(shows, keys) == [k] + InOrder(shows, keys - {k});
      InOrderHoldsAll(shows, kind, keys - {k});
    }
  }

  ghost predicate Ascending(shows: char -> bool, keys: seq<Key>) {
    forall i, j | 0 <= i < j < |keys| :: Less(KeyText(shows, keys[i]), KeyText(shows, keys[j]))
  }

  lemma {:induction false} LeastIsUnique(shows: char -> bool, keys: set<Key>, k: Key, l: Key)
    requires IsLeast(shows, keys, k) && IsLeast(shows, keys, l)
    ensures k == l
  {
    hide KeyText;
    LessIsTotal(KeyText(shows, k), KeyText(shows, l));
  }

  /** There is only one way to put the keys of a map in order. */
  lemma {:induction false} InOrderIsUnique(shows: char -> bool, keys: set<Key>, list: seq<Key>)
    requires Ascending(shows, list) && forall k :: k in list <==> k in keys
    ensures list == InOrder(shows, keys)
    decreases |list|
  {
    hide KeyText;
    if list == [] {
      assert keys == {};
    } else {
      var first, rest := list[0], list[1..];
      forall other <- keys | other != first ensures Less(KeyText(shows, first), KeyText(shows, other)) {
        var i :| 0 <= i < |list| && list[i] == other;
      }
      assert IsLeast(shows, keys, first);
      var k :| IsLeast(shows, keys, k) && InOrder(shows, keys) == [k] + InOrder(shows, keys - {k});
      LeastIsUnique(shows, keys, first, k);
      forall i | 0 <= i < |rest| ensures rest[i] != first {
        LessIsTotal(KeyText(shows, first), KeyText(shows, first));
        assert rest[i] == list[i + 1];
      }
      assert forall other :: other in rest <==> other in keys - {first};
      InOrderIsUnique(shows, keys - {first}, rest);
    }
  }

  // ----- The text of a value -----

  ghost function Print(shows: char -> bool, t: Tree): string {
    match t
    case Nil => "nil"
    case Flag(flag) => FormatFlag(flag)
    case Number(n) => FormatNumber(n)
    case Float(text) => text
    case Complex(text) => text
    case Text(units) => Quote(shows, units)
    case Pointer(target) => "&" + Print(shows, target)
    case List(items) => "[" + Commas(seq(|items|, i requires 0 <= i < |items| => Print(shows, items[i]))) + "]"
    case Struct(fields) =>
      "{" +
      Commas(seq(|fields|, i requires 0 <= i < |fields| => fields[i].name + ":" + Print(shows, fields[i].value))) +
      "}"
    case Table(entries) =>
      var keys := InOrder(shows, entries.Keys);
      "{" + Commas(seq(|keys|, i requires 0 <= i < |keys| =>
        if keys[i] in entries then KeyText(shows, keys[i]) + ":" + Print(shows, entries[keys[i]]) else "")) + "}"
    case Interface(typeName, held) => typeName + Print(shows, held)
  }

  /** Two texts neither of which is taken for the other, and which tell what they
      stand for. */
  ghost predicate TellsApart(shows: char -> bool, t: Tree, u: Tree) {
    Separable(Print(shows, t), Print(shows, u)) && (Print(shows, t) == Print(shows, u) ==> t == u)
  }

  lemma {:induction false} HeadsDiffer(a: string, b: string)
    requires a != "" && b != "" && a[0] != b[0]
    ensures Separable(a, b) && a != b
  {
  }

  lemma {:induction false} GroupsSeparable(open: char, close: char, p: seq<string>, q: seq<string>)
    requires PairwiseSeparable(p, q) && (close == ']' || close == '}')
    requires |p| == |q| || forall piece | piece in p || piece in q :: IsProper(piece)
    ensures Separable([open] + Commas(p) + [close], [open] + Commas(q) + [close])
    ensures [open] + Commas(p) + [close] == [open] + Commas(q) + [close] ==> p == q
  {
    hide Commas, IsProper, Separable;
    var l, r := [open] + Commas(p) + [close], [open] + Commas(q) + [close];
    forall x: string, y: string | l + x == r + y ensures l == r && p == q {
      assert (l + x)[1..] == Commas(p) + [close] + x && (r + y)[1..] == Commas(q) + [close] + y;
      GroupSplit(p, q, close, x, y);
    }
    PrefixFreeIsSeparable(l, r);
    if l == r {
      assert l + "" == r + "";
    }
  }

  /** Two values of one type that hold nothing in an interface have the same text only
      if they are equal, and neither text goes on as if the other had ended. */
  lemma {:induction false} TextTellsValues(shows: char -> bool, types: Types, id: nat, t: Tree, u: Tree)
    requires IsBare(t) && IsBare(u) && HasType(types, id, t) && HasType(types, id, u)
    ensures TellsApart(shows, t, u)
    decreases t
  {
    if t.Nil? || u.Nil? {
      NilTold(shows, types, id, t, u);
      return;
    }
    hide Print, TellsApart, IsBare;
    match types[id]
    case PointerType(target) => PointersTold(shows, types, id, t, u);
    case SliceType(item) => ListsTold(shows, types, item, t, u);
    case ArrayType(_, item) => ListsTold(shows, types, item, t, u);
    case StructType(_) => StructsTold(shows, types, id, t, u);
    case MapType(kind, element) => TablesTold(shows, types, kind, element, t, u);
    case _ => LeavesTold(shows, types, id, t, u);
  }

  lemma {:induction false} LeavesTold(shows: char -> bool, types: Types, id: nat, t: Tree, u: Tree)
    requires IsBare(t) && IsBare(u) && HasType(types, id, t) && HasType(types, id, u) && !t.Nil? && !u.Nil?
    requires !t.Pointer? && !t.List? && !t.Struct? && !t.Table?
    ensures TellsApart(shows, t, u)
  {
    match types[id]
    case FlagType => KeyTextsSeparable(shows, FlagKeys, FlagKey(t.flag), FlagKey(u.flag));
    case NumberType => KeyTextsSeparable(shows, NumberKeys, NumberKey(t.number), NumberKey(u.number));
    case TextType => QuotesSeparable(shows, t.units, u.units);
    case InterfaceType =>
    case _ => FloatsTold(shows, types, id, t, u);
    hide Separable, HasType, Quote, FormatNumber;
  }

  lemma {:induction false} FloatsTold(shows: char -> bool, types: Types, id: nat, t: Tree, u: Tree)
    requires HasType(types, id, t) && HasType(types, id, u) && (types[id].FloatType? || types[id].ComplexType?)
    ensures TellsApart(shows, t, u)
  {
    if types[id].FloatType? {
      assert HasNoStop(t.text) && HasNoStop(u.text);
    }
    hide HasType;
  }

  lemma {:induction false} PointersTold(shows: char -> bool, types: Types, id: nat, t: Tree, u: Tree)
    requires IsBare(t) && IsBare(u) && HasType(types, id, t) && HasType(types, id, u) && types[id].PointerType?
    requires t.Pointer? && u.Pointer?
    ensures TellsApart(shows, t, u)
    decreases t, 0
  {
    TextTellsValues(shows, types, types[id].target, t.target, u.target);
    BehindOne('&', Print(shows, t.target), Print(shows, u.target));
  }

  lemma {:induction false} BehindOne(c: char, a: string, b: string)
    requires Separable(a, b)
    ensures Separable([c] + a, [c] + b) && ([c] + a == [c] + b ==> a == b)
  {
    assert ([c] + a)[1..] == a && ([c] + b)[1..] == b;
    if |a| < |b| {
      assert ([c] + b)[..|a| + 1] == [c] + b[..|a|];
    } else if |b| < |a| {
      assert ([c] + a)[..|b| + 1] == [c] + a[..|b|];
    }
  }

  lemma {:induction false} NilTold(shows: char -> bool, types: Types, id: nat, t: Tree, u: Tree)
    requires IsBare(t) && IsBare(u) && HasType(types, id, t) && HasType(types, id, u) && (t.Nil? || u.Nil?)
    ensures TellsApart(shows, t, u)
  {
    if t != u {
      var other := if t.Nil? then u else t;
      assert Print(shows, other)[0] == if other.Pointer? then '&' else if other.List? then '[' else '{';
      HeadsDiffer(Print(shows, t), Print(shows, u));
    }
  }

  lemma {:induction false} ListsTold(shows: char -> bool, types: Types, item: nat, t: Tree, u: Tree)
    requires IsBare(t) && IsBare(u) && t.List? && u.List?
    requires forall i | 0 <= i < |t.items| :: HasType(types, item, t.items[i])
    requires forall i | 0 <= i < |u.items| :: HasType(types, item, u.items[i])
    ensures TellsApart(shows, t, u)
    decreases t, 0
  {
    var p := seq(|t.items|, i requires 0 <= i < |t.items| => Print(shows, t.items[i]));
    var q := seq(|u.items|, i requires 0 <= i < |u.items| => Print(shows, u.items[i]));
    forall i | 0 <= i < |p| && i < |q| ensures Separable(p[i], q[i]) && (p[i] == q[i] ==> t.items[i] == u.items[i]) {
      TextTellsValues(shows, types, item, t.items[i], u.items[i]);
    }
    forall piece | piece in p || piece in q ensures IsProper(piece) {
      if piece in p {
        var i :| 0 <= i < |p| && p[i] == piece;
        PrintsProper(shows, types, item, t.items[i]);
      } else {
        var i :| 0 <= i < |q| && q[i] == piece;
        PrintsProper(shows, types, item, u.items[i]);
      }
    }
    GroupsSeparable('[', ']', p, q);
    assert Print(shows, t) == "[" + Commas(p) + "]" && Print(shows, u) == "[" + Commas(q) + "]";
    if Print(shows, t) == Print(shows, u) {
      assert t.items == u.items;
    }
  }

  lemma {:induction false} PrintsProper(shows: char -> bool, types: Types, id: nat, t: Tree)
    requires IsBare(t) && HasType(types, id, t)
    ensures IsProper(Print(shows, t))
  {
    match t
    case Number(n) => NumberHasNoStop(n);
    case _ =>
  }

  lemma {:induction false} StructsTold(shows: char -> bool, types: Types, id: nat, t: Tree, u: Tree)
    requires IsBare(t) && IsBare(u) && HasType(types, id, t) && HasType(types, id, u) && types[id].StructType?
    ensures TellsApart(shows, t, u)
    decreases t, 0
  {
    var n := |t.fields|;
    var p := seq(n, i requires 0 <= i < n => t.fields[i].name + ":" + Print(shows, t.fields[i].value));
    var q := seq(n, i requires 0 <= i < n => u.fields[i].name + ":" + Print(shows, u.fields[i].value));
    forall i | 0 <= i < n ensures Separable(p[i], q[i]) && (p[i] == q[i] ==> t.fields[i] == u.fields[i]) {
      TextTellsValues(shows, types, types[id].fields[i].value, t.fields[i].value, u.fields[i].value);
      var name, a, b := t.fields[i].name, Print(shows, t.fields[i].value), Print(shows, u.fields[i].value);
      LabelledSeparable(name, name, a, b);
      if p[i] == q[i] {
        assert p[i][|name| + 1..] == a && q[i][|name| + 1..] == b;
      }
    }
    GroupsSeparable('{', '}', p, q);
    assert Print(shows, t) == "{" + Commas(p) + "}" && Print(shows, u) == "{" + Commas(q) + "}";
    if Print(shows, t) == Print(shows, u) {
      assert t.fields == u.fields;
    }
  }

  ghost function Piece(shows: char -> bool, entries: map<Key, Tree>, k: Key): string
    requires k in entries
  {
    KeyText(shows, k) + ":" + Print(shows, entries[k])
  }

  ghost function TablePieces(shows: char -> bool, entries: map<Key, Tree>): (pieces: seq<string>) {
    var keys := InOrder(shows, entries.Keys);
    seq(|keys|, i requires 0 <= i < |keys| => if keys[i] in entries then Piece(shows, entries, keys[i]) else "")
  }

  predicate TableHasType(types: Types, kind: KeyKind, element: nat, t: Tree) {
    t.Table? && forall k <- t.entries :: OfKind(kind, k) && HasType(types, element, t.entries[k])
  }

  lemma {:induction false} PiecesTold(
      shows: char -> bool, types: Types, kind: KeyKind, element: nat, t: Tree, u: Tree, k: Key, l: Key)
    requires IsBare(t) && IsBare(u) && TableHasType(types, kind, element, t) && TableHasType(types, kind, element, u)
    requires k in t.entries && l in u.entries
    ensures var a, b := Piece(shows, t.entries, k), Piece(shows, u.entries, l);
      Separable(a, b) && IsProper(a) && (a == b ==> k == l && t.entries[k] == u.entries[l])
    decreases t, 0
  {
    hide KeyText, OfKind, Print, Separable, IsProper;
    TextTellsValues(shows, types, element, t.entries[k], u.entries[l]);
    EntriesTold(shows, kind, k, l, t.entries[k], u.entries[l]);
    LabelIsProper(shows, kind, k, ":" + Print(shows, t.entries[k]));
    assert Piece(shows, t.entries, k) == KeyText(shows, k) + (":" + Print(shows, t.entries[k]));
  }

  lemma {:induction false} AllPiecesTold(
      shows: char -> bool, types: Types, kind: KeyKind, element: nat, t: Tree, u: Tree)
    requires IsBare(t) && IsBare(u) && TableHasType(types, kind, element, t) && TableHasType(types, kind, element, u)
    ensures var p, q := TablePieces(shows, t.entries), TablePieces(shows, u.entries);
      PairwiseSeparable(p, q) && (p == q ==> t == u)
    decreases t, 1
  {
    var p, q := TablePieces(shows, t.entries), TablePieces(shows, u.entries);
    var tKeys, uKeys := InOrder(shows, t.entries.Keys), InOrder(shows, u.entries.Keys);
    PiecesInOrder(shows, kind, t.entries);
    PiecesInOrder(shows, kind, u.entries);
    hide InOrder, TablePieces, Piece, IsProper, Separable, HasType, IsBare;
    forall i | 0 <= i < |p| && i < |q|
      ensures Separable(p[i], q[i])
      ensures p[i] == q[i] ==> tKeys[i] == uKeys[i] && t.entries[tKeys[i]] == u.entries[uKeys[i]]
    {
      PiecesTold(shows, types, kind, element, t, u, tKeys[i], uKeys[i]);
    }
    if p == q {
      assert tKeys == uKeys;
      SameEntries(t.entries, u.entries, tKeys);
    }
  }

  lemma {:induction false} TablesTold(shows: char -> bool, types: Types, kind: KeyKind, element: nat, t: Tree, u: Tree)
    requires IsBare(t) && IsBare(u) && TableHasType(types, kind, element, t) && TableHasType(types, kind, element, u)
    ensures TellsApart(shows, t, u)
    decreases t, 2
  {
    var p, q := TablePieces(shows, t.entries), TablePieces(shows, u.entries);
    PrintsTable(shows, t);
    PrintsTable(shows, u);
    AllPiecesTold(shows, types, kind, element, t, u);
    hide InOrder, TablePieces, Print, IsProper, Separable, PairwiseSeparable, Commas;
    forall piece | piece in p || piece in q ensures IsProper(piece) {
      if piece in p {
        PieceIsProper(shows, types, kind, element, t, piece);
      } else {
        PieceIsProper(shows, types, kind, element, u, piece);
      }
    }
    hide TableHasType, IsBare;
    GroupsSeparable('{', '}', p, q);
  }

  lemma {:induction false} SameEntries(a: map<Key, Tree>, b: map<Key, Tree>, keys: seq<Key>)
    requires forall k :: k in keys <==> k in a
    requires forall k :: k in keys <==> k in b
    requires forall i | 0 <= i < |keys| :: a[keys[i]] == b[keys[i]]
    ensures a == b
  {
    assert forall k <- a :: k in b && a[k] == b[k];
  }

  lemma {:induction false} PieceIsProper(
      shows: char -> bool, types: Types, kind: KeyKind, element: nat, t: Tree, piece: string)
    requires TableHasType(types, kind, element, t) && piece in TablePieces(shows, t.entries)
    ensures IsProper(piece)
  {
    hide InOrder, KeyText, TablePieces, IsProper, HasType, Print;
    PiecesInOrder(shows, kind, t.entries);
    var i :| 0 <= i < |TablePieces(shows, t.entries)| && TablePieces(shows, t.entries)[i] == piece;
    var k := InOrder(shows, t.entries.Keys)[i];
    assert piece == KeyText(shows, k) + (":" + Print(shows, t.entries[k]));
    LabelIsProper(shows, kind, k, ":" + Print(shows, t.entries[k]));
  }

  lemma {:induction false} PiecesInOrder(shows: char -> bool, kind: KeyKind, entries: map<Key, Tree>)
    requires AllOfKind(kind, entries.Keys)
    ensures var keys, pieces := InOrder(shows, entries.Keys), TablePieces(shows, entries);
      && |keys| == |pieces| && (forall k :: k in keys <==> k in entries)
      && forall i | 0 <= i < |keys| :: keys[i] in entries && pieces[i] == Piece(shows, entries, keys[i])
  {
    InOrderHoldsAll(shows, kind, entries.Keys);
    hide InOrder, Piece;
    var keys := InOrder(shows, entries.Keys);
    assert forall i | 0 <= i < |keys| :: keys[i] in keys;
  }

  lemma {:induction false} PrintsTable(shows: char -> bool, t: Tree)
    requires t.Table?
    ensures Print(shows, t) == "{" + Commas(TablePieces(shows, t.entries)) + "}"
  {
    hide InOrder, Commas, KeyText;
    var keys := InOrder(shows, t.entries.Keys);
    assert TablePieces(shows, t.entries) == seq(|keys|, i requires 0 <= i < |keys| =>
      if keys[i] in t.entries then KeyText(shows, keys[i]) + ":" + Print(shows, t.entries[keys[i]]) else "");
  }

  lemma {:induction false} LabelIsProper(shows: char -> bool, kind: KeyKind, k: Key, rest: string)
    requires OfKind(kind, k)
    ensures IsProper(KeyText(shows, k) + rest)
  {
    hide KeyText;
    KeyTextsSeparable(shows, kind, k, k);
  }

  lemma {:induction false} EntriesTold(shows: char -> bool, kind: KeyKind, k: Key, l: Key, t: Tree, u: Tree)
    requires OfKind(kind, k) && OfKind(kind, l) && TellsApart(shows, t, u)
    ensures var a, b := KeyText(shows, k) + ":" + Print(shows, t), KeyText(shows, l) + ":" + Print(shows, u);
      Separable(a, b) && (a == b ==> k == l && t == u)
  {
    hide KeyText, OfKind, Print;
    KeyTextsSeparable(shows, kind, k, l);
    LabelledSeparable(KeyText(shows, k), KeyText(shows, l), Print(shows, t), Print(shows, u));
    hide Separable;
    if KeyText(shows, k) + ":" + Print(shows, t) == KeyText(shows, l) + ":" + Print(shows, u) {
      LabelsCut(KeyText(shows, k), KeyText(shows, l), Print(shows, t), Print(shows, u), "");
    }
  }
}
