/** spellOut as it walks over values in memory: it follows references, refuses what
    has no value and what comes back to itself, and writes maps in the order of
    their keys (architecturekit/httpapi/spell_out.go). */
module SpellOut {
  import opened Basics
  import opened SpellTexts
  import T = SpellTrees

  /** The type and the length tell apart what is seen at one address. */
  datatype Ref = Ref(address: nat, id: nat, length: nat)

  /** Entries is what a map refers to, an Array what a slice refers to. NoValue is a
      function, a channel or an unsafe pointer. */
  datatype Value =
    | Nil
    | NoValue
    | Flag(flag: bool)
    | Number(number: int)
    | Float(text: string)
    | Complex(text: string)
    | Text(units: seq<Unit>)
    | Pointer(ref: Ref)
    | Slice(ref: Ref)
    | Map(ref: Ref)
    | Array(items: seq<Value>)
    | Struct(fields: seq<Field>)
    | Entries(kind: KeyKind, table: map<Key, Value>)
    | Interface(typeName: string, held: Value)

  datatype Field = Field(name: string, value: Value)

  type Heap = map<Ref, Value>

  predicate InHeap(h: Heap, v: Value) {
    match v
    case Pointer(ref) => ref in h
    case Slice(ref) => ref in h && h[ref].Array?
    case Map(ref) => ref in h && h[ref].Entries?
    case Array(items) => forall i | 0 <= i < |items| :: InHeap(h, items[i])
    case Struct(fields) => forall i | 0 <= i < |fields| :: InHeap(h, fields[i].value)
    case Entries(kind, table) => AllOfKind(kind, table.Keys) && forall k <- table :: InHeap(h, table[k])
    case Interface(_, held) => InHeap(h, held)
    case _ => true
  }

  predicate WellFormed(h: Heap) { forall ref <- h :: InHeap(h, h[ref]) }

  function Addresses(h: Heap): set<nat> { set ref <- h :: ref.address }

  predicate IsReference(v: Value) { v.Pointer? || v.Slice? || v.Map? }

  // ----- The tree that a value stands for -----

  /** The value with its references followed, or nothing if a function or channel is
      in the way, or an address that is on the path already. */
  ghost function Unfold(h: Heap, v: Value, path: set<nat>): Option<T.Tree>
    requires WellFormed(h) && InHeap(h, v)
    decreases Addresses(h) - path, v, 1
  {
    match v
    case Nil => Some(T.Nil)
    case NoValue => None
    case Flag(flag) => Some(T.Flag(flag))
    case Number(n) => Some(T.Number(n))
    case Float(text) => Some(T.Float(text))
    case Complex(text) => Some(T.Complex(text))
    case Text(units) => Some(T.Text(units))
    case Pointer(_) =>
      var target := Follow(h, v, path);
      if target.Some? then Some(T.Pointer(target.value)) else None
    case Slice(_) => Follow(h, v, path)
    case Map(_) => Follow(h, v, path)
    case Array(items) =>
      if forall i | 0 <= i < |items| :: Unfold(h, items[i], path).Some?
      then Some(T.List(seq(|items|, i requires 0 <= i < |items| => Unfold(h, items[i], path).value)))
      else None
    case Struct(fields) =>
      if forall i | 0 <= i < |fields| :: Unfold(h, fields[i].value, path).Some?
      then Some(T.Struct(seq(|fields|, i requires 0 <= i < |fields| =>
        T.Field(fields[i].name, Unfold(h, fields[i].value, path).value))))
      else None
    case Entries(_, table) =>
      if forall k <- table :: Unfold(h, table[k], path).Some?
      then Some(T.Table(map k <- table :: Unfold(h, table[k], path).value))
      else None
    case Interface(typeName, held) =>
      var tree := Unfold(h, held, path);
      if tree.Some? then Some(T.Interface(typeName, tree.value)) else None
  }

  ghost function Follow(h: Heap, v: Value, path: set<nat>): Option<T.Tree>
    requires WellFormed(h) && IsReference(v) && InHeap(h, v)
    decreases Addresses(h) - path, v, 0
  {
    if v.ref.address in path then None
    else
      assert v.ref.address in Addresses(h) - path;
      Unfold(h, h[v.ref], path + {v.ref.address})
  }

  // ----- What is refused -----

  /** The references a value holds, without following any. */
  predicate Holds(v: Value, ref: Ref) {
    match v
    case Pointer(r) => r == ref
    case Slice(r) => r == ref
    case Map(r) => r == ref
    case Array(items) => exists i | 0 <= i < |items| :: Holds(items[i], ref)
    case Struct(fields) => exists i | 0 <= i < |fields| :: Holds(fields[i].value, ref)
    case Entries(_, table) => exists k <- table :: Holds(table[k], ref)
    case Interface(_, held) => Holds(held, ref)
    case _ => false
  }

  predicate IsMute(v: Value) {
    match v
    case NoValue => true
    case Array(items) => exists i | 0 <= i < |items| :: IsMute(items[i])
    case Struct(fields) => exists i | 0 <= i < |fields| :: IsMute(fields[i].value)
    case Entries(_, table) => exists k <- table :: IsMute(table[k])
    case Interface(_, held) => IsMute(held)
    case _ => false
  }

  /** A walk follows one reference after the other, each held by what the one before
      refers to. */
  predicate IsWalk(h: Heap, v: Value, walk: seq<Ref>)
    decreases |walk|
  {
    walk == [] || (Holds(v, walk[0]) && walk[0] in h && IsWalk(h, h[walk[0]], walk[1..]))
  }

  function WalkEnd(h: Heap, v: Value, walk: seq<Ref>): Value
    requires IsWalk(h, v, walk)
    decreases |walk|
  {
    if walk == [] then v else WalkEnd(h, h[walk[0]], walk[1..])
  }

  ghost predicate ComesBack(walk: seq<Ref>) {
    exists i, j | 0 <= i < j < |walk| :: walk[i].address == walk[j].address
  }

  ghost predicate Crosses(walk: seq<Ref>, path: set<nat>) { exists i | 0 <= i < |walk| :: walk[i].address in path }

  /** The walk comes to an address it has come through, or one of path, or it ends
      where nothing can be written. */
  ghost predicate IsBlocked(h: Heap, v: Value, walk: seq<Ref>, path: set<nat>) {
    IsWalk(h, v, walk) &&
    (ComesBack(walk) || Crosses(walk, path) || IsMute(WalkEnd(h, v, walk)))
  }

  lemma {:induction false} UnfoldsWhatItHolds(h: Heap, v: Value, path: set<nat>, ref: Ref)
    requires WellFormed(h) && InHeap(h, v) && Holds(v, ref) && Unfold(h, v, path).Some?
    ensures ref in h && ref.address !in path && Unfold(h, h[ref], path + {ref.address}).Some?
    decreases v
  {
    match v
    case Array(items) =>
      var i :| 0 <= i < |items| && Holds(items[i], ref);
      UnfoldsWhatItHolds(h, items[i], path, ref);
    case Struct(fields) =>
      var i :| 0 <= i < |fields| && Holds(fields[i].value, ref);
      UnfoldsWhatItHolds(h, fields[i].value, path, ref);
    case Entries(_, table) =>
      var k :| k in table && Holds(table[k], ref);
      UnfoldsWhatItHolds(h, table[k], path, ref);
    case Interface(_, held) => UnfoldsWhatItHolds(h, held, path, ref);
    case _ =>
  }

  lemma {:induction false} MuteIsRefused(h: Heap, v: Value, path: set<nat>)
    requires WellFormed(h) && InHeap(h, v) && IsMute(v)
    ensures Unfold(h, v, path) == None
    decreases v
  {
    match v
    case Array(items) =>
      var i :| 0 <= i < |items| && IsMute(items[i]);
      MuteIsRefused(h, items[i], path);
    case Struct(fields) =>
      var i :| 0 <= i < |fields| && IsMute(fields[i].value);
      MuteIsRefused(h, fields[i].value, path);
    case Entries(_, table) =>
      var k :| k in table && IsMute(table[k]);
      MuteIsRefused(h, table[k], path);
    case Interface(_, held) => MuteIsRefused(h, held, path);
    case _ =>
  }

  lemma {:induction false} ComesBackBehind(first: Ref, rest: seq<Ref>, path: set<nat>)
    requires first.address !in path && (ComesBack([first] + rest) || Crosses([first] + rest, path))
    ensures ComesBack(rest) || Crosses(rest, path + {first.address})
  {
    var walk := [first] + rest;
    if ComesBack(walk) {
      var i, j :| 0 <= i < j < |walk| && walk[i].address == walk[j].address;
      if i == 0 {
        assert rest[j - 1].address in path + {first.address};
      } else {
        assert rest[i - 1].address == rest[j - 1].address;
      }
    } else {
      var i :| 0 <= i < |walk| && walk[i].address in path;
      assert rest[i - 1].address in path + {first.address};
    }
  }

  lemma {:induction false} ComesBackBefore(first: Ref, rest: seq<Ref>, path: set<nat>)
    requires ComesBack(rest) || Crosses(rest, path + {first.address})
    ensures ComesBack([first] + rest) || Crosses([first] + rest, path)
  {
    var walk := [first] + rest;
    if ComesBack(rest) {
      var i, j :| 0 <= i < j < |rest| && rest[i].address == rest[j].address;
      assert walk[i + 1].address == walk[j + 1].address;
    } else {
      var i :| 0 <= i < |rest| && rest[i].address in path + {first.address};
      assert walk[i + 1] == rest[i] && walk[0] == first;
    }
  }

  lemma {:induction false} BlockedIsRefused(h: Heap, v: Value, walk: seq<Ref>, path: set<nat>)
    requires WellFormed(h) && InHeap(h, v) && IsBlocked(h, v, walk, path)
    ensures Unfold(h, v, path) == None
    decreases |walk|
  {
    hide Unfold;
    if walk == [] {
      MuteIsRefused(h, v, path);
    } else if Unfold(h, v, path).Some? {
      var first, rest := walk[0], walk[1..];
      assert walk == [first] + rest;
      UnfoldsWhatItHolds(h, v, path, first);
      if ComesBack(walk) || Crosses(walk, path) {
        ComesBackBehind(first, rest, path);
      }
      BlockedIsRefused(h, h[first], rest, path + {first.address});
    }
  }

  /** What blocks a part blocks the whole. */
  lemma {:induction false} BlockedThroughPart(h: Heap, part: Value, whole: Value, walk: seq<Ref>, path: set<nat>)
    requires forall ref | Holds(part, ref) :: Holds(whole, ref)
    requires IsMute(part) ==> IsMute(whole)
    ensures IsBlocked(h, part, walk, path) ==> IsBlocked(h, whole, walk, path)
  {
  }

  lemma {:induction false} RefusedIsBlocked(h: Heap, v: Value, path: set<nat>) returns (walk: seq<Ref>)
    requires WellFormed(h) && InHeap(h, v) && Unfold(h, v, path) == None
    ensures IsBlocked(h, v, walk, path)
    decreases Addresses(h) - path, v, 1
  {
    match v
    case NoValue => walk := [];
    case Array(items) =>
      var i :| 0 <= i < |items| && Unfold(h, items[i], path) == None;
      walk := RefusedIsBlocked(h, items[i], path);
      BlockedThroughPart(h, items[i], v, walk, path);
    case Struct(fields) =>
      var i :| 0 <= i < |fields| && Unfold(h, fields[i].value, path) == None;
      walk := RefusedIsBlocked(h, fields[i].value, path);
      BlockedThroughPart(h, fields[i].value, v, walk, path);
    case Entries(_, table) =>
      var k :| k in table && Unfold(h, table[k], path) == None;
      walk := RefusedIsBlocked(h, table[k], path);
      BlockedThroughPart(h, table[k], v, walk, path);
    case Interface(_, held) =>
      walk := RefusedIsBlocked(h, held, path);
      BlockedThroughPart(h, held, v, walk, path);
    case Pointer(_) => walk := RefusedReference(h, v, path);
    case Slice(_) => walk := RefusedReference(h, v, path);
    case Map(_) => walk := RefusedReference(h, v, path);
  }

  lemma {:induction false} RefusedReference(h: Heap, v: Value, path: set<nat>) returns (walk: seq<Ref>)
    requires WellFormed(h) && IsReference(v) && InHeap(h, v) && Follow(h, v, path) == None
    ensures IsBlocked(h, v, walk, path)
    decreases Addresses(h) - path, v, 0
  {
    var ref := v.ref;
    if ref.address in path {
      walk := [ref];
      assert walk[0].address in path;
    } else {
      assert ref.address in Addresses(h) - path;
      var rest := RefusedIsBlocked(h, h[ref], path + {ref.address});
      walk := [ref] + rest;
      assert walk[1..] == rest;
      if ComesBack(rest) || Crosses(rest, path + {ref.address}) {
        ComesBackBefore(ref, rest, path);
      }
    }
  }

  /** A value is refused exactly if following references from it comes to an address
      it has come through already, or to a function or a channel. */
  lemma {:induction false} RefusedExactlyIfBlocked(h: Heap, v: Value)
    requires WellFormed(h) && InHeap(h, v)
    ensures Unfold(h, v, {}) == None <==> exists walk :: IsBlocked(h, v, walk, {})
  {
    if Unfold(h, v, {}) == None {
      var walk := RefusedIsBlocked(h, v, {});
    }
    if exists walk :: IsBlocked(h, v, walk, {}) {
      var walk :| IsBlocked(h, v, walk, {});
      BlockedIsRefused(h, v, walk, {});
    }
  }

  /** In particular a value that contains itself is refused. */
  lemma {:induction false} SelfContainingIsRefused(h: Heap, v: Value, walk: seq<Ref>, i: nat, j: nat)
    requires WellFormed(h) && InHeap(h, v) && IsWalk(h, v, walk) && i < j < |walk| && walk[i] == walk[j]
    ensures Unfold(h, v, {}) == None
  {
    assert ComesBack(walk);
    BlockedIsRefused(h, v, walk, {});
  }

  /** Only addresses are remembered, so a few more values are refused: a struct that
      points to its own first field does not contain itself. */
  lemma {:induction false} FirstFieldIsRefused()
    ensures WellFormed(FirstField()) && Unfold(FirstField(), Pointer(WHOLE), {}) == None
    ensures forall walk | IsWalk(FirstField(), Pointer(WHOLE), walk) :: |walk| <= 2
  {
    var h, walk := FirstField(), [WHOLE, FIRST];
    FirstFieldIsWalked();
    assert walk[0].address == walk[1].address && ComesBack(walk);
    hide IsWalk, Holds, Unfold;
    BlockedIsRefused(h, Pointer(WHOLE), walk, {});
    forall other | IsWalk(h, Pointer(WHOLE), other) ensures |other| <= 2 {
      FirstFieldEndsWalks(other);
    }
  }

  const WHOLE := Ref(1, 0, 0)

  const FIRST := Ref(1, 1, 0)

  function FirstField(): Heap {
    map[WHOLE := Struct([Field("first", Number(5)), Field("p", Pointer(FIRST))]), FIRST := Number(5)]
  }

  lemma {:induction false} FirstFieldIsWalked()
    ensures WellFormed(FirstField()) && InHeap(FirstField(), Pointer(WHOLE))
    ensures IsWalk(FirstField(), Pointer(WHOLE), [WHOLE, FIRST])
  {
    var h := FirstField();
    assert Holds(h[WHOLE].fields[1].value, FIRST);
    assert [WHOLE, FIRST][1..] == [FIRST] && [FIRST][1..] == [];
    assert IsWalk(h, h[WHOLE], [FIRST]);
  }

  lemma {:induction false} FirstFieldEndsWalks(walk: seq<Ref>)
    requires IsWalk(FirstField(), Pointer(WHOLE), walk)
    ensures |walk| <= 2
  {
    var h := FirstField();
    if |walk| > 1 {
      var rest := walk[1..];
      assert IsWalk(h, h[WHOLE], rest);
      var i :| 0 <= i < 2 && Holds(h[WHOLE].fields[i].value, rest[0]);
      assert rest[0] == FIRST && IsWalk(h, Number(5), rest[1..]);
    }
  }

  /** Two values of one type that hold nothing in an interface, wherever they are in
      memory, have the same text exactly if they are equal with their pointers
      followed. */
  lemma {:induction false} SameTextExactlyIfEqual(
      shows: char -> bool, types: T.Types, id: nat, leftHeap: Heap, left: Value, rightHeap: Heap, right: Value)
    requires WellFormed(leftHeap) && InHeap(leftHeap, left) && WellFormed(rightHeap) && InHeap(rightHeap, right)
    requires Unfold(leftHeap, left, {}).Some? && Unfold(rightHeap, right, {}).Some?
    requires T.IsBare(Unfold(leftHeap, left, {}).value) && T.IsBare(Unfold(rightHeap, right, {}).value)
    requires T.HasType(types, id, Unfold(leftHeap, left, {}).value)
    requires T.HasType(types, id, Unfold(rightHeap, right, {}).value)
    ensures TextOf(shows, leftHeap, left, {}) == TextOf(shows, rightHeap, right, {}) <==>
      Unfold(leftHeap, left, {}) == Unfold(rightHeap, right, {})
  {
    T.TextTellsValues(shows, types, id, Unfold(leftHeap, left, {}).value, Unfold(rightHeap, right, {}).value);
  }

  /** Nothing separates the name of the type from the value either: the int 83 and the
      int8 3 are spelled out alike. */
  lemma {:induction false} NamesMayRunTogether(shows: char -> bool)
    ensures "int" + TextOf(shows, map[], Number(83), {}) == "int8" + TextOf(shows, map[], Number(3), {}) == "int83"
  {
    assert FormatNumber(83) == "83" && FormatNumber(3) == "3";
  }

  predicate Continues(shorter: string, longer: string) { |shorter| <= |longer| && longer[..|shorter|] == shorter }

  /** It takes two types of which one continues the name of the other: otherwise values
      of different types are told apart, whatever they are. */
  lemma {:induction false} NamesTellTypes(a: string, b: string, leftText: string, rightText: string)
    requires a + leftText == b + rightText
    ensures Continues(a, b) || Continues(b, a)
    ensures a == b ==> leftText == rightText
  {
    if |a| <= |b| {
      Overlap(a, b, leftText, rightText);
    } else {
      Overlap(b, a, rightText, leftText);
    }
  }

  // ----- Writing -----

  ghost function TextOf(shows: char -> bool, h: Heap, v: Value, path: set<nat>): string
    requires WellFormed(h) && InHeap(h, v)
  {
    var tree := Unfold(h, v, path);
    if tree.Some? then T.Print(shows, tree.value) else ""
  }

  lemma {:induction false} CommasSnoc(pieces: seq<string>, i: nat)
    requires i < |pieces|
    ensures Commas(pieces[..i + 1]) == Commas(pieces[..i]) + (if i > 0 then "," else "") + pieces[i]
  {
    if i == 0 {
      assert pieces[..1] == [pieces[0]];
    } else {
      assert pieces[..i + 1][1..] == pieces[1..i] + [pieces[i]] && pieces[..i][1..] == pieces[1..i];
      TailsSnoc(pieces[1..i], pieces[i]);
    }
  }

  function Bracketed(open: char, pieces: seq<string>, close: char): string { [open] + Commas(pieces) + [close] }

  lemma {:induction false} BracketedOneMore(open: char, pieces: seq<string>, piece: string, close: char)
    ensures Bracketed(open, [], close) == [open, close]
    ensures var text := Bracketed(open, pieces, close);
      |text| >= 2 && Bracketed(open, pieces + [piece], close) ==
        text[..|text| - 1] + (if pieces == [] then "" else ",") + piece + [close]
  {
    var more := pieces + [piece];
    CommasSnoc(more, |pieces|);
    assert more[..|pieces|] == pieces && more[..|pieces| + 1] == more;
    assert Commas([]) == "";
    hide Commas;
    var text, comma := Commas(pieces), if pieces == [] then "" else ",";
    assert ([open] + text + [close])[..|text| + 1] == [open] + text;
    assert [open] + (text + comma + piece) + [close] == ([open] + text) + comma + piece + [close];
  }

  /** One element more is written behind the others, with a comma between. */
  lemma {:induction false} PrintsOneMore(shows: char -> bool, items: seq<T.Tree>, x: T.Tree)
    ensures T.Print(shows, T.List([])) == "[]"
    ensures var list, longer := T.Print(shows, T.List(items)), T.Print(shows, T.List(items + [x]));
      |list| >= 2 && longer == list[..|list| - 1] + (if items == [] then "" else ",") + T.Print(shows, x) + "]"
  {
    PrintsItems(shows, []);
    PrintsItems(shows, items);
    PrintsItems(shows, items + [x]);
    hide T.Print, Bracketed;
    assert ItemsOf(shows, []) == [];
    assert ItemsOf(shows, items + [x]) == ItemsOf(shows, items) + [T.Print(shows, x)];
    BracketedOneMore('[', ItemsOf(shows, items), T.Print(shows, x), ']');
  }

  ghost function ItemsOf(shows: char -> bool, items: seq<T.Tree>): seq<string> {
    seq(|items|, i requires 0 <= i < |items| => T.Print(shows, items[i]))
  }

  lemma {:induction false} PrintsItems(shows: char -> bool, items: seq<T.Tree>)
    ensures T.Print(shows, T.List(items)) == Bracketed('[', ItemsOf(shows, items), ']')
  {
    hide Commas;
    assert seq(|items|, i requires 0 <= i < |items| => T.Print(shows, items[i])) == ItemsOf(shows, items);
  }

  /** One field more is written behind the others, with its name. */
  lemma {:induction false} PrintsOneFieldMore(shows: char -> bool, fields: seq<T.Field>, x: T.Field)
    ensures T.Print(shows, T.Struct([])) == "{}"
    ensures var text, longer := T.Print(shows, T.Struct(fields)), T.Print(shows, T.Struct(fields + [x]));
      |text| >= 2 && longer == text[..|text| - 1] + (if fields == [] then "" else ",") +
        (x.name + ":" + T.Print(shows, x.value)) + "}"
  {
    PrintsFields(shows, []);
    PrintsFields(shows, fields);
    PrintsFields(shows, fields + [x]);
    hide T.Print, Bracketed;
    var piece := x.name + ":" + T.Print(shows, x.value);
    assert FieldsOf(shows, []) == [];
    assert FieldsOf(shows, fields + [x]) == FieldsOf(shows, fields) + [piece];
    BracketedOneMore('{', FieldsOf(shows, fields), piece, '}');
  }

  ghost function FieldsOf(shows: char -> bool, fields: seq<T.Field>): seq<string> {
    seq(|fields|, i requires 0 <= i < |fields| => fields[i].name + ":" + T.Print(shows, fields[i].value))
  }

  lemma {:induction false} PrintsFields(shows: char -> bool, fields: seq<T.Field>)
    ensures T.Print(shows, T.Struct(fields)) == Bracketed('{', FieldsOf(shows, fields), '}')
  {
    hide Commas;
    assert seq(|fields|, i requires 0 <= i < |fields| => fields[i].name + ":" + T.Print(shows, fields[i].value)) ==
      FieldsOf(shows, fields);
  }

  /** text is what has been written once the first count pieces are. */
  ghost predicate HasWritten(text: string, before: string, pieces: seq<string>, count: nat) {
    count <= |pieces| && text == before + Commas(pieces[..count])
  }

  lemma {:induction false} WritesNone(text: string, pieces: seq<string>)
    ensures HasWritten(text, text, pieces, 0)
  {
    assert pieces[..0] == [];
  }

  lemma {:induction false} WritesOne(text: string, before: string, pieces: seq<string>, i: nat, piece: string)
    requires i < |pieces| && HasWritten(text, before, pieces, i) && piece == pieces[i]
    ensures HasWritten((if i > 0 then text + "," else text) + piece, before, pieces, i + 1)
  {
    CommasSnoc(pieces, i);
    hide Commas;
    var commas := Commas(pieces[..i]);
    if i > 0 {
      assert before + commas + "," + piece == before + (commas + "," + piece);
    } else {
      assert commas + "" + piece == commas + piece;
      assert before + commas + piece == before + (commas + piece);
    }
  }

  lemma {:induction false} WritesLabelled(text: string, name: string, rest: string)
    ensures text + name + ":" + rest == text + (name + ":" + rest)
  {
  }

  /** The first count of parts have been written, each with its text. */
  ghost predicate PartsWritten(
      h: Heap, parts: seq<Value>, path: set<nat>, texts: seq<string>, text: string, before: string, count: nat)
    requires WellFormed(h) && AllInHeap(h, parts)
  {
    && count <= |parts| == |texts| && HasWritten(text, before, texts, count)
    && forall i | 0 <= i < count :: Unfold(h, parts[i], path).Some?
  }

  predicate AllInHeap(h: Heap, parts: seq<Value>) { forall i | 0 <= i < |parts| :: InHeap(h, parts[i]) }

  lemma {:induction false} NoPartsWritten(h: Heap, parts: seq<Value>, path: set<nat>, texts: seq<string>, text: string)
    requires WellFormed(h) && AllInHeap(h, parts) && |parts| == |texts|
    ensures PartsWritten(h, parts, path, texts, text, text, 0)
  {
    assert texts[..0] == [];
  }

  lemma {:induction false} OneMorePartWritten(
      h: Heap, parts: seq<Value>, path: set<nat>, texts: seq<string>, text: string, before: string, i: nat,
        after: string)
    requires WellFormed(h) && AllInHeap(h, parts) && i < |parts| && PartsWritten(h, parts, path, texts, text, before, i)
    requires Unfold(h, parts[i], path).Some? && after == (if i > 0 then text + "," else text) + texts[i]
    ensures PartsWritten(h, parts, path, texts, after, before, i + 1)
  {
    hide Unfold, HasWritten;
    WritesOne(text, before, texts, i, texts[i]);
  }

  lemma {:induction false} GroupText(begun: string, open: string, commas: string, close: string)
    ensures begun + open + commas + close == begun + (open + commas + close)
  {
  }

  lemma {:induction false} ArrayWritten(
      shows: char -> bool, h: Heap, v: Value, path: set<nat>, text: string, begun: string)
    requires WellFormed(h) && InHeap(h, v) && v.Array?
    requires PartsWritten(h, v.items, path, ItemTexts(shows, h, v.items, path), text, begun + "[", |v.items|)
    ensures Unfold(h, v, path).Some? && text + "]" == begun + TextOf(shows, h, v, path)
  {
    var texts := ItemTexts(shows, h, v.items, path);
    assert texts[..|texts|] == texts;
    TextOfArray(shows, h, v.items, path);
    GroupText(begun, "[", Commas(texts), "]");
  }

  function FieldValues(fields: seq<Field>): seq<Value> {
    seq(|fields|, i requires 0 <= i < |fields| => fields[i].value)
  }

  lemma {:induction false} StructWritten(
      shows: char -> bool, h: Heap, v: Value, path: set<nat>, text: string, begun: string)
    requires WellFormed(h) && InHeap(h, v) && v.Struct?
    requires PartsWritten(h, FieldValues(v.fields), path, FieldTexts(shows, h, v.fields, path), text, begun + "{",
      |v.fields|)
    ensures Unfold(h, v, path).Some? && text + "}" == begun + TextOf(shows, h, v, path)
  {
    var texts := FieldTexts(shows, h, v.fields, path);
    assert texts[..|texts|] == texts;
    assert forall i | 0 <= i < |v.fields| :: FieldValues(v.fields)[i] == v.fields[i].value;
    TextOfStruct(shows, h, v.fields, path);
    GroupText(begun, "{", Commas(texts), "}");
  }

  lemma {:induction false} RefusedWithPart(h: Heap, v: Value, i: nat, path: set<nat>)
    requires WellFormed(h) && InHeap(h, v)
    requires (v.Array? && i < |v.items| && Unfold(h, v.items[i], path) == None) ||
      (v.Struct? && i < |v.fields| && Unfold(h, v.fields[i].value, path) == None)
    ensures Unfold(h, v, path) == None
  {
  }

  lemma {:induction false} TailsSnoc(pieces: seq<string>, last: string)
    ensures Tails(pieces + [last]) == Tails(pieces) + "," + last
  {
    if pieces == [] {
      assert [last][1..] == [];
    } else {
      assert (pieces + [last])[1..] == pieces[1..] + [last];
      TailsSnoc(pieces[1..], last);
    }
  }

  ghost function ItemTexts(shows: char -> bool, h: Heap, items: seq<Value>, path: set<nat>): seq<string>
    requires WellFormed(h) && InHeap(h, Array(items))
  {
    seq(|items|, i requires 0 <= i < |items| => TextOf(shows, h, items[i], path))
  }

  lemma {:induction false} TextOfArray(shows: char -> bool, h: Heap, items: seq<Value>, path: set<nat>)
    requires WellFormed(h) && InHeap(h, Array(items)) && Unfold(h, Array(items), path).Some?
    ensures TextOf(shows, h, Array(items), path) == "[" + Commas(ItemTexts(shows, h, items, path)) + "]"
  {
    var trees := Unfold(h, Array(items), path).value.items;
    hide Commas;
    assert ItemTexts(shows, h, items, path) == seq(|trees|, i requires 0 <= i < |trees| => T.Print(shows, trees[i]));
  }

  ghost function FieldTexts(shows: char -> bool, h: Heap, fields: seq<Field>, path: set<nat>): seq<string>
    requires WellFormed(h) && InHeap(h, Struct(fields))
  {
    seq(|fields|, i requires 0 <= i < |fields| => fields[i].name + ":" + TextOf(shows, h, fields[i].value, path))
  }

  lemma {:induction false} TextOfStruct(shows: char -> bool, h: Heap, fields: seq<Field>, path: set<nat>)
    requires WellFormed(h) && InHeap(h, Struct(fields)) && Unfold(h, Struct(fields), path).Some?
    ensures TextOf(shows, h, Struct(fields), path) == "{" + Commas(FieldTexts(shows, h, fields, path)) + "}"
  {
    var trees := Unfold(h, Struct(fields), path).value.fields;
    hide Commas;
    assert FieldTexts(shows, h, fields, path) ==
      seq(|trees|, i requires 0 <= i < |trees| => trees[i].name + ":" + T.Print(shows, trees[i].value));
  }

  /** A map's entry as it is collected: the text of its key, and that of its value. */
  datatype Written = Written(key: string, element: string)

  ghost function WrittenFor(shows: char -> bool, h: Heap, v: Value, k: Key, path: set<nat>): Written
    requires WellFormed(h) && InHeap(h, v) && v.Entries? && k in v.table
  {
    Written(KeyText(shows, k), TextOf(shows, h, v.table[k], path))
  }

  /** The entries are those of the given keys, one by one. */
  ghost predicate AreWritten(
      shows: char -> bool, h: Heap, v: Value, keys: seq<Key>, entries: seq<Written>, path: set<nat>)
    requires WellFormed(h) && InHeap(h, v) && v.Entries?
  {
    |keys| == |entries| && forall i | 0 <= i < |keys| ::
      keys[i] in v.table && entries[i] == WrittenFor(shows, h, v, keys[i], path)
  }

  lemma {:induction false} NothingIsWritten(shows: char -> bool, h: Heap, v: Value, path: set<nat>)
    requires WellFormed(h) && InHeap(h, v) && v.Entries?
    ensures AreWritten(shows, h, v, [], [], path)
  {
  }

  lemma {:induction false} OneMoreIsWritten(
      shows: char -> bool, h: Heap, v: Value, keys: seq<Key>, entries: seq<Written>, key: Key, entry: Written,
      path: set<nat>)
    requires WellFormed(h) && InHeap(h, v) && v.Entries? && AreWritten(shows, h, v, keys, entries, path)
    requires key in v.table && entry == WrittenFor(shows, h, v, key, path)
    ensures AreWritten(shows, h, v, keys + [key], entries + [entry], path)
  {
    hide WrittenFor, InHeap, WellFormed;
  }

  function EntryTexts(entries: seq<Written>): seq<string> {
    seq(|entries|, i requires 0 <= i < |entries| => entries[i].key + ":" + entries[i].element)
  }

  lemma {:induction false} TextOfEntries(
      shows: char -> bool, h: Heap, v: Value, keys: seq<Key>, entries: seq<Written>, path: set<nat>)
    requires WellFormed(h) && InHeap(h, v) && v.Entries? && Unfold(h, v, path).Some?
    requires AreWritten(shows, h, v, keys, entries, path) && T.Ascending(shows, keys)
    requires forall k :: k in keys <==> k in v.table
    ensures TextOf(shows, h, v, path) == "{" + Commas(EntryTexts(entries)) + "}"
  {
    var tree := Unfold(h, v, path).value;
    hide Commas, KeyText;
    T.InOrderIsUnique(shows, tree.entries.Keys, keys);
    T.PrintsTable(shows, tree);
    assert T.TablePieces(shows, tree.entries) == EntryTexts(entries);
  }

  predicate IsLeaf(v: Value) {
    v.Nil? || v.NoValue? || v.Flag? || v.Number? || v.Float? || v.Complex? || v.Text?
  }

  ghost function FollowedText(shows: char -> bool, h: Heap, v: Value, path: set<nat>): string
    requires WellFormed(h) && InHeap(h, v) && IsReference(v)
  {
    var tree := Follow(h, v, path);
    if tree.Some? then T.Print(shows, tree.value) else ""
  }

  lemma {:induction false} ReferenceText(shows: char -> bool, h: Heap, v: Value, path: set<nat>)
    requires WellFormed(h) && InHeap(h, v)
    ensures IsReference(v) ==> (Unfold(h, v, path).Some? <==> Follow(h, v, path).Some?)
    ensures v.Pointer? && Unfold(h, v, path).Some? ==>
      TextOf(shows, h, v, path) == "&" + FollowedText(shows, h, v, path)
    ensures (v.Slice? || v.Map?) && Unfold(h, v, path).Some? ==>
      TextOf(shows, h, v, path) == FollowedText(shows, h, v, path)
  {
    hide Follow;
  }

  lemma {:induction false} InterfaceText(shows: char -> bool, h: Heap, v: Value, path: set<nat>)
    requires WellFormed(h) && InHeap(h, v)
    ensures v.Interface? ==> (Unfold(h, v, path).Some? <==> Unfold(h, v.held, path).Some?)
    ensures v.Interface? && Unfold(h, v, path).Some? ==>
      TextOf(shows, h, v, path) == v.typeName + TextOf(shows, h, v.held, path)
  {
    hide Commas, KeyText, Quote, FormatNumber, T.InOrder;
  }

  lemma {:induction false} EntriesUnfold(h: Heap, v: Value, path: set<nat>)
    requires WellFormed(h) && InHeap(h, v) && v.Entries?
    ensures forall k <- v.table :: InHeap(h, v.table[k])
    ensures Unfold(h, v, path).Some? <==> forall k <- v.table :: Unfold(h, v.table[k], path).Some?
  {
  }

  lemma {:induction false} BehindText(text: string, first: string, both: string)
    ensures forall rest | both == first + rest :: text + first + rest == text + both
  {
  }

  class Writer {
    var text: string

    constructor ()
      ensures text == ""
    {
      text := "";
    }
  }

  class Speller {
    const heap: Heap
    const shows: char -> bool
    var onPath: set<nat>

    constructor (heap: Heap, shows: char -> bool)
      ensures this.heap == heap && this.shows == shows && onPath == {}
    {
      this.heap, this.shows := heap, shows;
      onPath := {};
    }

    ghost predicate Takes(v: Value) { WellFormed(heap) && InHeap(heap, v) }

    /** Whether it succeeds depends on the value and the path only. If it does, the
        text of the value has been written, in whatever order its maps were read. */
    method Spell(w: Writer, v: Value) returns (ok: bool)
      requires Takes(v)
      modifies this, w
      ensures onPath == old(onPath)
      ensures ok <==> Unfold(heap, v, onPath).Some?
      ensures ok ==> w.text == old(w.text) + TextOf(shows, heap, v, onPath)
      decreases Addresses(heap) - onPath, v, 2
    {
      ReferenceText(shows, heap, v, onPath);
      InterfaceText(shows, heap, v, onPath);
      hide Unfold, TextOf, Follow, Addresses;
      match v
      case Pointer(_) =>
        BehindText(w.text, "&", TextOf(shows, heap, v, onPath));
        w.text := w.text + "&";
        ok := SpellReferenced(w, v);
      case Slice(_) => ok := SpellReferenced(w, v);
      case Map(_) => ok := SpellReferenced(w, v);
      case Array(_) => ok := SpellElements(w, v);
      case Struct(_) => ok := SpellFields(w, v);
      case Entries(_, _) => ok := SpellEntries(w, v);
      case Interface(typeName, held) =>
        BehindText(w.text, typeName, TextOf(shows, heap, v, onPath));
        w.text := w.text + typeName;
        ok := Spell(w, held);
      case _ => ok := SpellLeaf(w, v);
    }

    method SpellLeaf(w: Writer, v: Value) returns (ok: bool)
      requires Takes(v) && IsLeaf(v)
      modifies w
      ensures ok <==> Unfold(heap, v, onPath).Some?
      ensures ok ==> w.text == old(w.text) + TextOf(shows, heap, v, onPath)
    {
      ok := true;
      match v
      case NoValue => ok := false;
      case Flag(flag) => w.text := w.text + FormatFlag(flag);
      case Number(n) => w.text := w.text + FormatNumber(n);
      case Float(text) => w.text := w.text + text;
      case Complex(text) => w.text := w.text + text;
      case Text(units) => w.text := w.text + Quote(shows, units);
      case Nil => w.text := w.text + "nil";
    }

    method SpellReferenced(w: Writer, v: Value) returns (ok: bool)
      requires Takes(v) && IsReference(v)
      modifies this, w
      ensures onPath == old(onPath)
      ensures ok <==> Follow(heap, v, onPath).Some?
      ensures ok ==> w.text == old(w.text) + FollowedText(shows, heap, v, onPath)
      decreases Addresses(heap) - onPath, v, 1
    {
      var address := v.ref.address;
      if address in onPath {
        return false;
      }
      assert address in Addresses(heap) - onPath;
      onPath := onPath + {address};
      ok := Spell(w, heap[v.ref]);
      onPath := onPath - {address};
      assert onPath == old(onPath);
    }

    method SpellElements(w: Writer, v: Value) returns (ok: bool)
      requires Takes(v) && v.Array?
      modifies this, w
      ensures onPath == old(onPath)
      ensures ok <==> Unfold(heap, v, onPath).Some?
      ensures ok ==> w.text == old(w.text) + TextOf(shows, heap, v, onPath)
      decreases Addresses(heap) - onPath, v, 1
    {
      ghost var texts, begun := ItemTexts(shows, heap, v.items, onPath), w.text;
      hide Unfold, TextOf, PartsWritten, Addresses;
      w.text := w.text + "[";
      NoPartsWritten(heap, v.items, onPath, texts, w.text);
      var i := 0;
      while i < |v.items|
        invariant 0 <= i <= |v.items| && onPath == old(onPath)
        invariant PartsWritten(heap, v.items, onPath, texts, w.text, begun + "[", i)
      {
        ghost var before := w.text;
        if i > 0 {
          w.text := w.text + ",";
        }
        ok := Spell(w, v.items[i]);
        if !ok {
          RefusedWithPart(heap, v, i, onPath);
          return;
        }
        OneMorePartWritten(heap, v.items, onPath, texts, before, begun + "[", i, w.text);
        i := i + 1;
      }
      ArrayWritten(shows, heap, v, onPath, w.text, begun);
      w.text := w.text + "]";
      ok := true;
    }

    method SpellField(w: Writer, name: string, v: Value) returns (ok: bool)
      requires Takes(v)
      modifies this, w
      ensures onPath == old(onPath)
      ensures ok <==> Unfold(heap, v, onPath).Some?
      ensures ok ==> w.text == old(w.text) + (name + ":" + TextOf(shows, heap, v, onPath))
      decreases Addresses(heap) - onPath, v, 3
    {
      hide Unfold, TextOf, InHeap, Addresses;
      WritesLabelled(w.text, name, TextOf(shows, heap, v, onPath));
      w.text := w.text + name + ":";
      ok := Spell(w, v);
    }

    method SpellFields(w: Writer, v: Value) returns (ok: bool)
      requires Takes(v) && v.Struct?
      modifies this, w
      ensures onPath == old(onPath)
      ensures ok <==> Unfold(heap, v, onPath).Some?
      ensures ok ==> w.text == old(w.text) + TextOf(shows, heap, v, onPath)
      decreases Addresses(heap) - onPath, v, 1
    {
      ghost var texts, begun := FieldTexts(shows, heap, v.fields, onPath), w.text;
      ghost var values := FieldValues(v.fields);
      hide Unfold, TextOf, PartsWritten, Addresses;
      w.text := w.text + "{";
      NoPartsWritten(heap, values, onPath, texts, w.text);
      var i := 0;
      while i < |v.fields|
        invariant 0 <= i <= |v.fields| && onPath == old(onPath)
        invariant PartsWritten(heap, values, onPath, texts, w.text, begun + "{", i)
      {
        ghost var before := w.text;
        if i > 0 {
          w.text := w.text + ",";
        }
        ok := SpellField(w, v.fields[i].name, v.fields[i].value);
        if !ok {
          RefusedWithPart(heap, v, i, onPath);
          return;
        }
        OneMorePartWritten(heap, values, onPath, texts, before, begun + "{", i, w.text);
        i := i + 1;
      }
      StructWritten(shows, heap, v, onPath, w.text, begun);
      w.text := w.text + "}";
      ok := true;
    }

    method SpellEntries(w: Writer, v: Value) returns (ok: bool)
      requires Takes(v) && v.Entries?
      modifies this, w
      ensures onPath == old(onPath)
      ensures ok <==> Unfold(heap, v, onPath).Some?
      ensures ok ==> w.text == old(w.text) + TextOf(shows, heap, v, onPath)
      decreases Addresses(heap) - onPath, v, 1
    {
      hide Unfold, TextOf, Commas, AreWritten;
      var entries: seq<Written>;
      ghost var keys: seq<Key>;
      ok, entries, keys := CollectEntries(v);
      if ok {
        entries, keys := SortEntries(v, entries, keys);
        TextOfEntries(shows, heap, v, keys, entries, onPath);
        WriteEntries(w, entries);
      }
    }

    /** A map hands out its entries in whatever order. */
    method CollectEntries(v: Value) returns (ok: bool, entries: seq<Written>, ghost keys: seq<Key>)
      requires Takes(v) && v.Entries?
      modifies this
      ensures onPath == old(onPath)
      ensures ok <==> Unfold(heap, v, onPath).Some?
      ensures ok ==> AreWritten(shows, heap, v, keys, entries, onPath) && forall k :: k in keys <==> k in v.table
      ensures ok ==> forall i, j | 0 <= i < j < |keys| :: keys[i] != keys[j]
      decreases Addresses(heap) - onPath, v, 0
    {
      hide Unfold, TextOf, KeyText, Addresses, AreWritten;
      EntriesUnfold(heap, v, onPath);
      entries, keys := [], [];
      NothingIsWritten(shows, heap, v, onPath);
      var rest := v.table.Keys;
      while rest != {}
        invariant onPath == old(onPath) && AreWritten(shows, heap, v, keys, entries, onPath)
        invariant forall k :: k in v.table <==> k in rest || k in keys
        invariant forall k <- rest :: k !in keys
        invariant forall k | k in keys :: Unfold(heap, v.table[k], onPath).Some?
        invariant forall i, j | 0 <= i < j < |keys| :: keys[i] != keys[j]
        decreases rest
      {
        var k :| k in rest;
        rest := rest - {k};
        var element := new Writer();
        ok := Spell(element, v.table[k]);
        if !ok {
          return;
        }
        OneMoreIsWritten(shows, heap, v, keys, entries, k, Written(KeyText(shows, k), element.text), onPath);
        entries := entries + [Written(KeyText(shows, k), element.text)];
        keys := keys + [k];
      }
      ok := true;
    }

    /** Ordered by the texts of the keys, which are all different. */
    method SortEntries(v: Value, entries: seq<Written>, ghost keys: seq<Key>)
      returns (sorted: seq<Written>, ghost inOrder: seq<Key>)
      requires Takes(v) && v.Entries? && AreWritten(shows, heap, v, keys, entries, onPath)
      requires forall i, j | 0 <= i < j < |keys| :: keys[i] != keys[j]
      ensures AreWritten(shows, heap, v, inOrder, sorted, onPath) && T.Ascending(shows, inOrder)
      ensures forall k :: k in inOrder <==> k in keys
    {
      hide KeyText, TextOf, Unfold, WrittenFor;
      sorted, inOrder := [], [];
      for i := 0 to |entries|
        invariant AreWritten(shows, heap, v, inOrder, sorted, onPath) && T.Ascending(shows, inOrder)
        invariant forall k :: k in inOrder <==> k in keys[..i]
      {
        assert keys[..i + 1] == keys[..i] + [keys[i]];
        sorted, inOrder := InsertEntry(v, entries[i], keys[i], sorted, inOrder);
      }
      assert keys[..|entries|] == keys;
    }

    method InsertEntry(v: Value, entry: Written, ghost key: Key, sorted: seq<Written>, ghost keys: seq<Key>)
      returns (more: seq<Written>, ghost moreKeys: seq<Key>)
      requires Takes(v) && v.Entries? && AreWritten(shows, heap, v, keys, sorted, onPath) && T.Ascending(shows, keys)
      requires key in v.table && key !in keys && entry == WrittenFor(shows, heap, v, key, onPath)
      ensures AreWritten(shows, heap, v, moreKeys, more, onPath) && T.Ascending(shows, moreKeys)
      ensures forall k :: k in moreKeys <==> k in keys || k == key
    {
      hide KeyText, TextOf, T.Ascending;
      var i := 0;
      while i < |sorted| && Less(sorted[i].key, entry.key)
        invariant 0 <= i <= |sorted|
        invariant forall j | 0 <= j < i :: Less(KeyText(shows, keys[j]), KeyText(shows, key))
      {
        i := i + 1;
      }
      more, moreKeys := sorted[..i] + [entry] + sorted[i..], keys[..i] + [key] + keys[i..];
      StaysAscending(shows, v, keys, key, i);
      StaysWritten(shows, heap, v, keys, sorted, key, entry, i, onPath);
      HoldsOneMore(keys, key, i);
    }

    method WriteEntries(w: Writer, entries: seq<Written>)
      modifies w
      ensures w.text == old(w.text) + ("{" + Commas(EntryTexts(entries)) + "}")
    {
      ghost var texts, begun := EntryTexts(entries), w.text;
      hide HasWritten, Commas;
      w.text := w.text + "{";
      WritesNone(w.text, texts);
      for i := 0 to |entries|
        invariant HasWritten(w.text, begun + "{", texts, i)
      {
        ghost var text := w.text;
        if i > 0 {
          w.text := w.text + ",";
        }
        WritesLabelled(w.text, entries[i].key, entries[i].element);
        w.text := w.text + entries[i].key + ":" + entries[i].element;
        WritesOne(text, begun + "{", texts, i, texts[i]);
      }
      EntriesWritten(w.text, begun, texts);
      w.text := w.text + "}";
    }
  }

  lemma {:induction false} EntriesWritten(text: string, begun: string, texts: seq<string>)
    requires HasWritten(text, begun + "{", texts, |texts|)
    ensures text + "}" == begun + ("{" + Commas(texts) + "}")
  {
    assert texts[..|texts|] == texts;
    GroupText(begun, "{", Commas(texts), "}");
  }

  lemma {:induction false} StaysWritten(
      shows: char -> bool, h: Heap, v: Value, keys: seq<Key>, sorted: seq<Written>, key: Key, entry: Written, i: nat,
      path: set<nat>)
    requires WellFormed(h) && InHeap(h, v) && v.Entries? && AreWritten(shows, h, v, keys, sorted, path) && i <= |keys|
    requires key in v.table && entry == WrittenFor(shows, h, v, key, path)
    ensures AreWritten(shows, h, v, keys[..i] + [key] + keys[i..], sorted[..i] + [entry] + sorted[i..], path)
  {
    hide WrittenFor, InHeap, WellFormed;
    var moreKeys, more := keys[..i] + [key] + keys[i..], sorted[..i] + [entry] + sorted[i..];
    forall j | 0 <= j < |moreKeys|
      ensures moreKeys[j] in v.table && more[j] == WrittenFor(shows, h, v, moreKeys[j], path)
    {
      if j < i {
        assert moreKeys[j] == keys[j] && more[j] == sorted[j];
      } else if j > i {
        assert moreKeys[j] == keys[j - 1] && more[j] == sorted[j - 1];
      }
    }
  }

  lemma {:induction false} HoldsOneMore(keys: seq<Key>, key: Key, i: nat)
    requires i <= |keys|
    ensures forall k :: k in keys[..i] + [key] + keys[i..] <==> k in keys || k == key
  {
    assert keys == keys[..i] + keys[i..];
  }

  lemma {:induction false} StaysAscending(shows: char -> bool, v: Value, keys: seq<Key>, key: Key, i: nat)
    requires v.Entries? && AllOfKind(v.kind, v.table.Keys) && key in v.table && i <= |keys| && T.Ascending(shows, keys)
    requires key !in keys && forall j | 0 <= j < |keys| :: keys[j] in v.table
    requires forall j | 0 <= j < i :: Less(KeyText(shows, keys[j]), KeyText(shows, key))
    requires i < |keys| ==> !Less(KeyText(shows, keys[i]), KeyText(shows, key))
    ensures T.Ascending(shows, keys[..i] + [key] + keys[i..])
  {
    hide KeyText, OfKind;
    var more := keys[..i] + [key] + keys[i..];
    if i < |keys| {
      KeyTextsSeparable(shows, v.kind, keys[i], key);
      LessIsTotal(KeyText(shows, keys[i]), KeyText(shows, key));
    }
    hide Less;
    forall j | i <= j < |keys| ensures Less(KeyText(shows, key), KeyText(shows, keys[j])) {
      if j > i {
        LessIsTransitive(KeyText(shows, key), KeyText(shows, keys[i]), KeyText(shows, keys[j]));
      }
    }
    forall a, b | 0 <= a < b < |more| ensures Less(KeyText(shows, more[a]), KeyText(shows, more[b])) {
      assert more[a] == if a < i then keys[a] else if a == i then key else keys[a - 1];
      assert more[b] == if b < i then keys[b] else if b == i then key else keys[b - 1];
    }
  }

  /** spellOut: the name of the type and the value, or, for no value at all, nil. */
  method SpelledOut(h: Heap, shows: char -> bool, typeName: string, v: Option<Value>) returns (ok: bool, text: string)
    requires WellFormed(h) && (v.Some? ==> InHeap(h, v.value))
    ensures v == None ==> ok && text == "nil"
    ensures v.Some? ==> (!ok <==> exists walk :: IsBlocked(h, v.value, walk, {}))
    ensures v.Some? && ok ==> Unfold(h, v.value, {}).Some? && text == typeName + TextOf(shows, h, v.value, {})
  {
    if v == None {
      return true, "nil";
    }
    var w := new Writer();
    var speller := new Speller(h, shows);
    w.text := typeName;
    ok := speller.Spell(w, v.value);
    text := w.text;
    RefusedExactlyIfBlocked(h, v.value);
  }
}
