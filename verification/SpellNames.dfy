/** When values of two types are spelled out alike, names of types included: one name
    has to continue the other, and the text of the one value is then what it continues
    with, followed by the text of the other (architecturekit/httpapi/spell_out.go). */
module SpellNames {
  import opened Basics
  import opened Revisions
  import opened SpellTexts
  import opened SpellTrees

  /** What the name of a type is made of, and may continue with. */
  predicate IsNameCharacter(c: char) {
    IsDigit(c) || 'a' <= c <= 'z' || 'A' <= c <= 'Z' || c == '_' || c >= 0x80 as char
  }

  predicate ContinuesName(s: string) { s != "" && IsNameCharacter(s[0]) }

  predicate IsNumeric(t: Tree) { t.Number? || t.Float? }

  /** Only numbers and floats can be written as a piece of a name and what is written for
      something else, and that is a number or a float as well. */
  lemma {:induction false} CollidingAreNumeric(
      shows: char -> bool, types: Types, id: nat, t: Tree, other: nat, u: Tree, s: string)
    requires IsBare(t) && IsBare(u) && HasType(types, id, t) && HasType(types, other, u)
    requires ContinuesName(s) && Print(shows, t) == s + Print(shows, u)
    ensures IsNumeric(t) && IsNumeric(u)
  {
    BeginsByKind(shows, types, id, t);
    BeginsByKind(shows, types, other, u);
    var l, r := Print(shows, t), Print(shows, u);
    hide Print, HasType, IsBare;
    EndsNumeric(t, l, s, r, u);
    if IsNumeric(t) {
      NumericText(shows, types, id, t);
      assert forall i | 0 <= i < |r| :: r[i] == l[|s| + i];
      BeginsNumeric(u, r);
    }
  }

  /** The texts of nil and the flags have no rest that any text begins with. */
  lemma {:induction false} EndsNumeric(t: Tree, l: string, s: string, r: string, u: Tree)
    requires l == s + r && ContinuesName(s) && r != "" && Begins(t, l[0]) && Begins(u, r[0])
    requires (t.Nil? ==> l == "nil") && (t.Flag? ==> l == FormatFlag(t.flag))
    ensures IsNumeric(t)
  {
    assert l[0] == s[0] && l[|s|] == r[0];
  }

  lemma {:induction false} BeginsNumeric(u: Tree, r: string)
    requires r != "" && Begins(u, r[0]) && forall i | 0 <= i < |r| :: IsFloatCharacter(r[i])
    requires (u.Nil? ==> r == "nil") && (u.Flag? ==> r == FormatFlag(u.flag))
    ensures IsNumeric(u)
  {
    assert |r| > 2 ==> IsFloatCharacter(r[1]) && IsFloatCharacter(r[2]);
  }

  /** Which character the text of a value begins with. */
  predicate Begins(t: Tree, c: char) {
    match t
    case Nil => c == 'n'
    case Flag(flag) => c == if flag then 't' else 'f'
    case Number(n) => if n < 0 then c == '-' else IsDigit(c)
    case Float(_) => IsDigit(c) || c == '+' || c == '-' || c == 'N'
    case Complex(_) => c == '('
    case Text(_) => c == '"'
    case Pointer(_) => c == '&'
    case List(_) => c == '['
    case Struct(_) => c == '{'
    case Table(_) => c == '{'
    case Interface(_, _) => false
  }

  lemma {:induction false} BeginsByKind(shows: char -> bool, types: Types, id: nat, t: Tree)
    requires IsBare(t) && HasType(types, id, t)
    ensures Print(shows, t) != "" && Begins(t, Print(shows, t)[0])
    ensures t.Nil? ==> Print(shows, t) == "nil"
    ensures t.Flag? ==> Print(shows, t) == FormatFlag(t.flag)
  {
    hide Commas, InOrder, Decimal;
  }

  lemma {:induction false} NumericText(shows: char -> bool, types: Types, id: nat, t: Tree)
    requires IsNumeric(t) && HasType(types, id, t)
    ensures forall i | 0 <= i < |Print(shows, t)| :: IsFloatCharacter(Print(shows, t)[i])
    ensures t.Number? ==> forall i | 0 < i < |Print(shows, t)| :: IsDigit(Print(shows, t)[i])
  {
    hide Decimal;
  }

  /** Two values of types one of whose names is the other's or continues it are spelled
      out alike exactly if the text of the first is what the name continues with, followed
      by the text of the second. If it continues, both are numbers or floats. If both
      types have one name, any two values of the one that are a value of the other as well
      are told apart exactly if they differ. */
  lemma {:induction false} NamesCollideExactly(
      shows: char -> bool, types: Types, name: string, id: nat, t: Tree, s: string, other: nat, u: Tree)
    requires IsBare(t) && IsBare(u) && HasType(types, id, t) && HasType(types, other, u)
    requires s == "" || ContinuesName(s)
    ensures name + Print(shows, t) == (name + s) + Print(shows, u) <==> Print(shows, t) == s + Print(shows, u)
    ensures name + Print(shows, t) == (name + s) + Print(shows, u) && s != "" ==> IsNumeric(t) && IsNumeric(u)
    ensures s == "" && HasType(types, id, u) ==>
      (name + Print(shows, t) == (name + s) + Print(shows, u) <==> t == u)
  {
    var l, r := Print(shows, t), Print(shows, u);
    if s == "" && HasType(types, id, u) {
      TextTellsValues(shows, types, id, t, u);
    }
    hide Print, HasType, IsBare;
    Associates(name, s, r);
    assert "" + r == r;
    if name + l == name + (s + r) {
      assert (name + l)[|name|..] == l && (name + (s + r))[|name|..] == s + r;
    }
    if l == s + r && s != "" {
      CollidingAreNumeric(shows, types, id, t, other, u, s);
    }
  }

  /** Two structs, as of one name in packages whose paths end alike. */
  const TWO_STRUCTS: Types := map[
    0 := StructType([FieldType("n", 2)]), 1 := StructType([FieldType("n", 2)]), 2 := NumberType]

  /** Values of different types of one name are spelled out alike, structs as well. */
  lemma {:induction false} OneNameTellsNoTypes(shows: char -> bool, n: int)
    ensures var t := Struct([Field("n", Number(n))]);
      && HasType(TWO_STRUCTS, 0, t) && HasType(TWO_STRUCTS, 1, t)
      && Print(shows, t) == "{" + ("n:" + FormatNumber(n)) + "}"
  {
    var t := Struct([Field("n", Number(n))]);
    assert HasType(TWO_STRUCTS, 2, t.fields[0].value);
    PrintsOneField(shows, "n", Number(n));
    hide Print, Decimal;
  }

  lemma {:induction false} PrintsOneField(shows: char -> bool, name: string, value: Tree)
    ensures Print(shows, Struct([Field(name, value)])) == "{" + (name + ":" + Print(shows, value)) + "}"
  {
    var fields := [Field(name, value)];
    assert seq(|fields|, i requires 0 <= i < |fields| => fields[i].name + ":" + Print(shows, fields[i].value)) ==
      [name + ":" + Print(shows, value)];
  }

  // ----- Whole numbers -----

  lemma {:induction false} DecimalLeads(n: nat)
    ensures Decimal(n)[0] == '0' ==> n == 0
  {
    if n >= 10 {
      DecimalLeads(n / 10);
    }
  }

  /** A string of digits that does not begin with zero is how its number is written. */
  lemma {:induction false} DecimalOfNumber(digits: string)
    requires AllDigits(digits) && digits != "" && digits[0] != '0'
    ensures NumberOf(digits) > 0 && Decimal(NumberOf(digits)) == digits
    decreases |digits|
  {
    var before, last := digits[..|digits| - 1], digits[|digits| - 1];
    assert digits == before + [last];
    if before != "" {
      DecimalOfNumber(before);
      assert NumberOf(digits) / 10 == NumberOf(before);
    } else {
      assert NumberOf(before) == 0;
    }
  }

  /** The numbers of two types, from min to max and from otherMin to otherMax. */
  ghost predicate NumbersCollide(s: string, min: int, max: int, otherMin: int, otherMax: int) {
    exists m: int, n: int ::
      min <= m <= max && otherMin <= n <= otherMax && FormatNumber(m) == s + FormatNumber(n)
  }

  /** Two types of whole numbers, the name of the second of which continues the name of
      the first by s, have values that are spelled out alike exactly if s is digits, does
      not begin with a zero, and is, with a zero behind it, a number of the first type: int
      and int8 have some, and two types of eight bits whose names differ by 999 have none. */
  lemma {:induction false} NumbersCollideExactly(s: string, min: int, max: int, otherMin: int, otherMax: int)
    requires ContinuesName(s) && min <= 0 <= max && otherMin <= 0 <= otherMax
    ensures NumbersCollide(s, min, max, otherMin, otherMax) <==>
      AllDigits(s) && s[0] != '0' && NumberOf(s + "0") <= max
  {
    hide Decimal, NumberOf;
    if AllDigits(s) && s[0] != '0' && NumberOf(s + "0") <= max {
      DecimalOfNumber(s + "0");
      DecimalOfZero();
      assert FormatNumber(NumberOf(s + "0")) == s + FormatNumber(0);
    }
    if NumbersCollide(s, min, max, otherMin, otherMax) {
      var m: int, n: int :| min <= m <= max && otherMin <= n <= otherMax && FormatNumber(m) == s + FormatNumber(n);
      CollidingNumbers(s, m, n);
    }
  }

  lemma {:induction false} CollidingNumbers(s: string, m: int, n: int)
    requires ContinuesName(s) && FormatNumber(m) == s + FormatNumber(n)
    ensures AllDigits(s) && s[0] != '0' && NumberOf(s + "0") <= m
  {
    hide Decimal, NumberOf;
    var l, r := FormatNumber(m), FormatNumber(n);
    assert l[0] == s[0] && l[|s|] == r[0];
    assert m >= 0;
    assert forall i | 0 <= i < |s| :: s[i] == l[i];
    assert forall i | 0 <= i < |r| :: r[i] == l[|s| + i];
    DecimalLeads(m);
    DecimalOfZero();
    DecimalRoundTrip(m);
    GrowsByDigits(s, r);
  }

  /** A number grows tenfold at least with every digit behind it. */
  lemma {:induction false} GrowsByDigits(s: string, digits: string)
    requires AllDigits(s) && AllDigits(digits) && digits != ""
    ensures AllDigits(s + "0") && AllDigits(s + digits) && NumberOf(s + "0") <= NumberOf(s + digits)
  {
    var before := digits[..|digits| - 1];
    assert (s + digits)[..|s + digits| - 1] == s + before && (s + "0")[..|s + "0"| - 1] == s;
    assert AllDigits(s + digits) && AllDigits(s + before);
    if before == "" {
      assert s + before == s;
    } else {
      GrowsByDigits(s, before);
      assert NumberOf(s + "0") == 10 * NumberOf(s);
    }
  }

  lemma {:induction false} DecimalOfZero()
    ensures Decimal(0) == "0"
  {
  }
}
