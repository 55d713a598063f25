/** The pieces of the text that spellOut writes (architecturekit/httpapi/spell_out.go):
    strings, numbers, keys and lists of pieces, and where each of them ends. */
module SpellTexts {
  import opened Revisions

  /** A Go string as it is decoded: characters, and bytes that are not part of one. */
  datatype Unit = Rune(c: char) | BadByte(byte: nat)

  datatype Key = TextKey(units: seq<Unit>) | NumberKey(number: int) | FlagKey(flag: bool)

  datatype KeyKind = TextKeys | NumberKeys | FlagKeys

  // ----- What is written -----

  /** What may follow a value in the text. */
  predicate IsStop(c: char) { c == ',' || c == ']' || c == '}' || c == ':' }

  predicate HasNoStop(s: string) { forall i | 0 <= i < |s| :: !IsStop(s[i]) }

  /** What strconv writes floats with, NaN, +Inf and -Inf included. */
  predicate IsFloatCharacter(c: char) {
    || IsDigit(c) || c == '+' || c == '-' || c == '.' || c == 'e'
    || c == 'N' || c == 'a' || c == 'I' || c == 'n' || c == 'f'
  }

  predicate IsFloatText(text: string) {
    && text != "" && (IsDigit(text[0]) || text[0] == '+' || text[0] == '-' || text[0] == 'N')
    && forall i | 0 <= i < |text| :: IsFloatCharacter(text[i])
  }

  /** A complex number is in parentheses. */
  predicate IsComplexText(text: string) { text != "" && text[0] == '(' && HasNoStop(text) }

  function HexDigit(n: nat): char
    requires n < 16
  {
    "0123456789abcdef"[n]
  }

  function Hex(n: nat, digits: nat): (text: string)
    ensures |text| == digits
  {
    if digits == 0 then "" else Hex(n / 16, digits - 1) + [HexDigit(n % 16)]
  }

  /** shows says which characters strconv takes to be printable. */
  predicate IsPlain(shows: char -> bool, unit: Unit) {
    unit.Rune? && unit.c != '"' && unit.c != '\\' && shows(unit.c)
  }

  function EscapeLetter(unit: Unit): char {
    match unit
    case BadByte(_) => 'x'
    case Rune(c) =>
      if c == '"' || c == '\\' then c
      else if c == 7 as char then 'a'
      else if c == 8 as char then 'b'
      else if c == 12 as char then 'f'
      else if c == 10 as char then 'n'
      else if c == 13 as char then 'r'
      else if c == 9 as char then 't'
      else if c == 11 as char then 'v'
      else if c < ' ' || c == 0x7f as char then 'x'
      else if c as int < 0x10000 then 'u'
      else 'U'
  }

  function HexDigitsAfter(letter: char): nat {
    if letter == 'x' then 2 else if letter == 'u' then 4 else if letter == 'U' then 8 else 0
  }

  function Code(unit: Unit): nat { if unit.BadByte? then unit.byte else unit.c as nat }

  function Escape(shows: char -> bool, unit: Unit): string {
    if IsPlain(shows, unit) then [unit.c]
    else ['\\', EscapeLetter(unit)] + Hex(Code(unit), HexDigitsAfter(EscapeLetter(unit)))
  }

  function QuoteRest(shows: char -> bool, units: seq<Unit>): string {
    if units == [] then "\"" else Escape(shows, units[0]) + QuoteRest(shows, units[1..])
  }

  /** strconv.Quote */
  function Quote(shows: char -> bool, units: seq<Unit>): string { "\"" + QuoteRest(shows, units) }

  function FormatNumber(n: int): string { if n < 0 then "-" + Decimal(-n) else Decimal(n) }

  function FormatFlag(flag: bool): string { if flag then "true" else "false" }

  function KeyText(shows: char -> bool, key: Key): string {
    match key
    case TextKey(units) => Quote(shows, units)
    case NumberKey(n) => FormatNumber(n)
    case FlagKey(flag) => FormatFlag(flag)
  }

  function Tails(pieces: seq<string>): string {
    if pieces == [] then "" else "," + pieces[0] + Tails(pieces[1..])
  }

  /** The pieces with a comma between any two of them. */
  function Commas(pieces: seq<string>): string {
    if pieces == [] then "" else pieces[0] + Tails(pieces[1..])
  }

  // ----- The order of a map's entries -----

  /** strings.Compare */
  predicate Less(a: string, b: string) {
    b != "" && (a == "" || a[0] < b[0] || (a[0] == b[0] && Less(a[1..], b[1..])))
  }

  lemma {:induction false} LessIsTotal(a: string, b: string)
    ensures Less(a, b) || a == b || Less(b, a)
    ensures !(Less(a, b) && Less(b, a)) && !Less(a, a)
  {
    if a != "" && b != "" {
      LessIsTotal(a[1..], b[1..]);
      assert a == [a[0]] + a[1..] && b == [b[0]] + b[1..];
    }
    if a != "" {
      LessIsTotal(a[1..], a[1..]);
    }
  }

  lemma {:induction false} LessIsTransitive(a: string, b: string, c: string)
    requires Less(a, b) && Less(b, c)
    ensures Less(a, c)
  {
    if a != "" && a[0] == b[0] == c[0] {
      LessIsTransitive(a[1..], b[1..], c[1..]);
    }
  }

  predicate OfKind(kind: KeyKind, key: Key) {
    match kind
    case TextKeys => key.TextKey? && AreUnits(key.units)
    case NumberKeys => key.NumberKey?
    case FlagKeys => key.FlagKey?
  }

  predicate AllOfKind(kind: KeyKind, keys: set<Key>) { forall k <- keys :: OfKind(kind, k) }

  // ----- A text ends where it ends -----

  /** b does not go on after a as if a ended there. */
  predicate EndsBefore(a: string, b: string) { |a| < |b| && a == b[..|a|] ==> !IsStop(b[|a|]) }

  /** Whatever follows, the two texts are not taken for one another. */
  predicate Separable(a: string, b: string) { EndsBefore(a, b) && EndsBefore(b, a) }

  predicate Stops(rest: string) { rest != "" && IsStop(rest[0]) }

  lemma {:induction false} Overlap(a: string, b: string, x: string, y: string)
    requires a + x == b + y && |a| <= |b|
    ensures a == b[..|a|] && x == b[|a|..] + y
  {
    assert (a + x)[..|a|] == a && (b + y)[..|a|] == b[..|a|];
    assert (a + x)[|a|..] == x && (b + y)[|a|..] == b[|a|..] + y;
  }

  lemma {:induction false} Cut(a: string, b: string, x: string, y: string)
    requires a + x == b + y && Separable(a, b) && Stops(x) && Stops(y)
    ensures a == b && x == y
  {
    if |a| <= |b| {
      Overlap(a, b, x, y);
    } else {
      Overlap(b, a, y, x);
    }
  }

  predicate IsProper(piece: string) { piece != "" && !IsStop(piece[0]) }

  ghost predicate PairwiseSeparable(p: seq<string>, q: seq<string>) {
    forall i | 0 <= i < |p| && i < |q| :: Separable(p[i], q[i])
  }

  lemma {:induction false} TailsSplit(p: seq<string>, q: seq<string>, close: char, x: string, y: string)
    requires PairwiseSeparable(p, q) && IsStop(close) && close != ','
    requires Tails(p) + [close] + x == Tails(q) + [close] + y
    ensures p == q && x == y
  {
    var l, r := Tails(p) + [close] + x, Tails(q) + [close] + y;
    if p == [] || q == [] {
      assert l[0] == (if p == [] then close else ',') && r[0] == (if q == [] then close else ',');
      assert l[1..] == x && r[1..] == y;
    } else {
      var restP, restQ := Tails(p[1..]) + [close] + x, Tails(q[1..]) + [close] + y;
      assert l == "," + (p[0] + restP) && r == "," + (q[0] + restQ);
      assert l[1..] == p[0] + restP && r[1..] == q[0] + restQ;
      Cut(p[0], q[0], restP, restQ);
      forall i | 0 <= i < |p| - 1 && i < |q| - 1 ensures Separable(p[1..][i], q[1..][i]) {
        assert Separable(p[i + 1], q[i + 1]);
      }
      TailsSplit(p[1..], q[1..], close, x, y);
      assert p == [p[0]] + p[1..] && q == [q[0]] + q[1..];
    }
  }

  /** The first of two groups of which one is empty. */
  lemma {:induction false} EmptySplit(p: seq<string>, close: char, x: string, y: string)
    requires p != [] ==> IsProper(p[0])
    requires IsStop(close) && Commas(p) + ([close] + x) == [close] + y
    ensures p == [] && x == y
  {
    var l, r := Commas(p) + ([close] + x), [close] + y;
    assert r[0] == close && r[1..] == y;
    if p != [] {
      BeginsWithFirst(p, [close] + x);
      assert false;
    }
    assert l[1..] == x;
  }

  lemma {:induction false} BeginsWithFirst(p: seq<string>, rest: string)
    requires p != [] && p[0] != ""
    ensures Commas(p) + rest != "" && (Commas(p) + rest)[0] == p[0][0]
  {
    assert (p[0] + Tails(p[1..]) + rest)[0] == p[0][0];
  }

  lemma {:induction false} GroupSplit(p: seq<string>, q: seq<string>, close: char, x: string, y: string)
    requires PairwiseSeparable(p, q) && IsStop(close) && close != ','
    requires |p| == |q| || forall piece | piece in p || piece in q :: IsProper(piece)
    requires Commas(p) + [close] + x == Commas(q) + [close] + y
    ensures p == q && x == y
  {
    hide IsProper, Tails, Commas;
    if p == [] && q == [] {
      EmptyGroup(p, close, x, y);
    } else if q == [] {
      assert p[0] in p;
      EmptyGroup(p, close, x, y);
    } else if p == [] {
      assert q[0] in q;
      EmptyGroup(q, close, y, x);
    } else {
      NonEmptySplit(p, q, close, x, y);
    }
  }

  lemma {:induction false} EmptyGroup(p: seq<string>, close: char, x: string, y: string)
    requires p != [] ==> IsProper(p[0])
    requires IsStop(close) && Commas(p) + [close] + x == Commas([]) + [close] + y
    ensures p == [] && x == y
  {
    hide IsProper, Tails;
    assert Commas(p) + ([close] + x) == Commas(p) + [close] + x;
    assert Commas([]) + [close] + y == [close] + y;
    EmptySplit(p, close, x, y);
  }

  lemma {:induction false} NonEmptySplit(p: seq<string>, q: seq<string>, close: char, x: string, y: string)
    requires PairwiseSeparable(p, q) && IsStop(close) && close != ',' && p != [] && q != []
    requires Commas(p) + [close] + x == Commas(q) + [close] + y
    ensures p == q && x == y
  {
    hide Tails, Commas, Separable;
    TailsBeginWithComma(p, [close], x);
    TailsBeginWithComma(q, [close], y);
    TailsSplit(p, q, close, x, y);
  }

  lemma {:induction false} TailsBeginWithComma(p: seq<string>, close: string, x: string)
    requires p != []
    ensures Tails(p) + close + x == "," + (Commas(p) + close + x)
  {
    var commas := Commas(p);
    assert Tails(p) == "," + commas;
    hide Tails, Commas;
    assert "," + commas + close + x == "," + (commas + close + x);
  }

  /** A text in brackets is never a proper prefix of another one. */
  ghost predicate PrefixFree(a: string, b: string) { forall x: string, y: string :: a + x == b + y ==> a == b }

  lemma {:induction false} PrefixFreeIsSeparable(a: string, b: string)
    requires PrefixFree(a, b)
    ensures Separable(a, b)
  {
    if |a| < |b| && a == b[..|a|] {
      Completed(a, b);
      assert false;
    }
    if |b| < |a| && b == a[..|b|] {
      Completed(b, a);
      assert false;
    }
  }

  lemma {:induction false} Completed(a: string, b: string)
    requires |a| <= |b| && a == b[..|a|]
    ensures a + b[|a|..] == b + "" && b + "" == a + b[|a|..]
  {
  }

  lemma {:induction false} LabelledSeparable(k: string, l: string, a: string, b: string)
    requires Separable(k, l) && Separable(a, b)
    ensures Separable(k + ":" + a, l + ":" + b)
  {
    var left, right := k + ":" + a, l + ":" + b;
    if |left| < |right| && left == right[..|left|] {
      LabelsCut(k, l, a, b, right[|left|..]);
      assert right[|left|] == b[|a|];
    }
    if |right| < |left| && right == left[..|right|] {
      LabelsCut(l, k, b, a, left[|right|..]);
      assert left[|right|] == a[|b|];
    }
  }

  lemma {:induction false} LabelsCut(k: string, l: string, a: string, b: string, x: string)
    requires Separable(k, l) && k + ":" + a + x == l + ":" + b
    ensures k == l && a + x == b && b[..|a|] == a
  {
    assert k + (":" + a + x) == k + ":" + a + x && l + (":" + b) == l + ":" + b;
    Cut(k, l, ":" + a + x, ":" + b);
    assert (":" + a + x)[1..] == a + x && (":" + b)[1..] == b;
  }

  // ----- Strings, numbers and flags -----

  predicate IsUnit(u: Unit) { u.BadByte? ==> 0x80 <= u.byte < 0x100 }

  predicate AreUnits(units: seq<Unit>) { forall i | 0 <= i < |units| :: IsUnit(units[i]) }

  predicate Fits(n: nat, digits: nat) { if digits == 0 then n == 0 else Fits(n / 16, digits - 1) }

  lemma {:induction false} HexInjective(m: nat, n: nat, digits: nat)
    requires Fits(m, digits) && Fits(n, digits) && Hex(m, digits) == Hex(n, digits)
    ensures m == n
  {
    if digits > 0 {
      var a, b := Hex(m / 16, digits - 1), Hex(n / 16, digits - 1);
      var c, d := HexDigit(m % 16), HexDigit(n % 16);
      assert a + [c] == b + [d];
      SameEnds(a, b, c, d);
      HexInjective(m / 16, n / 16, digits - 1);
      hide Hex, Fits;
      assert m % 16 == n % 16;
    }
  }

  lemma {:induction false} SameEnds(a: string, b: string, c: char, d: char)
    requires |a| == |b| && a + [c] == b + [d]
    ensures a == b && c == d
  {
    assert (a + [c])[..|a|] == a && (b + [d])[..|b|] == b;
    assert (a + [c])[|a|] == c && (b + [d])[|b|] == d;
  }

  lemma {:induction false} CodeFits(u: Unit)
    requires IsUnit(u) && HexDigitsAfter(EscapeLetter(u)) > 0
    ensures Fits(Code(u), HexDigitsAfter(EscapeLetter(u)))
  {
    var n := Code(u);
    if EscapeLetter(u) == 'x' {
      assert n < 256 && Fits(n / 16 / 16, 0);
      assert Fits(n / 16, 1);
    } else if EscapeLetter(u) == 'u' {
      FitsFour(n);
    } else {
      FitsFour(n / 65536);
      assert Fits(n / 16 / 16 / 16 / 16, 4);
      assert Fits(n / 16 / 16 / 16, 5);
      assert Fits(n / 16 / 16, 6);
      assert Fits(n / 16, 7);
    }
  }

  lemma {:induction false} FitsFour(n: nat)
    requires n < 65536
    ensures Fits(n, 4)
  {
    assert Fits(n / 16 / 16 / 16 / 16, 0);
    assert Fits(n / 16 / 16 / 16, 1);
    assert Fits(n / 16 / 16, 2);
    assert Fits(n / 16, 3);
  }

  /** The letter after a backslash, and the number, name a unit. */
  lemma {:induction false} EscapeNames(shows: char -> bool, u: Unit, v: Unit)
    requires IsUnit(u) && IsUnit(v) && !IsPlain(shows, u) && !IsPlain(shows, v)
    requires EscapeLetter(u) == EscapeLetter(v) && (HexDigitsAfter(EscapeLetter(u)) > 0 ==> Code(u) == Code(v))
    ensures u == v
  {
  }

  lemma {:induction false} EscapeSplit(shows: char -> bool, u: Unit, v: Unit, x: string, y: string)
    requires IsUnit(u) && IsUnit(v) && Escape(shows, u) + x == Escape(shows, v) + y
    ensures u == v && x == y
  {
    hide Hex, EscapeLetter, Fits, HexDigitsAfter, IsUnit, Code;
    var l, r := Escape(shows, u) + x, Escape(shows, v) + y;
    if IsPlain(shows, u) || IsPlain(shows, v) {
      assert l[0] == r[0] && IsPlain(shows, u) && IsPlain(shows, v);
      assert l[1..] == x && r[1..] == y;
    } else {
      assert l[1] == EscapeLetter(u) && r[1] == EscapeLetter(v);
      var digits := HexDigitsAfter(EscapeLetter(u));
      assert l[2..2 + digits] == Hex(Code(u), digits) && r[2..2 + digits] == Hex(Code(v), digits);
      assert l[2 + digits..] == x && r[2 + digits..] == y;
      if digits > 0 {
        CodeFits(u);
        CodeFits(v);
        HexInjective(Code(u), Code(v), digits);
      }
      EscapeNames(shows, u, v);
    }
  }

  lemma {:induction false} QuoteSplit(shows: char -> bool, a: seq<Unit>, b: seq<Unit>, x: string, y: string)
    requires AreUnits(a) && AreUnits(b) && QuoteRest(shows, a) + x == QuoteRest(shows, b) + y
    ensures a == b && x == y
  {
    hide Escape;
    var l, r := QuoteRest(shows, a) + x, QuoteRest(shows, b) + y;
    if a == [] || b == [] {
      EscapeIsNoQuote(shows, a);
      EscapeIsNoQuote(shows, b);
      assert l[0] == r[0];
      assert l[1..] == x && r[1..] == y;
    } else {
      assert l == Escape(shows, a[0]) + (QuoteRest(shows, a[1..]) + x);
      assert r == Escape(shows, b[0]) + (QuoteRest(shows, b[1..]) + y);
      EscapeSplit(shows, a[0], b[0], QuoteRest(shows, a[1..]) + x, QuoteRest(shows, b[1..]) + y);
      QuoteSplit(shows, a[1..], b[1..], x, y);
      assert a == [a[0]] + a[1..] && b == [b[0]] + b[1..];
    }
  }

  lemma {:induction false} EscapeIsNoQuote(shows: char -> bool, units: seq<Unit>)
    ensures QuoteRest(shows, units) != "" && (QuoteRest(shows, units)[0] == '"' <==> units == [])
  {
    hide Hex, EscapeLetter, HexDigitsAfter;
  }

  lemma {:induction false} NumberTextInjective(m: int, n: int)
    requires FormatNumber(m) == FormatNumber(n)
    ensures m == n
  {
    if (m < 0) == (n < 0) {
      if m < 0 {
        assert FormatNumber(m)[1..] == Decimal(-m) && FormatNumber(n)[1..] == Decimal(-n);
        DecimalRoundTrip(-m);
        DecimalRoundTrip(-n);
      } else {
        DecimalRoundTrip(m);
        DecimalRoundTrip(n);
      }
    } else {
      if m < 0 {
        SignShows(m, n);
      } else {
        SignShows(n, m);
      }
      assert false;
    }
  }

  lemma {:induction false} SignShows(m: int, n: int)
    requires m < 0 <= n
    ensures FormatNumber(m) != FormatNumber(n)
  {
    hide Decimal;
    assert IsDigit(Decimal(n)[0]) && FormatNumber(m)[0] == '-';
  }

  lemma {:induction false} QuotesSeparable(shows: char -> bool, a: seq<Unit>, b: seq<Unit>)
    requires AreUnits(a) && AreUnits(b)
    ensures Separable(Quote(shows, a), Quote(shows, b)) && (Quote(shows, a) == Quote(shows, b) ==> a == b)
  {
    forall x: string, y: string | Quote(shows, a) + x == Quote(shows, b) + y ensures a == b {
      QuotesSplit(shows, a, b, x, y);
    }
    PrefixFreeIsSeparable(Quote(shows, a), Quote(shows, b));
    if Quote(shows, a) == Quote(shows, b) {
      QuotesSplit(shows, a, b, "", "");
    }
  }

  lemma {:induction false} QuotesSplit(shows: char -> bool, a: seq<Unit>, b: seq<Unit>, x: string, y: string)
    requires AreUnits(a) && AreUnits(b) && Quote(shows, a) + x == Quote(shows, b) + y
    ensures a == b
  {
    hide QuoteRest;
    var l, r := Quote(shows, a) + x, Quote(shows, b) + y;
    assert l[1..] == QuoteRest(shows, a) + x && r[1..] == QuoteRest(shows, b) + y;
    QuoteSplit(shows, a, b, x, y);
  }

  /** No two keys of a kind share a text, wherever it ends. */
  lemma {:induction false} KeyTextsSeparable(shows: char -> bool, kind: KeyKind, k: Key, l: Key)
    requires OfKind(kind, k) && OfKind(kind, l)
    ensures Separable(KeyText(shows, k), KeyText(shows, l)) && IsProper(KeyText(shows, k))
    ensures KeyText(shows, k) == KeyText(shows, l) ==> k == l
  {
    match kind
    case TextKeys => QuotesSeparable(shows, k.units, l.units);
    case NumberKeys =>
      NumberHasNoStop(k.number);
      NumberHasNoStop(l.number);
      if KeyText(shows, k) == KeyText(shows, l) {
        NumberTextInjective(k.number, l.number);
      }
    case FlagKeys => assert HasNoStop(FormatFlag(k.flag)) && HasNoStop(FormatFlag(l.flag));
  }

  lemma {:induction false} NumberHasNoStop(n: int)
    ensures HasNoStop(FormatNumber(n)) && FormatNumber(n) != ""
  {
    hide Decimal;
    var digits := if n < 0 then Decimal(-n) else Decimal(n);
    assert forall i | 0 <= i < |digits| :: IsDigit(digits[i]);
  }
}
