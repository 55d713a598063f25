/** Subject schemes: composing subjects from values by a pattern, and taking them
    apart again (architecturekit/subject.go). */
module SubjectSchemes {
  import opened Basics

  predicate IsSubjectCharacter(c: char) {
    'A' <= c <= 'Z' || 'a' <= c <= 'z' || '0' <= c <= '9' || c == '_' || c == '-'
  }

  predicate HasOnlySubjectCharacters(s: string) { forall i | 0 <= i < |s| :: IsSubjectCharacter(s[i]) }

  /** What may stand between two slashes of a subject. */
  predicate IsSegment(s: string) { s != "" && HasOnlySubjectCharacters(s) }

  // ----- Slashes -----

  predicate HasNoSlash(s: string) { forall i | 0 <= i < |s| :: s[i] != '/' }

  /** strings.Split at the slashes: always at least one part. */
  function Split(s: string): (parts: seq<string>)
    ensures parts != []
  {
    if s == "" then [""]
    else
      var rest := Split(s[1..]);
      if s[0] == '/' then [""] + rest else [[s[0]] + rest[0]] + rest[1..]
  }

  function Slashed(parts: seq<string>): string {
    if parts == [] then "" else "/" + parts[0] + Slashed(parts[1..])
  }

  lemma {:induction false} SplitBeforeSlash(part: string, rest: string)
    requires HasNoSlash(part)
    ensures Split(part) == [part] && Split(part + "/" + rest) == [part] + Split(rest)
  {
    if part == "" {
      assert ("/" + rest)[1..] == rest && part + "/" + rest == "/" + rest;
    } else {
      assert part == [part[0]] + part[1..];
      assert (part + "/" + rest)[1..] == part[1..] + "/" + rest;
      SplitBeforeSlash(part[1..], rest);
    }
  }

  /** Splitting undoes joining, */
  lemma {:induction false} SplitsSlashed(parts: seq<string>)
    requires parts != [] && forall i | 0 <= i < |parts| :: HasNoSlash(parts[i])
    ensures Slashed(parts) != "" && Slashed(parts)[0] == '/' && Split(Slashed(parts)[1..]) == parts
  {
    var first, rest := parts[0], parts[1..];
    SlashedBehindFirst(parts);
    assert ("/" + (first + Slashed(rest)))[1..] == first + Slashed(rest);
    if rest == [] {
      assert first + Slashed(rest) == first;
      SplitBeforeSlash(first, "");
    } else {
      SplitsSlashed(rest);
      hide Slashed, Split;
      var tail := Slashed(rest)[1..];
      assert Slashed(rest) == "/" + tail;
      assert first + Slashed(rest) == first + "/" + tail;
      SplitBeforeSlash(first, tail);
    }
  }

  lemma {:induction false} SlashedBehindFirst(parts: seq<string>)
    requires parts != []
    ensures Slashed(parts) == "/" + (parts[0] + Slashed(parts[1..]))
  {
    var tail := Slashed(parts[1..]);
    assert "/" + parts[0] + tail == "/" + (parts[0] + tail);
  }

  lemma {:induction false} FirstGrows(c: char, parts: seq<string>, s: string)
    requires parts != [] && Slashed(parts) == "/" + s
    ensures Slashed([[c] + parts[0]] + parts[1..]) == "/" + ([c] + s)
  {
    var grown := [[c] + parts[0]] + parts[1..];
    SlashedBehindFirst(parts);
    SlashedBehindFirst(grown);
    assert grown[1..] == parts[1..];
    hide Slashed;
    var tail := Slashed(parts[1..]);
    assert ("/" + s)[1..] == s && ("/" + (parts[0] + tail))[1..] == parts[0] + tail;
    assert [c] + parts[0] + tail == [c] + (parts[0] + tail);
  }

  /** and joining undoes splitting. */
  lemma {:induction false} SlashedSplit(s: string)
    ensures Slashed(Split(s)) == "/" + s && forall i | 0 <= i < |Split(s)| :: HasNoSlash(Split(s)[i])
  {
    if s != "" {
      SlashedSplit(s[1..]);
      var rest := Split(s[1..]);
      assert s == [s[0]] + s[1..];
      if s[0] == '/' {
        SlashedBehindFirst([""] + rest);
        assert ([""] + rest)[1..] == rest;
        assert "" + Slashed(rest) == s;
      } else {
        FirstGrows(s[0], rest, s[1..]);
      }
    }
  }

  // ----- Patterns -----

  predicate IsPlaceholder(segment: string) { segment != "" && segment[0] == '{' }

  function NameOf(segment: string): string
    requires |segment| >= 2
  {
    segment[1..|segment| - 1]
  }

  /** A literal, or a name in one pair of braces. */
  predicate IsWellFormed(segment: string) {
    IsSegment(segment) ||
    (|segment| > 2 && segment[0] == '{' && segment[|segment| - 1] == '}' && IsSegment(NameOf(segment)))
  }

  predicate AreWellFormed(segments: seq<string>) { forall i | 0 <= i < |segments| :: IsWellFormed(segments[i]) }

  /** The names of the placeholders, in order. */
  function Names(segments: seq<string>): seq<string>
    requires AreWellFormed(segments)
  {
    if segments == [] then []
    else if IsPlaceholder(segments[0]) then [NameOf(segments[0])] + Names(segments[1..])
    else Names(segments[1..])
  }

  predicate AreDistinct(names: seq<string>) { forall i, j | 0 <= i < j < |names| :: names[i] != names[j] }

  predicate IsValidPattern(pattern: string) {
    pattern != "" && pattern[0] == '/' && AreWellFormed(Split(pattern[1..])) && AreDistinct(Names(Split(pattern[1..])))
  }

  datatype Scheme = Scheme(pattern: string, segments: seq<string>, placeholders: seq<string>)

  /** What NewSubjectScheme makes of a valid pattern. */
  predicate IsSchemeOf(scheme: Scheme, pattern: string) {
    && scheme.pattern == pattern && IsValidPattern(pattern) && scheme.segments == Split(pattern[1..])
    && scheme.placeholders == Names(scheme.segments)
  }

  predicate IsScheme(scheme: Scheme) { IsSchemeOf(scheme, scheme.pattern) }

  /** None stands for the panic that names the mistake. */
  method NewSubjectScheme(pattern: string) returns (scheme: Option<Scheme>)
    ensures scheme.Some? <==> IsValidPattern(pattern)
    ensures scheme.Some? ==> IsSchemeOf(scheme.value, pattern)
  {
    if pattern == "" || pattern[0] != '/' {
      return None;
    }
    var segments := Split(pattern[1..]);
    var seen: set<string>, placeholders: seq<string> := {}, [];
    var i := 0;
    NothingNamed(segments);
    hide Split, HasOnlySubjectCharacters, AreWellFormed, Names, NamesGoOn;
    while i < |segments|
      invariant 0 <= i <= |segments| && AreWellFormed(segments[..i]) && NamesGoOn(segments, i, placeholders)
      invariant forall name :: name in seen <==> name in placeholders
      invariant AreDistinct(placeholders)
    {
      var segment := segments[i];
      NamesGoOnFurther(segments, i, placeholders);
      if segment == "" {
        return None;
      }
      if segment[0] != '{' {
        if !HasOnlySubjectCharacters(segment) {
          return None;
        }
      } else {
        BraceStartsNoSegment(segment);
        if |segment| < 2 || segment[|segment| - 1] != '}' {
          return None;
        }
        var name := NameOf(segment);
        if !IsSegment(name) {
          return None;
        }
        if name in seen {
          NameTaken(segments, placeholders, i, name);
          return None;
        }
        seen, placeholders := seen + {name}, placeholders + [name];
      }
      i := i + 1;
    }
    AllNamed(segments, placeholders);
    scheme := Some(Scheme(pattern, segments, placeholders));
  }

  /** What is collected from the first segments, with the names of the others. */
  ghost predicate NamesGoOn(segments: seq<string>, i: nat, before: seq<string>)
    requires i <= |segments|
  {
    AreWellFormed(segments) ==> before + Names(segments[i..]) == Names(segments)
  }

  lemma {:induction false} NothingNamed(segments: seq<string>)
    ensures AreWellFormed(segments[..0]) && NamesGoOn(segments, 0, [])
  {
    assert segments[0..] == segments;
  }

  lemma {:induction false} NamesGoOnFurther(segments: seq<string>, i: nat, before: seq<string>)
    requires i < |segments| && NamesGoOn(segments, i, before) && AreWellFormed(segments[..i])
    ensures AreWellFormed(segments) ==> IsWellFormed(segments[i])
    ensures IsWellFormed(segments[i]) ==>
      && AreWellFormed(segments[..i + 1])
      && NamesGoOn(segments, i + 1, if IsPlaceholder(segments[i]) then before + [NameOf(segments[i])] else before)
  {
    assert segments[i..][1..] == segments[i + 1..];
    hide IsWellFormed;
  }

  lemma {:induction false} AllNamed(segments: seq<string>, names: seq<string>)
    requires AreWellFormed(segments[..|segments|]) && NamesGoOn(segments, |segments|, names)
    ensures AreWellFormed(segments) && names == Names(segments)
  {
    assert segments[..|segments|] == segments;
  }

  lemma {:induction false} BraceStartsNoSegment(segment: string)
    requires segment != "" && segment[0] == '{'
    ensures !HasOnlySubjectCharacters(segment)
  {
  }

  lemma {:induction false} NameTaken(segments: seq<string>, before: seq<string>, i: nat, name: string)
    requires i < |segments| && IsWellFormed(segments[i]) && IsPlaceholder(segments[i]) && NameOf(segments[i]) == name
    requires name in before && NamesGoOn(segments, i, before)
    ensures AreWellFormed(segments) ==> !AreDistinct(Names(segments))
  {
    if AreWellFormed(segments) {
      var names := Names(segments);
      var j :| 0 <= j < |before| && before[j] == name;
      assert names[j] == name && names[|before|] == name;
    }
  }

  // ----- Values -----

  datatype Refusal = WrongNumber(needed: nat, given: nat) | IsEmpty(index: nat) | HasOtherCharacters(index: nat)

  predicate AreSegments(values: seq<string>) { forall i | 0 <= i < |values| :: IsSegment(values[i]) }

  predicate Accepts(scheme: Scheme, values: seq<string>) { |values| == |scheme.placeholders| && AreSegments(values) }

  /** The first value that can not be part of a subject is named. */
  method Check(scheme: Scheme, values: seq<string>) returns (refusal: Option<Refusal>)
    ensures refusal == None <==> Accepts(scheme, values)
    ensures |values| != |scheme.placeholders| ==> refusal == Some(WrongNumber(|scheme.placeholders|, |values|))
    ensures refusal.Some? && !refusal.value.WrongNumber? ==>
      var i := refusal.value.index;
      && i < |values| && AreSegments(values[..i]) && !IsSegment(values[i])
      && (refusal.value.IsEmpty? <==> values[i] == "")
  {
    if |values| != |scheme.placeholders| {
      return Some(WrongNumber(|scheme.placeholders|, |values|));
    }
    for i := 0 to |values|
      invariant AreSegments(values[..i])
    {
      if values[i] == "" {
        return Some(IsEmpty(i));
      }
      if !HasOnlySubjectCharacters(values[i]) {
        return Some(HasOtherCharacters(i));
      }
    }
    assert values[..|values|] == values;
    refusal := None;
  }

  // ----- Building and matching -----

  /** The segments with the values in place of the placeholders. */
  function Fill(segments: seq<string>, values: seq<string>): seq<string>
    requires AreWellFormed(segments) && |values| == |Names(segments)|
  {
    if segments == [] then []
    else if IsPlaceholder(segments[0]) then [values[0]] + Fill(segments[1..], values[1..])
    else [segments[0]] + Fill(segments[1..], values)
  }

  /** What stands at a place of the subject: the literal, or, for the n-th placeholder, the
      n-th value, which is also the value under its name. */
  lemma {:induction false} FilledAt(segments: seq<string>, values: seq<string>, i: nat)
    requires AreWellFormed(segments) && |values| == |Names(segments)| && i < |segments|
    ensures |Fill(segments, values)| == |segments|
    ensures if !IsPlaceholder(segments[i]) then Fill(segments, values)[i] == segments[i]
      else
        var n := |Names(segments[..i])|;
        n < |values| && Fill(segments, values)[i] == values[n] && Names(segments)[n] == NameOf(segments[i])
  {
    FillsEvery(segments, values);
    if i > 0 {
      var rest, placed := segments[1..], IsPlaceholder(segments[0]);
      FilledAt(rest, if placed then values[1..] else values, i - 1);
      assert segments[..i][1..] == rest[..i - 1];
    }
  }

  lemma {:induction false} FillsEvery(segments: seq<string>, values: seq<string>)
    requires AreWellFormed(segments) && |values| == |Names(segments)|
    ensures |Fill(segments, values)| == |segments|
  {
    if segments != [] {
      FillsEvery(segments[1..], if IsPlaceholder(segments[0]) then values[1..] else values);
    }
  }

  function SubjectOf(scheme: Scheme, values: seq<string>): string
    requires IsScheme(scheme) && |values| == |scheme.placeholders|
  {
    Slashed(Fill(scheme.segments, values))
  }

  /** The parts in the places of the placeholders, if the others are the literals. */
  function TakeApart(segments: seq<string>, parts: seq<string>): Option<seq<string>>
    requires AreWellFormed(segments)
  {
    if segments == [] || parts == [] then if segments == [] && parts == [] then Some([]) else None
    else
      var rest := TakeApart(segments[1..], parts[1..]);
      if rest.None? then None
      else if IsPlaceholder(segments[0]) then if IsSegment(parts[0]) then Some([parts[0]] + rest.value) else None
      else if parts[0] == segments[0] then rest
      else None
  }

  /** Taking apart and filling in are each other's inverse. */
  lemma {:induction false} TakesApartExactly(segments: seq<string>, parts: seq<string>, values: seq<string>)
    requires AreWellFormed(segments)
    ensures TakeApart(segments, parts) == Some(values) <==>
      |values| == |Names(segments)| && AreSegments(values) && Fill(segments, values) == parts
  {
    if segments != [] && parts != [] {
      if IsPlaceholder(segments[0]) {
        if values != [] {
          TakesApartExactly(segments[1..], parts[1..], values[1..]);
          assert values == [values[0]] + values[1..];
        }
      } else {
        TakesApartExactly(segments[1..], parts[1..], values);
      }
      assert parts == [parts[0]] + parts[1..];
    }
  }

  lemma {:induction false} FilledAreSegments(segments: seq<string>, values: seq<string>)
    requires AreWellFormed(segments) && |values| == |Names(segments)| && AreSegments(values)
    ensures |Fill(segments, values)| == |segments| && AreSegments(Fill(segments, values))
  {
    if segments != [] {
      if IsPlaceholder(segments[0]) {
        FilledAreSegments(segments[1..], values[1..]);
      } else {
        FilledAreSegments(segments[1..], values);
      }
    }
  }

  /** Whoever splits a built subject gets the filled segments back. */
  lemma {:induction false} BuiltSplits(scheme: Scheme, values: seq<string>)
    requires IsScheme(scheme) && Accepts(scheme, values)
    ensures var subject := SubjectOf(scheme, values);
      subject != "" && subject[0] == '/' && Split(subject[1..]) == Fill(scheme.segments, values)
  {
    var parts := Fill(scheme.segments, values);
    FilledAreSegments(scheme.segments, values);
    hide Fill;
    forall i | 0 <= i < |parts| ensures HasNoSlash(parts[i]) {
      assert IsSegment(parts[i]);
    }
    SplitsSlashed(parts);
  }

  /** No two lists of values compose the same subject. */
  lemma {:induction false} BuildIsInjective(scheme: Scheme, values: seq<string>, others: seq<string>)
    requires IsScheme(scheme) && Accepts(scheme, values) && Accepts(scheme, others)
    requires SubjectOf(scheme, values) == SubjectOf(scheme, others)
    ensures values == others
  {
    BuiltSplits(scheme, values);
    BuiltSplits(scheme, others);
    TakesApartExactly(scheme.segments, Fill(scheme.segments, values), values);
    TakesApartExactly(scheme.segments, Fill(scheme.segments, others), others);
  }

  lemma {:induction false} FillsOneMore(built: string, segments: seq<string>, values: seq<string>, i: nat, next: nat)
    requires AreWellFormed(segments) && i < |segments| && next <= |values| && |values| - next == |Names(segments[i..])|
    ensures IsPlaceholder(segments[i]) ==>
      && next < |values| && |values| - next - 1 == |Names(segments[i + 1..])|
      && built + Slashed(Fill(segments[i..], values[next..])) ==
           built + "/" + values[next] + Slashed(Fill(segments[i + 1..], values[next + 1..]))
    ensures !IsPlaceholder(segments[i]) ==>
      && |values| - next == |Names(segments[i + 1..])|
      && built + Slashed(Fill(segments[i..], values[next..])) ==
           built + "/" + segments[i] + Slashed(Fill(segments[i + 1..], values[next..]))
  {
    assert segments[i..][1..] == segments[i + 1..];
    var all := Fill(segments[i..], values[next..]);
    SlashedBehindFirst(all);
    if IsPlaceholder(segments[i]) {
      assert values[next..][1..] == values[next + 1..];
    }
    hide Slashed, Fill;
    assert built + ("/" + (all[0] + Slashed(all[1..]))) == built + "/" + all[0] + Slashed(all[1..]);
  }

  /** None stands for the panic about values that Check refuses. */
  method Build(scheme: Scheme, values: seq<string>) returns (subject: Option<string>)
    requires IsScheme(scheme)
    ensures subject.Some? <==> Accepts(scheme, values)
    ensures subject.Some? ==> subject.value == SubjectOf(scheme, values)
  {
    var segments := scheme.segments;
    var refusal := Check(scheme, values);
    if refusal.Some? {
      return None;
    }
    var built, next, i := "", 0, 0;
    assert segments[0..] == segments && values[0..] == values;
    hide Fill, Slashed, Names, Split;
    while i < |segments|
      invariant 0 <= i <= |segments| && 0 <= next <= |values| && AreWellFormed(segments)
      invariant |values| - next == |Names(segments[i..])|
      invariant built + Slashed(Fill(segments[i..], values[next..])) == SubjectOf(scheme, values)
    {
      FillsOneMore(built, segments, values, i, next);
      built := built + "/";
      if !IsPlaceholder(segments[i]) {
        built := built + segments[i];
      } else {
        built := built + values[next];
        next := next + 1;
      }
      i := i + 1;
    }
    NothingLeft(built, segments[i..], values[next..]);
    subject := Some(built);
  }

  lemma {:induction false} NothingLeft(built: string, segments: seq<string>, values: seq<string>)
    requires segments == [] && |values| == |Names(segments)|
    ensures built + Slashed(Fill(segments, values)) == built
  {
  }

  /** The values that a match holds, in the order of the placeholders. */
  function ValuesIn(scheme: Scheme, matched: map<string, string>): seq<string>
    requires forall name | name in scheme.placeholders :: name in matched
  {
    seq(|scheme.placeholders|, i requires 0 <= i < |scheme.placeholders| => matched[scheme.placeholders[i]])
  }

  /** A subject is matched exactly if it can be built, and the match holds, under the
      names of the placeholders and no others, the values it is built from. */
  method Match(scheme: Scheme, subject: string) returns (matched: Option<map<string, string>>)
    requires IsScheme(scheme)
    ensures matched.Some? <==> exists values :: Accepts(scheme, values) && SubjectOf(scheme, values) == subject
    ensures matched.Some? ==>
      && (forall name :: name in matched.value <==> name in scheme.placeholders)
      && Accepts(scheme, ValuesIn(scheme, matched.value)) &&
        SubjectOf(scheme, ValuesIn(scheme, matched.value)) == subject
  {
    ghost var built := TakenApart(scheme, subject);
    if subject == "" || subject[0] != '/' {
      return None;
    }
    var parts := Split(subject[1..]);
    var values := MatchParts(scheme, parts);
    matched := None;
    if values.Some? {
      matched := values;
      assert ValuesIn(scheme, values.value) == built.value;
    }
  }

  /** The values a subject is built from, if there are any. */
  lemma {:induction false} TakenApart(scheme: Scheme, subject: string) returns (values: Option<seq<string>>)
    requires IsScheme(scheme)
    ensures values.Some? ==> Accepts(scheme, values.value) && SubjectOf(scheme, values.value) == subject
    ensures values == None ==> forall others | Accepts(scheme, others) :: SubjectOf(scheme, others) != subject
    ensures values == if subject == "" || subject[0] != '/' then None
      else TakeApart(scheme.segments, Split(subject[1..]))
  {
    values := None;
    if subject != "" && subject[0] == '/' {
      var parts := Split(subject[1..]);
      values := TakeApart(scheme.segments, parts);
      SlashedSplit(subject[1..]);
      assert "/" + subject[1..] == subject;
      if values.Some? {
        TakesApartExactly(scheme.segments, parts, values.value);
      }
    }
    forall others | Accepts(scheme, others) && SubjectOf(scheme, others) == subject ensures values == Some(others) {
      BuiltSplits(scheme, others);
      TakesApartExactly(scheme.segments, Fill(scheme.segments, others), others);
    }
  }

  /** The loop of Match, over the segments and the parts at once. */
  method MatchParts(scheme: Scheme, parts: seq<string>) returns (matched: Option<map<string, string>>)
    requires IsScheme(scheme)
    ensures matched.Some? <==> TakeApart(scheme.segments, parts).Some?
    ensures matched.Some? ==>
      && (forall name :: name in matched.value <==> name in scheme.placeholders)
      && ValuesIn(scheme, matched.value) == TakeApart(scheme.segments, parts).value
  {
    hide IsScheme, Split, HasOnlySubjectCharacters, Prepended, AreDistinct, Holds, IsWellFormed, TakeApart, Names;
    var segments := scheme.segments;
    IsOrderly(scheme);
    if |parts| != |segments| {
      TakesApartAsMany(segments, parts);
      return None;
    }
    var values: map<string, string>, next, i := map[], 0, 0;
    ghost var taken: seq<string> := [];
    NothingTaken(scheme, parts);
    while i < |segments|
      invariant 0 <= i <= |segments| && AreWellFormed(segments)
      invariant next == |taken| <= |scheme.placeholders|
      invariant Holds(scheme.placeholders, taken, values) && Names(segments[i..]) == scheme.placeholders[next..]
      invariant TakeApart(segments, parts) == Prepended(taken, TakeApart(segments[i..], parts[i..]))
    {
      TakesOneMore(segments, parts, i);
      PrependedTo(taken, parts[i], TakeApart(segments[i + 1..], parts[i + 1..]));
      if !IsPlaceholder(segments[i]) {
        if parts[i] != segments[i] {
          return None;
        }
      } else {
        if parts[i] == "" || !HasOnlySubjectCharacters(parts[i]) {
          return None;
        }
        HoldsOneMore(scheme.placeholders, taken, values, parts[i]);
        values := values[scheme.placeholders[next] := parts[i]];
        taken := taken + [parts[i]];
        next := next + 1;
      }
      i := i + 1;
    }
    AllTaken(scheme, parts, taken, values);
    matched := Some(values);
  }

  lemma {:induction false} IsOrderly(scheme: Scheme)
    requires IsScheme(scheme)
    ensures AreWellFormed(scheme.segments) && scheme.placeholders == Names(scheme.segments)
    ensures AreDistinct(scheme.placeholders)
  {
  }

  lemma {:induction false} NothingTaken(scheme: Scheme, parts: seq<string>)
    requires AreWellFormed(scheme.segments)
    ensures Holds(scheme.placeholders, [], map[]) && scheme.segments[0..] == scheme.segments
    ensures TakeApart(scheme.segments, parts) == Prepended([], TakeApart(scheme.segments[0..], parts[0..]))
  {
    assert scheme.segments[0..] == scheme.segments && parts[0..] == parts;
    PrependedTo([], "", TakeApart(scheme.segments, parts));
  }

  lemma {:induction false} AllTaken(scheme: Scheme, parts: seq<string>, taken: seq<string>, values: map<string, string>)
    requires AreWellFormed(scheme.segments) && |scheme.segments| == |parts| && Holds(scheme.placeholders, taken, values)
    requires Names(scheme.segments[|scheme.segments|..]) == scheme.placeholders[|taken|..]
    requires TakeApart(scheme.segments, parts) ==
      Prepended(taken, TakeApart(scheme.segments[|parts|..], parts[|parts|..]))
    ensures forall name :: name in values <==> name in scheme.placeholders
    ensures TakeApart(scheme.segments, parts) == Some(ValuesIn(scheme, values))
  {
    assert taken + [] == taken && |taken| == |scheme.placeholders|;
    assert ValuesIn(scheme, values) == taken;
  }

  /** The values taken so far are held under the names of their placeholders. */
  ghost predicate Holds(placeholders: seq<string>, taken: seq<string>, values: map<string, string>) {
    && |taken| <= |placeholders| && (forall name :: name in values <==> name in placeholders[..|taken|])
    && forall i | 0 <= i < |taken| :: values[placeholders[i]] == taken[i]
  }

  lemma {:induction false} HoldsOneMore(
      placeholders: seq<string>, taken: seq<string>, values: map<string, string>, value: string)
    requires Holds(placeholders, taken, values) && |taken| < |placeholders| && AreDistinct(placeholders)
    ensures Holds(placeholders, taken + [value], values[placeholders[|taken|] := value])
  {
    assert placeholders[..|taken| + 1] == placeholders[..|taken|] + [placeholders[|taken|]];
  }

  ghost function Prepended(taken: seq<string>, rest: Option<seq<string>>): Option<seq<string>> {
    if rest.Some? then Some(taken + rest.value) else None
  }

  lemma {:induction false} PrependedTo(taken: seq<string>, part: string, rest: Option<seq<string>>)
    ensures rest.Some? ==> Prepended(taken, Some([part] + rest.value)) == Prepended(taken + [part], rest)
    ensures Prepended([], rest) == rest
    ensures Prepended(taken, None) == None == Prepended(taken + [part], None)
  {
    if rest.Some? {
      assert taken + ([part] + rest.value) == taken + [part] + rest.value;
      assert [] + rest.value == rest.value;
    }
  }

  lemma {:induction false} TakesOneMore(segments: seq<string>, parts: seq<string>, i: nat)
    requires AreWellFormed(segments) && i < |segments| == |parts|
    ensures var rest := TakeApart(segments[i + 1..], parts[i + 1..]);
      TakeApart(segments[i..], parts[i..]) ==
        if rest.None? then None
        else if IsPlaceholder(segments[i]) then if IsSegment(parts[i]) then Some([parts[i]] + rest.value) else None
        else if parts[i] == segments[i] then rest
        else None
    ensures Names(segments[i..]) ==
      (if IsPlaceholder(segments[i]) then [NameOf(segments[i])] else []) + Names(segments[i + 1..])
  {
    assert segments[i..][1..] == segments[i + 1..] && parts[i..][1..] == parts[i + 1..];
  }

  lemma {:induction false} TakesApartAsMany(segments: seq<string>, parts: seq<string>)
    requires AreWellFormed(segments) && |segments| != |parts|
    ensures TakeApart(segments, parts) == None
  {
    if segments != [] && parts != [] {
      TakesApartAsMany(segments[1..], parts[1..]);
    }
  }

  /** Value takes out a single value. Only a placeholder of the pattern may be asked
      for: any other name is a mistake of the programmer. */
  method ValueOf(scheme: Scheme, subject: string, placeholder: string) returns (value: Option<string>)
    requires IsScheme(scheme) && placeholder in scheme.placeholders
    ensures value.Some? <==> exists values :: Accepts(scheme, values) && SubjectOf(scheme, values) == subject
    ensures forall values, i | Accepts(scheme, values) && SubjectOf(scheme, values) == subject &&
        0 <= i < |values| && scheme.placeholders[i] == placeholder ::
      value == Some(values[i])
  {
    var matched := Match(scheme, subject);
    value := if matched.Some? then Some(matched.value[placeholder]) else None;
    forall values | Accepts(scheme, values) && SubjectOf(scheme, values) == subject
      ensures matched.Some? && values == ValuesIn(scheme, matched.value)
    {
      BuildIsInjective(scheme, values, ValuesIn(scheme, matched.value));
    }
  }

  // ----- The root -----

  function LeadingLiterals(segments: seq<string>): seq<string> {
    if segments == [] || IsPlaceholder(segments[0]) then [] else [segments[0]] + LeadingLiterals(segments[1..])
  }

  function RootOf(scheme: Scheme): string {
    var literals := LeadingLiterals(scheme.segments);
    if literals == [] then "/" else Slashed(literals)
  }

  method Root(scheme: Scheme) returns (root: string)
    ensures root == RootOf(scheme)
  {
    var literals: seq<string>, i := [], 0;
    assert scheme.segments[0..] == scheme.segments;
    while i < |scheme.segments| && !IsPlaceholder(scheme.segments[i])
      invariant 0 <= i <= |scheme.segments| && literals + LeadingLiterals(scheme.segments[i..]) ==
        LeadingLiterals(scheme.segments)
    {
      assert scheme.segments[i..][1..] == scheme.segments[i + 1..];
      literals := literals + [scheme.segments[i]];
      i := i + 1;
    }
    assert literals + [] == literals;
    root := if literals == [] then "/" else Slashed(literals);
  }

  predicate IsUnder(subject: string, root: string) { root == "/" || subject == root || root + "/" <= subject }

  lemma {:induction false} FilledBeginWithLiterals(segments: seq<string>, values: seq<string>)
    requires AreWellFormed(segments) && |values| == |Names(segments)|
    ensures LeadingLiterals(segments) <= Fill(segments, values)
  {
    if segments != [] && !IsPlaceholder(segments[0]) {
      FilledBeginWithLiterals(segments[1..], values);
    }
  }

  lemma {:induction false} SlashedAppend(parts: seq<string>, more: seq<string>)
    ensures Slashed(parts + more) == Slashed(parts) + Slashed(more)
  {
    if parts == [] {
      assert parts + more == more;
    } else {
      SlashedAppend(parts[1..], more);
      assert (parts + more)[1..] == parts[1..] + more && (parts + more)[0] == parts[0];
      var first, rest := "/" + parts[0], Slashed(parts[1..]);
      assert Slashed(parts + more) == first + (rest + Slashed(more));
      hide Slashed;
      Associates(first, rest, Slashed(more));
    }
  }

  /** Every subject that can be built lies under the root. */
  lemma {:induction false} BuiltLiesUnderRoot(scheme: Scheme, values: seq<string>)
    requires IsScheme(scheme) && Accepts(scheme, values)
    ensures IsUnder(SubjectOf(scheme, values), RootOf(scheme))
  {
    FilledBeginWithLiterals(scheme.segments, values);
    hide Slashed, Fill, LeadingLiterals;
    SlashedLiesUnder(LeadingLiterals(scheme.segments), Fill(scheme.segments, values));
  }

  lemma {:induction false} SlashedLiesUnder(literals: seq<string>, filled: seq<string>)
    requires literals <= filled
    ensures IsUnder(Slashed(filled), Slashed(literals))
  {
    hide Slashed;
    var more := filled[|literals|..];
    assert filled == literals + more;
    SlashedAppend(literals, more);
    SlashedOnce(more);
    var under, rest := Slashed(literals), Slashed(more);
    if rest == "" {
      assert under + rest == under;
    } else {
      assert under + rest == (under + "/") + rest[1..];
    }
  }

  lemma {:induction false} SlashedOnce(parts: seq<string>)
    ensures Slashed(parts) != "" ==> Slashed(parts)[0] == '/'
  {
  }

  /** No deeper root would do: what all subjects of the scheme begin with is at most
      the literals before the first placeholder. */
  lemma {:induction false} RootIsDeepest(segments: seq<string>, parts: seq<string>)
    requires AreWellFormed(segments)
    requires forall values | |values| == |Names(segments)| && AreSegments(values) :: parts <= Fill(segments, values)
    ensures parts <= LeadingLiterals(segments)
  {
    var n := |Names(segments)|;
    var someValues, otherValues := seq(n, _ => "a"), seq(n, _ => "b");
    assert parts <= Fill(segments, someValues) && parts <= Fill(segments, otherValues);
    DivergeBehindLiterals(segments, parts, someValues, otherValues);
  }

  lemma {:induction false} DivergeBehindLiterals(
      segments: seq<string>, parts: seq<string>, values: seq<string>, others: seq<string>)
    requires AreWellFormed(segments) && |values| == |others| == |Names(segments)|
    requires forall i | 0 <= i < |values| :: values[i] != others[i]
    requires parts <= Fill(segments, values) && parts <= Fill(segments, others)
    ensures parts <= LeadingLiterals(segments)
  {
    if segments != [] && parts != [] && !IsPlaceholder(segments[0]) {
      DivergeBehindLiterals(segments[1..], parts[1..], values, others);
      assert parts == [parts[0]] + parts[1..];
    }
  }
}
