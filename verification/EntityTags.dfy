/** Reading the If-None-Match header (holdsTag in architecturekit/httpapi/revision.go)
    against its grammar and comparison, in sections 13.1.2, 8.8.3 and 8.8.3.2 of
    RFC 9110. */
module EntityTags {
  import opened Basics

  // ----- The grammar -----

  /** etagc: anything printable but a quote, a comma included. */
  predicate IsTagCharacter(c: char) { c == '!' || ('#' <= c <= '~') || c >= 0x80 as char }

  predicate IsOpaque(s: string) { forall i | 0 <= i < |s| :: IsTagCharacter(s[i]) }

  datatype Tag = Tag(isWeak: bool, opaqueTag: string)

  predicate IsBlank(s: string) { forall i | 0 <= i < |s| :: s[i] == ' ' || s[i] == '\t' }

  /** An element of the list, which may be empty, with the whitespace around it. */
  datatype Element =
    | Listed(before: string, tag: Tag, after: string)
    | Empty(blank: string)

  predicate IsElement(e: Element) {
    match e
    case Listed(before, tag, after) => IsBlank(before) && IsOpaque(tag.opaqueTag) && IsBlank(after)
    case Empty(blank) => IsBlank(blank)
  }

  function TagText(tag: Tag): string { (if tag.isWeak then "W/" else "") + "\"" + tag.opaqueTag + "\"" }

  function ElementText(e: Element): string {
    match e
    case Listed(before, tag, after) => before + TagText(tag) + after
    case Empty(blank) => blank
  }

  /** Further elements, each behind a comma. */
  function RestText(elements: seq<Element>): string {
    if elements == [] then "" else "," + ElementText(elements[0]) + RestText(elements[1..])
  }

  function LineText(elements: seq<Element>): string {
    if elements == [] then "" else ElementText(elements[0]) + RestText(elements[1..])
  }

  predicate IsLine(elements: seq<Element>) {
    elements != [] && forall i | 0 <= i < |elements| :: IsElement(elements[i])
  }

  predicate AreLines(lines: seq<seq<Element>>) { forall i | 0 <= i < |lines| :: IsLine(lines[i]) }

  /** Two tags are weakly equal if their opaque tags are the same, weak or not. */
  predicate Names(elements: seq<Element>, opaqueTag: string) {
    exists i | 0 <= i < |elements| :: elements[i].Listed? && elements[i].tag.opaqueTag == opaqueTag
  }

  ghost predicate AnyNames(lines: seq<seq<Element>>, opaqueTag: string) {
    exists i | 0 <= i < |lines| :: Names(lines[i], opaqueTag)
  }

  // ----- Reading the list -----

  predicate IsSkipped(c: char) { c == ' ' || c == '\t' || c == ',' }

  function TrimLeft(s: string): (trimmed: string)
    ensures |trimmed| <= |s| && (trimmed != "" ==> !IsSkipped(trimmed[0]))
  {
    if s != "" && IsSkipped(s[0]) then TrimLeft(s[1..]) else s
  }

  function WithoutWeakMark(s: string): string { if "W/" <= s then s[2..] else s }

  /** Where the next quote is, or the length if there is none. */
  function NextQuote(s: string): (at: nat)
    ensures at <= |s| && (forall i | 0 <= i < at :: s[i] != '"') && (at < |s| ==> s[at] == '"')
  {
    if s == "" || s[0] == '"' then 0 else 1 + NextQuote(s[1..])
  }

  /** Whether the list names the tag, as it is read from quote to quote. */
  predicate Holds(list: string, tag: string)
    decreases |list|
  {
    var trimmed := TrimLeft(list);
    var marked := WithoutWeakMark(trimmed);
    if trimmed != "" && trimmed[0] == '*' then true
    else if marked == "" || marked[0] != '"' then false
    else
      var quoted := marked[1..];
      var at := NextQuote(quoted);
      at < |quoted| && ("\"" + quoted[..at] + "\"" == tag || Holds(quoted[at + 1..], tag))
  }

  function Joined(values: seq<string>): string {
    if values == [] then "" else if |values| == 1 then values[0] else values[0] + "," + Joined(values[1..])
  }

  // ----- What it reads is what is listed -----

  predicate AllSkipped(s: string) { forall i | 0 <= i < |s| :: IsSkipped(s[i]) }

  lemma {:induction false} TrimsSkipped(skipped: string, s: string)
    requires AllSkipped(skipped)
    ensures TrimLeft(skipped + s) == TrimLeft(s)
  {
    if skipped == "" {
      assert skipped + s == s;
    } else {
      assert (skipped + s)[1..] == skipped[1..] + s;
      TrimsSkipped(skipped[1..], s);
    }
  }

  lemma {:induction false} QuoteEndsOpaque(opaqueTag: string, rest: string)
    requires IsOpaque(opaqueTag)
    ensures NextQuote(opaqueTag + "\"" + rest) == |opaqueTag|
  {
    if opaqueTag == "" {
      assert opaqueTag + "\"" + rest == "\"" + rest;
    } else {
      assert (opaqueTag + "\"" + rest)[1..] == opaqueTag[1..] + "\"" + rest;
      QuoteEndsOpaque(opaqueTag[1..], rest);
    }
  }

  function Quoted(opaqueTag: string): string { "\"" + opaqueTag + "\"" }

  lemma {:induction false} QuotedIsInjective(a: string, b: string)
    requires Quoted(a) == Quoted(b)
    ensures a == b
  {
    assert Quoted(a)[1..|a| + 1] == a && Quoted(b)[1..|b| + 1] == b;
  }

  lemma {:induction false} StripsTag(tag: Tag, rest: string)
    ensures var list, quoted := TagText(tag) + rest, tag.opaqueTag + "\"" + rest;
      TrimLeft(list) == list && WithoutWeakMark(list) == "\"" + quoted && list != "" && list[0] != '*'
  {
    var list, quoted := TagText(tag) + rest, tag.opaqueTag + "\"" + rest;
    if tag.isWeak {
      assert list == "W/" + ("\"" + quoted);
      assert list[..2] == "W/" && list[2..] == "\"" + quoted;
    } else {
      assert list == "\"" + quoted;
    }
  }

  /** A listed tag is read as it is, and then the rest of the list. */
  lemma {:induction false} ReadsTag(tag: Tag, rest: string, opaqueTag: string)
    requires IsOpaque(tag.opaqueTag)
    ensures Holds(TagText(tag) + rest, Quoted(opaqueTag)) <==>
      tag.opaqueTag == opaqueTag || Holds(rest, Quoted(opaqueTag))
  {
    var list, quoted := TagText(tag) + rest, tag.opaqueTag + "\"" + rest;
    StripsTag(tag, rest);
    hide TagText, TrimLeft, WithoutWeakMark;
    assert ("\"" + quoted)[1..] == quoted;
    QuoteEndsOpaque(tag.opaqueTag, rest);
    assert quoted[..|tag.opaqueTag|] == tag.opaqueTag && quoted[|tag.opaqueTag| + 1..] == rest;
    if Quoted(tag.opaqueTag) == Quoted(opaqueTag) {
      QuotedIsInjective(tag.opaqueTag, opaqueTag);
    }
  }

  lemma {:induction false} SkipsAhead(skipped: string, s: string, tag: string)
    requires AllSkipped(skipped)
    ensures Holds(skipped + s, tag) <==> Holds(s, tag)
  {
    TrimsSkipped(skipped, s);
  }

  lemma {:induction false} ReadsListed(e: Element, rest: string, opaqueTag: string)
    requires IsElement(e) && e.Listed?
    ensures Holds("," + ElementText(e) + rest, Quoted(opaqueTag)) <==>
      e.tag.opaqueTag == opaqueTag || Holds(e.after + rest, Quoted(opaqueTag))
  {
    hide Holds, TagText;
    assert "," + (e.before + TagText(e.tag) + e.after) + rest == ("," + e.before) + (TagText(e.tag) + (e.after + rest));
    SkipsAhead("," + e.before, TagText(e.tag) + (e.after + rest), Quoted(opaqueTag));
    ReadsTag(e.tag, e.after + rest, opaqueTag);
  }

  lemma {:induction false} ReadsEmpty(e: Element, rest: string, opaqueTag: string)
    requires IsElement(e) && e.Empty?
    ensures Holds("," + ElementText(e) + rest, Quoted(opaqueTag)) <==> Holds(rest, Quoted(opaqueTag))
  {
    hide Holds;
    SkipsAhead("," + e.blank, rest, Quoted(opaqueTag));
  }

  lemma {:induction false} ReadsRest(skipped: string, elements: seq<Element>, opaqueTag: string)
    requires AllSkipped(skipped) && forall i | 0 <= i < |elements| :: IsElement(elements[i])
    ensures Holds(skipped + RestText(elements), Quoted(opaqueTag)) <==> Names(elements, opaqueTag)
    decreases |elements|
  {
    SkipsAhead(skipped, RestText(elements), Quoted(opaqueTag));
    if elements != [] {
      var first, rest := elements[0], RestText(elements[1..]);
      var behind := if first.Listed? then first.after else "";
      assert RestText(elements) == "," + ElementText(first) + rest;
      NamesFirstOrRest(elements, opaqueTag);
      ReadsRest(behind, elements[1..], opaqueTag);
      hide Holds, Names, ElementText, RestText, Quoted;
      if first.Listed? {
        ReadsListed(first, rest, opaqueTag);
      } else {
        assert behind + rest == rest;
        ReadsEmpty(first, rest, opaqueTag);
      }
    }
  }

  lemma {:induction false} NamesFirstOrRest(elements: seq<Element>, opaqueTag: string)
    requires elements != []
    ensures Names(elements, opaqueTag) <==>
      (elements[0].Listed? && elements[0].tag.opaqueTag == opaqueTag) || Names(elements[1..], opaqueTag)
  {
    assert elements == [elements[0]] + elements[1..];
  }

  function Flat(lines: seq<seq<Element>>): seq<Element> { if lines == [] then [] else lines[0] + Flat(lines[1..]) }

  function Texts(lines: seq<seq<Element>>): seq<string> {
    seq(|lines|, i requires 0 <= i < |lines| => LineText(lines[i]))
  }

  lemma {:induction false} RestOfOneMore(e: Element, elements: seq<Element>)
    ensures RestText([e] + elements) == "," + ElementText(e) + RestText(elements)
  {
    assert ([e] + elements)[1..] == elements;
  }

  lemma {:induction false} RestOfBoth(a: seq<Element>, b: seq<Element>)
    ensures RestText(a + b) == RestText(a) + RestText(b)
  {
    if a == [] {
      assert a + b == b;
    } else {
      RestOfBoth(a[1..], b);
      assert a + b == [a[0]] + (a[1..] + b) && a == [a[0]] + a[1..];
      RestOfOneMore(a[0], a[1..] + b);
      RestOfOneMore(a[0], a[1..]);
      hide RestText, ElementText;
      Associates("," + ElementText(a[0]), RestText(a[1..]), RestText(b));
    }
  }

  lemma {:induction false} RestOfLine(line: seq<Element>)
    requires line != []
    ensures RestText(line) == "," + LineText(line)
  {
    hide ElementText;
    var first, rest := ElementText(line[0]), RestText(line[1..]);
    assert "," + first + rest == "," + (first + rest);
  }

  lemma {:induction false} JoinsOneMore(lines: seq<seq<Element>>)
    requires |lines| > 1
    ensures Joined(Texts(lines)) == LineText(lines[0]) + "," + Joined(Texts(lines[1..]))
  {
    hide LineText;
    assert Texts(lines)[1..] == Texts(lines[1..]);
  }

  /** Several lines are one list. */
  lemma {:induction false} LinesAreOneList(lines: seq<seq<Element>>)
    requires AreLines(lines) && lines != []
    ensures "," + Joined(Texts(lines)) == RestText(Flat(lines))
  {
    var first, others := lines[0], lines[1..];
    RestOfBoth(first, Flat(others));
    RestOfLine(first);
    if others == [] {
      assert Texts(lines) == [LineText(first)] && RestText([]) == "";
    } else {
      LinesAreOneList(others);
      JoinsOneMore(lines);
      hide RestText, LineText, Joined, Texts;
      Associates(",", LineText(first), "," + Joined(Texts(others)));
      Associates(LineText(first), ",", Joined(Texts(others)));
    }
  }

  lemma {:induction false} FlatNames(lines: seq<seq<Element>>, opaqueTag: string)
    requires AreLines(lines)
    ensures (forall i | 0 <= i < |Flat(lines)| :: IsElement(Flat(lines)[i]))
    ensures Names(Flat(lines), opaqueTag) <==> AnyNames(lines, opaqueTag)
  {
    if lines != [] {
      var first, others := lines[0], lines[1..];
      FlatNames(others, opaqueTag);
      BothName(first, Flat(others), opaqueTag);
      if AnyNames(lines, opaqueTag) {
        var i :| 0 <= i < |lines| && Names(lines[i], opaqueTag);
        assert i > 0 ==> Names(others[i - 1], opaqueTag);
      }
      if AnyNames(others, opaqueTag) {
        var i :| 0 <= i < |others| && Names(others[i], opaqueTag);
        assert Names(lines[i + 1], opaqueTag);
      }
    }
  }

  lemma {:induction false} BothName(a: seq<Element>, b: seq<Element>, opaqueTag: string)
    ensures Names(a + b, opaqueTag) <==> Names(a, opaqueTag) || Names(b, opaqueTag)
  {
    if Names(a + b, opaqueTag) {
      var i :| 0 <= i < |a + b| && (a + b)[i].Listed? && (a + b)[i].tag.opaqueTag == opaqueTag;
      assert (a + b)[i] == if i < |a| then a[i] else b[i - |a|];
    }
    if Names(a, opaqueTag) {
      var i :| 0 <= i < |a| && a[i].Listed? && a[i].tag.opaqueTag == opaqueTag;
      assert (a + b)[i] == a[i];
    }
    if Names(b, opaqueTag) {
      var i :| 0 <= i < |b| && b[i].Listed? && b[i].tag.opaqueTag == opaqueTag;
      assert (a + b)[|a| + i] == b[i];
    }
  }

  /** For every well-formed list, over any number of lines, the header is found to
      name a tag exactly if one of the listed tags is weakly equal to it. */
  lemma {:induction false} HoldsExactlyWhatIsListed(lines: seq<seq<Element>>, opaqueTag: string)
    requires AreLines(lines)
    ensures Holds(Joined(Texts(lines)), Quoted(opaqueTag)) <==> AnyNames(lines, opaqueTag)
  {
    FlatNames(lines, opaqueTag);
    var list := Joined(Texts(lines));
    SkipsAhead(",", list, Quoted(opaqueTag));
    if lines != [] {
      LinesAreOneList(lines);
    }
    ReadsRest("", Flat(lines), opaqueTag);
    assert "" + RestText(Flat(lines)) == RestText(Flat(lines));
  }

  /** A star names every tag. */
  lemma {:induction false} StarNamesEvery(before: string, after: string, tag: string)
    requires IsBlank(before) && IsBlank(after)
    ensures Holds(Joined([before + "*" + after]), tag)
  {
    assert before + "*" + after == before + ("*" + after);
    TrimsSkipped(before, "*" + after);
  }

  /** The loop ends on every header, however malformed. On every well-formed list, it
      finds the tag exactly if one of those listed is weakly equal to it. */
  method HoldsTag(values: seq<string>, tag: string) returns (holds: bool)
    ensures holds <==> Holds(Joined(values), tag)
    ensures forall lines, opaqueTag | AreLines(lines) && Texts(lines) == values && tag == Quoted(opaqueTag) ::
      holds <==> AnyNames(lines, opaqueTag)
  {
    forall lines, opaqueTag | AreLines(lines) && Texts(lines) == values && tag == Quoted(opaqueTag)
      ensures Holds(Joined(values), tag) <==> AnyNames(lines, opaqueTag)
    {
      HoldsExactlyWhatIsListed(lines, opaqueTag);
    }
    hide AreLines, Texts, Quoted, AnyNames;
    var list := Joined(values);
    while true
      invariant Holds(Joined(values), tag) <==> Holds(list, tag)
      decreases |list|
    {
      list := TrimLeft(list);
      if list != "" && list[0] == '*' {
        return true;
      }
      var marked := WithoutWeakMark(list);
      if marked == "" || marked[0] != '"' {
        return false;
      }
      var quoted := marked[1..];
      var at := NextQuote(quoted);
      if at == |quoted| {
        return false;
      }
      if "\"" + quoted[..at] + "\"" == tag {
        return true;
      }
      list := quoted[at + 1..];
    }
  }
}
