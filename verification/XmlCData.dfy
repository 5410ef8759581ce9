/**
 * The CDATA sections of the XML report (gtest.cc), judged by a parser of element content made of
 * CDATA sections (section 2.7 of XML 1.0) and character data with the predefined entity for `>`
 * (section 2.4). Text is a NUL-terminated string; no other markup is recognised.
 */
module XmlCData {
  import opened Wrappers
  import opened OutputStream

  const OPEN := "<![CDATA["
  const CLOSE := "]]>"
  const GT := "&gt;"
  const ESCAPED := "]]&gt;"

  // ----- Searching -----

  predicate OccursAt(s: string, sub: string, i: nat) {
    i + |sub| <= |s| && s[i..i + |sub|] == sub
  }

  /** The position of the first occurrence, as `strstr` finds it. */
  function Find(s: string, sub: string): (r: Option<nat>)
    ensures r.Some? ==> OccursAt(s, sub, r.value) && forall j :: 0 <= j < r.value ==> !OccursAt(s, sub, j)
    ensures r.None? ==> forall j :: 0 <= j <= |s| ==> !OccursAt(s, sub, j)
  {
    FindFrom(s, sub, 0)
  }

  function FindFrom(s: string, sub: string, i: nat): (r: Option<nat>)
    requires i <= |s|
    ensures r.Some? ==> i <= r.value && OccursAt(s, sub, r.value)
    ensures r.Some? ==> forall j :: i <= j < r.value ==> !OccursAt(s, sub, j)
    ensures r.None? ==> forall j :: i <= j <= |s| ==> !OccursAt(s, sub, j)
    decreases |s| - i
  {
    if OccursAt(s, sub, i) then Some(i)
    else if i == |s| then None
    else FindFrom(s, sub, i + 1)
  }

  // ----- The parser -----

  /** The character data of element content, or None when it is not well formed. */
  function ParseContent(s: string): Option<string>
    decreases |s|
  {
    if s == "" then Some("")
    else if OccursAt(s, OPEN, 0) then
      var body := s[|OPEN|..];
      match Find(body, CLOSE)
      case None => None
      case Some(n) => Prepend(body[..n], ParseContent(body[n + |CLOSE|..]))
    else if OccursAt(s, CLOSE, 0) then None
    else if OccursAt(s, GT, 0) then Prepend(">", ParseContent(s[|GT|..]))
    else if s[0] == '<' || s[0] == '&' then None
    else Prepend([s[0]], ParseContent(s[1..]))
  }

  function Prepend(s: string, r: Option<string>): Option<string> {
    if r.None? then None else Some(s + r.value)
  }

  // ----- The printed text -----

  /** The text after an opening of a section: the data, with every `]]>` moved out of the sections. */
  function Sections(data: string): string
    decreases |data|
  {
    match Find(data, CLOSE)
    case None => data + CLOSE
    case Some(n) => data[..n] + CLOSE + (ESCAPED + (OPEN + Sections(data[n + |CLOSE|..])))
  }

  method OutputXmlCDataSection(stream: OStream, data: string)
    modifies stream
    ensures stream.text == old(stream.text) + OPEN + Sections(data)
  {
    var segment := data;
    stream.Write("<![CDATA[");
    ghost var total := stream.text + Sections(data);
    while true
      invariant stream.text + Sections(segment) == total
      decreases |segment|
    {
      var nextSegment := Find(segment, "]]>");
      SectionsUnfold(stream.text, segment);
      if nextSegment.Some? {
        stream.Write(segment[..nextSegment.value]);
        stream.Write("]]>]]&gt;<![CDATA[");
        segment := segment[nextSegment.value + 3..];
      } else {
        stream.Write(segment);
        break;
      }
    }
    stream.Write("]]>");
  }

  lemma SectionsUnfold(before: string, data: string)
    ensures match Find(data, CLOSE)
      case None => before + Sections(data) == before + data + "]]>"
      case Some(n) => before + Sections(data) == before + data[..n] + "]]>]]&gt;<![CDATA[" + Sections(data[n + 3..])
  {
    match Find(data, CLOSE) {
      case None => Reassociate(before, data, CLOSE, "");
      case Some(n) =>
        Delimiters();
        FiveAssociate(before, data[..n], CLOSE, ESCAPED, OPEN, Sections(data[n + 3..]));
    }
  }

  lemma Delimiters()
    ensures CLOSE + ESCAPED + OPEN == "]]>]]&gt;<![CDATA["
  {
  }

  lemma FiveAssociate(before: string, a: string, b: string, c: string, d: string, e: string)
    ensures before + (a + b + (c + (d + e))) == before + a + (b + c + d) + e
  {
  }

  lemma Reassociate(a: string, b: string, c: string, d: string)
    ensures a + (b + c + d) == a + b + c + d
  {
  }

  /** Data without `]]>` is printed as one section. */
  lemma CleanDataIsOneSection(data: string)
    requires forall j :: 0 <= j <= |data| ==> !OccursAt(data, "]]>", j)
    ensures OPEN + Sections(data) == "<![CDATA[" + data + "]]>"
  {
    SectionsUnfold(OPEN, data);
  }

  /** At the first `]]>` the section is closed, the text escaped, and another section opened. */
  lemma SectionsSplit(before: string, after: string)
    requires forall j :: 0 <= j < |before| ==> !OccursAt(before + ("]]>" + after), "]]>", j)
    ensures OPEN + Sections(before + ("]]>" + after)) ==
      "<![CDATA[" + before + "]]>]]&gt;<![CDATA[" + Sections(after)
  {
    FirstIsFound(before, after);
    SectionsAt(OPEN, before + ("]]>" + after), before, after);
  }

  lemma SectionsAt(text: string, data: string, before: string, after: string)
    requires Find(data, CLOSE) == Some(|before|) && data[..|before|] == before && data[|before| + 3..] == after
    ensures text + Sections(data) == text + before + "]]>]]&gt;<![CDATA[" + Sections(after)
  {
    SectionsUnfold(text, data);
  }

  lemma FirstIsFound(before: string, after: string)
    requires forall j :: 0 <= j < |before| ==> !OccursAt(before + ("]]>" + after), "]]>", j)
    ensures var data := before + ("]]>" + after);
      Find(data, CLOSE) == Some(|before|) && data[..|before|] == before && data[|before| + 3..] == after
  {
    var data := before + ("]]>" + after);
    assert data[|before|..|before| + 3] == "]]>";
    assert OccursAt(data, CLOSE, |before|);
  }

  // ----- The round trip -----

  /** A segment free of `]]>` is closed by the first `]]>` after it, even if it ends in `]`. */
  lemma ClosesAtEnd(segment: string, rest: string)
    requires forall j :: 0 <= j <= |segment| ==> !OccursAt(segment, CLOSE, j)
    ensures Find(segment + CLOSE + rest, CLOSE) == Some(|segment|)
  {
    var s := segment + CLOSE + rest;
    assert s[|segment|..|segment| + 3] == CLOSE;
    assert OccursAt(s, CLOSE, |segment|);
    forall j | 0 <= j < |segment| ensures !OccursAt(s, CLOSE, j) {
      if OccursAt(s, CLOSE, j) {
        assert s[j + 2] == s[j..j + 3][2] == '>';
        if j + 3 <= |segment| {
          assert segment[j..j + 3] == s[j..j + 3];
          assert OccursAt(segment, CLOSE, j);
        }
        assert false;
      }
    }
  }

  /** A prefix of data that ends before the first `]]>` has none. */
  lemma PrefixIsClean(data: string, n: nat)
    requires n <= |data| && forall j :: 0 <= j < n ==> !OccursAt(data, CLOSE, j)
    ensures forall j :: 0 <= j <= n ==> !OccursAt(data[..n], CLOSE, j)
  {
    forall j | 0 <= j <= n && j + 3 <= n ensures !OccursAt(data[..n], CLOSE, j) {
      assert !OccursAt(data, CLOSE, j);
      assert data[..n][j..j + 3] == data[j..j + 3];
    }
  }

  lemma SectionParses(segment: string, rest: string)
    requires forall j :: 0 <= j <= |segment| ==> !OccursAt(segment, CLOSE, j)
    ensures ParseContent(OPEN + (segment + CLOSE + rest)) == Prepend(segment, ParseContent(rest))
  {
    var body := segment + CLOSE + rest;
    var s := OPEN + body;
    assert OccursAt(s, OPEN, 0) && s[|OPEN|..] == body;
    ClosesAtEnd(segment, rest);
    assert body[..|segment|] == segment && body[|segment| + 3..] == rest;
  }

  lemma CharParses(c: char, tail: string)
    requires c != '<' && c != '&' && !OccursAt([c] + tail, CLOSE, 0)
    ensures ParseContent([c] + tail) == Prepend([c], ParseContent(tail))
  {
    var s := [c] + tail;
    NoOpening(s);
    assert |s| >= |GT| ==> s[0..|GT|][0] == c && GT[0] == '&';
    assert s[1..] == tail;
  }

  lemma EntityParses(tail: string)
    ensures ParseContent(GT + tail) == Prepend(">", ParseContent(tail))
  {
    var s := GT + tail;
    NoOpening(s);
    assert s[0] == '&' && CLOSE[0] == ']';
    assert s[0..3] != CLOSE by {
      assert s[0..3][0] == '&';
    }
    assert s[0..4] == GT && s[4..] == tail;
  }

  /** The text between two sections stands for `]]>`. */
  lemma EscapeParses(tail: string)
    ensures ParseContent(ESCAPED + tail) == Prepend("]]>", ParseContent(tail))
  {
    var s2 := GT + tail;
    var s1 := [']'] + s2;
    EscapedText(tail);
    AmpersandDoesNotClose(s2);
    EntityParses(tail);
    CharParses(']', s2);
    CharParses(']', s1);
    PrependThree(ParseContent(tail));
  }

  lemma EscapedText(tail: string)
    ensures ESCAPED + tail == [']'] + ([']'] + (GT + tail)) && (GT + tail)[0] == '&'
  {
    assert ESCAPED == [']'] + ([']'] + GT);
  }

  lemma AmpersandDoesNotClose(s: string)
    requires s != "" && s[0] == '&'
    ensures !OccursAt([']'] + s, CLOSE, 0) && !OccursAt([']'] + ([']'] + s), CLOSE, 0)
  {
    var s1 := [']'] + s;
    assert |s1| >= 3 ==> s1[0..3][1] == '&';
    assert ([']'] + s1)[0..3][2] == '&';
  }

  lemma PrependThree(content: Option<string>)
    ensures Prepend([']'], Prepend([']'], Prepend(">", content))) == Prepend("]]>", content)
  {
    if content.Some? {
      assert [']'] + ([']'] + (">" + content.value)) == "]]>" + content.value;
    }
  }

  lemma NoOpening(s: string)
    requires s != "" && s[0] != '<'
    ensures !OccursAt(s, OPEN, 0)
  {
    assert |s| >= |OPEN| ==> s[0..|OPEN|][0] == s[0];
    assert OPEN[0] == '<';
  }

  lemma SplitParses(segment: string, tail: string, after: string)
    requires forall j :: 0 <= j <= |segment| ==> !OccursAt(segment, CLOSE, j)
    requires ParseContent(tail) == Some(after)
    ensures ParseContent(OPEN + (segment + CLOSE + (ESCAPED + tail))) == Some(segment + ("]]>" + after))
  {
    EscapeParses(tail);
    SectionParses(segment, ESCAPED + tail);
  }

  lemma LastParses(data: string)
    requires forall j :: 0 <= j <= |data| ==> !OccursAt(data, CLOSE, j)
    ensures ParseContent(OPEN + (data + CLOSE)) == Some(data)
  {
    SectionParses(data, "");
    assert data + CLOSE + "" == data + CLOSE;
    assert ParseContent("") == Some("") && data + "" == data;
  }

  lemma DataSplits(data: string, n: nat)
    requires OccursAt(data, CLOSE, n)
    ensures data == data[..n] + ("]]>" + data[n + 3..])
  {
    assert data == data[..n] + (data[n..n + 3] + data[n + 3..]);
  }

  /** Parsing the emitted sections, and the text between them, gives back the data exactly. */
  lemma {:induction false} CDataRoundTrip(data: string)
    ensures ParseContent(OPEN + Sections(data)) == Some(data)
    decreases |data|
  {
    match Find(data, CLOSE) {
      case None => LastParses(data);
      case Some(n) =>
        var after := data[n + 3..];
        PrefixIsClean(data, n);
        DataSplits(data, n);
        CDataRoundTrip(after);
        SplitParses(data[..n], OPEN + Sections(after), after);
    }
  }
}
