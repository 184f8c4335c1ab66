/** What the manifest scripts read and write, described without their scanners.
  *
  * Lines are what stands between line ends, headings are the lines of one form, a parsed text is its
  * lines put back together, and a written text is a row of blocks with one blank line between two.
  */
module ManifestLayout {
  import opened Manifest
  import opened Wrappers

  // ---- Trimming ----

  lemma {:induction false} LstripLead(a: Charset, lead: string, x: string)
    requires AllSpaces(a, lead) && (x != "" ==> x[0] !in a.spaces)
    ensures Lstrip(a, lead + x) == x
  {
    if lead == "" {
      assert lead + x == x;
    } else {
      LstripLead(a, lead[1..], x);
      assert (lead + x)[1..] == lead[1..] + x;
    }
  }

  lemma {:induction false} RstripSolid(a: Charset, x: string, w: string)
    requires AllSpaces(a, w) && x != "" && x[|x| - 1] !in a.spaces
    ensures Rstrip(a, x + w) == x
  {
    RstripTail(a, x, w);
  }

  /** Trimming at the end leaves the text up to its last character that is not whitespace. */
  lemma {:induction false} RstripExactly(a: Charset, u: string, r: string)
    ensures Rstrip(a, u) == r <==> r <= u && AllSpaces(a, u[|r|..]) && (r != "" ==> r[|r| - 1] !in a.spaces)
  {
    RstripRest(a, u);
    if r <= u && AllSpaces(a, u[|r|..]) && (r != "" ==> r[|r| - 1] !in a.spaces) {
      assert u == r + u[|r|..];
      if r == "" {
        NothingButSpaces(a, u);
      } else {
        RstripSolid(a, r, u[|r|..]);
      }
    }
  }

  lemma {:induction false} NothingButSpaces(a: Charset, u: string)
    requires AllSpaces(a, u)
    ensures Rstrip(a, u) == "" && Lstrip(a, u) == ""
  {
    RstripTail(a, "", u);
    LstripLead(a, u, "");
    assert "" + u == u && u + "" == u;
  }

  // ---- Headings ----

  /** No whitespace at either end, or the one whitespace character that nothing else leaves. */
  predicate Captures(a: Charset, h: string, tail: string) {
    && h != ""
    && ((h[0] !in a.spaces && h[|h| - 1] !in a.spaces) || (|h| == 1 && h[0] in a.spaces && tail == ""))
  }

  /** Whitespace, two hash signs, whitespace, the heading, whitespace. */
  predicate HeadingLine(a: Charset, line: string, lead: string, gap: string, h: string, tail: string) {
    && AllSpaces(a, lead) && AllSpaces(a, gap) && gap != "" && AllSpaces(a, tail) && Captures(a, h, tail)
    && line == lead + "##" + gap + h + tail
  }

  lemma {:induction false} Regrouped(p: string, q: string, x: string, y: string, z: string)
    ensures p + q + x + y + z == p + (q + (x + (y + z)))
    ensures p + q + x + y + z == p + (q + (x + y) + z)
  {
    assert (x + y) + z == x + (y + z) && q + (x + (y + z)) == q + (x + y) + z;
    assert p + q + x + y + z == p + (q + (x + (y + z)));
  }

  lemma {:induction false} HeadingOfBody(a: Charset, line: string, rest: string)
    requires Lstrip(a, line) == "##" + rest && rest != "" && rest[0] in a.spaces
    ensures Heading(a, line) == Captured(a, rest)
  {
    hide Captured, Lstrip;
    var body := "##" + rest;
    assert body[2..] == rest && body[2] == rest[0] && body[..2] == "##";
  }

  lemma {:induction false} CapturedOf(a: Charset, gap: string, h: string, tail: string)
    requires AllSpaces(a, gap) && gap != "" && AllSpaces(a, tail) && Captures(a, h, tail)
    ensures Captured(a, gap + (h + tail)) == Some(h)
  {
    hide Lstrip, Rstrip;
    var rest := gap + (h + tail);
    assert rest[0] == gap[0];
    if h[0] !in a.spaces {
      LstripLead(a, gap, h + tail);
      RstripSolid(a, h, tail);
    } else {
      assert h + tail == h && AllSpaces(a, rest);
      NothingButSpaces(a, rest);
      assert rest[|rest| - 1..] == h;
    }
  }

  lemma {:induction false} HeadingIsRead(a: Charset, line: string, lead: string, gap: string, h: string, tail: string)
    requires HeadingLine(a, line, lead, gap, h, tail)
    ensures Heading(a, line) == Some(h)
  {
    hide Heading, Captured, Lstrip, Captures;
    var rest := gap + (h + tail);
    Regrouped(lead, "##", gap, h, tail);
    LstripLead(a, lead, "##" + rest);
    HeadingOfBody(a, line, rest);
    CapturedOf(a, gap, h, tail);
  }

  lemma {:induction false} ReadCaptured(a: Charset, rest: string) returns (gap: string, tail: string)
    requires Captured(a, rest).Some?
    ensures
      var h := Captured(a, rest).value;
      && AllSpaces(a, gap) && gap != "" && AllSpaces(a, tail) && Captures(a, h, tail)
      && rest == gap + (h + tail)
  {
    var h, t := Captured(a, rest).value, Lstrip(a, rest);
    if t != "" {
      TrimmedOnce(a, t);
      RstripRest(a, t);
      hide Rstrip, Lstrip;
      gap, tail := rest[..|rest| - |t|], t[|h|..];
      assert rest == gap + t && t == h + tail;
    } else {
      hide Rstrip, Lstrip;
      gap, tail := rest[..|rest| - 1], "";
      assert AllSpaces(a, rest);
      assert rest == gap + h && h + tail == h;
    }
  }

  lemma {:induction false} LeftParts(a: Charset, u: string)
    ensures
      var x := Lstrip(a, u);
      && AllSpaces(a, u[..|u| - |x|]) && u == u[..|u| - |x|] + x && (x != "" ==> x[0] !in a.spaces)
  {
    var x := Lstrip(a, u);
    hide Lstrip;
    var k := |u| - |x|;
    assert x == u[k..] && u == u[..k] + u[k..];
  }

  lemma {:induction false} RightParts(a: Charset, u: string)
    ensures
      var x := Rstrip(a, u);
      && AllSpaces(a, u[|x|..]) && u == x + u[|x|..] && (x != "" ==> x[|x| - 1] !in a.spaces)
  {
    RstripRest(a, u);
  }

  /** What precedes the hash signs of a heading, and what follows them. */
  lemma {:induction false} HeadingParts(a: Charset, line: string) returns (lead: string, rest: string)
    requires Heading(a, line).Some?
    ensures AllSpaces(a, lead) && line == lead + ("##" + rest) && Captured(a, rest) == Heading(a, line)
  {
    LeftParts(a, line);
    var body := Lstrip(a, line);
    hide Lstrip, Captured, AllSpaces;
    lead, rest := line[..|line| - |body|], body[2..];
    assert body == "##" + rest;
  }

  lemma {:induction false} ReadHeading(a: Charset, line: string) returns (lead: string, gap: string, tail: string)
    requires Heading(a, line).Some?
    ensures HeadingLine(a, line, lead, gap, Heading(a, line).value, tail)
  {
    var rest: string;
    lead, rest := HeadingParts(a, line);
    hide Heading, Captured, Captures, AllSpaces;
    gap, tail := ReadCaptured(a, rest);
    Regrouped(lead, "##", gap, Heading(a, line).value, tail);
  }

  /** The fixer's headings are exactly the lines of that form. */
  lemma {:induction false} HeadingExactly(a: Charset, line: string, h: string)
    ensures Heading(a, line) == Some(h) <==> exists lead, gap, tail :: HeadingLine(a, line, lead, gap, h, tail)
  {
    hide HeadingLine, Heading;
    if Heading(a, line) == Some(h) {
      var lead, gap, tail := ReadHeading(a, line);
    }
    forall lead, gap, tail | HeadingLine(a, line, lead, gap, h, tail)
      ensures Heading(a, line) == Some(h)
    {
      HeadingIsRead(a, line, lead, gap, h, tail);
    }
  }

  /** Whitespace, two hash signs and a space, more whitespace, the heading, whitespace. */
  predicate CheckerLine(a: Charset, line: string, lead: string, gap: string, h: string, tail: string) {
    && AllSpaces(a, lead) && AllSpaces(a, gap) && AllSpaces(a, tail)
    && h != "" && h[0] !in a.spaces && h[|h| - 1] !in a.spaces
    && line == lead + "## " + gap + h + tail
  }

  lemma {:induction false} StrippedHeading(a: Charset, line: string, x: string)
    requires Strip(a, line) == "## " + x
    ensures CheckerHeading(a, line) == Some(Strip(a, x))
  {
    hide Strip;
    var stripped := "## " + x;
    assert stripped[..3] == "## " && stripped[2] == ' ' && stripped[3..] == x;
  }

  lemma {:induction false} StripExactly(a: Charset, lead: string, x: string, tail: string)
    requires AllSpaces(a, lead) && AllSpaces(a, tail) && x != "" && x[0] !in a.spaces && x[|x| - 1] !in a.spaces
    ensures Strip(a, lead + (x + tail)) == x
  {
    LstripLead(a, lead, x + tail);
    RstripSolid(a, x, tail);
  }

  lemma {:induction false} CheckerReads(a: Charset, line: string, lead: string, gap: string, h: string, tail: string)
    requires CheckerLine(a, line, lead, gap, h, tail)
    ensures CheckerHeading(a, line) == Some(h)
  {
    hide Strip, CheckerHeading;
    var x := gap + h;
    var stripped := "## " + x;
    Regrouped(lead, "## ", gap, h, tail);
    assert stripped[|stripped| - 1] == h[|h| - 1];
    StripExactly(a, lead, stripped, tail);
    StrippedHeading(a, line, x);
    assert gap + (h + "") == x;
    StripExactly(a, gap, h, "");
  }

  /** A text is what is stripped from it around what is left. */
  lemma {:induction false} ReadStrip(a: Charset, u: string) returns (lead: string, tail: string)
    requires Strip(a, u) != ""
    ensures AllSpaces(a, lead) && AllSpaces(a, tail) && u == lead + (Strip(a, u) + tail)
    ensures Strip(a, u)[0] !in a.spaces && Strip(a, u)[|Strip(a, u)| - 1] !in a.spaces
  {
    var left := Lstrip(a, u);
    var x := Rstrip(a, left);
    LeftParts(a, u);
    RightParts(a, left);
    hide Lstrip, Rstrip, AllSpaces;
    lead, tail := u[..|u| - |left|], left[|x|..];
    assert left[0] == x[0];
  }

  lemma {:induction false} CheckerParts(a: Charset, line: string) returns (lead: string, x: string, tail: string)
    requires CheckerHeading(a, line).Some?
    ensures AllSpaces(a, lead) && AllSpaces(a, tail) && line == lead + (("## " + x) + tail)
    ensures CheckerHeading(a, line) == Some(Strip(a, x)) && x != "" && x[|x| - 1] !in a.spaces
  {
    var stripped := Strip(a, line);
    StartsWithHashes(a, line);
    hide Strip, AllSpaces, CheckerHeading;
    lead, tail := ReadStrip(a, line);
    x := stripped[3..];
    HashesFirst(stripped);
    StrippedHeading(a, line, x);
  }

  lemma {:induction false} StartsWithHashes(a: Charset, line: string)
    requires CheckerHeading(a, line).Some?
    ensures "## " <= Strip(a, line)
  {
  }

  lemma {:induction false} HashesFirst(u: string)
    requires "## " <= u
    ensures u == "## " + u[3..]
    ensures if u[3..] == "" then u[|u| - 1] == ' ' else u[3..][|u[3..]| - 1] == u[|u| - 1]
  {
    assert u[2] == ' ';
  }

  /** Without whitespace at its end, a text loses none there. */
  lemma {:induction false} ReadSolid(a: Charset, x: string) returns (gap: string)
    requires x != "" && x[|x| - 1] !in a.spaces
    ensures
      var h := Strip(a, x);
      && AllSpaces(a, gap) && h != "" && h[0] !in a.spaces && h[|h| - 1] !in a.spaces && x == gap + h
  {
    SolidIsKept(a, x);
    var end: string;
    gap, end := ReadStrip(a, x);
    hide Strip;
    assert x == (gap + Strip(a, x)) + end;
    LastChar(gap + Strip(a, x), end);
  }

  lemma {:induction false} LastChar(p: string, q: string)
    ensures q != "" ==> (p + q)[|p + q| - 1] == q[|q| - 1]
    ensures q == "" ==> p + q == p
  {
  }

  lemma {:induction false} ReadChecker(a: Charset, line: string) returns (lead: string, gap: string, tail: string)
    requires CheckerHeading(a, line).Some?
    ensures CheckerLine(a, line, lead, gap, CheckerHeading(a, line).value, tail)
  {
    var x: string;
    lead, x, tail := CheckerParts(a, line);
    gap := ReadSolid(a, x);
    hide Strip, CheckerHeading, AllSpaces;
    Regrouped(lead, "## ", gap, Strip(a, x), tail);
  }

  lemma {:induction false} SolidIsKept(a: Charset, x: string)
    requires x != "" && x[|x| - 1] !in a.spaces
    ensures Strip(a, x) != ""
  {
    SolidStays(a, x);
    assert Lstrip(a, x)[|Lstrip(a, x)| - 1] == x[|x| - 1];
  }

  /** The checker's headings are exactly the lines of that form. */
  lemma {:induction false} CheckerHeadingExactly(a: Charset, line: string, h: string)
    ensures CheckerHeading(a, line) == Some(h) <==> exists lead, gap, tail :: CheckerLine(a, line, lead, gap, h, tail)
  {
    hide CheckerLine, CheckerHeading;
    if CheckerHeading(a, line) == Some(h) {
      var lead, gap, tail := ReadChecker(a, line);
    }
    forall lead, gap, tail | CheckerLine(a, line, lead, gap, h, tail)
      ensures CheckerHeading(a, line) == Some(h)
    {
      CheckerReads(a, line, lead, gap, h, tail);
    }
  }

  /** The checker lists the numbers of exactly the lines with a heading, in ascending order. */
  lemma {:induction false} OccurrencesExactly(a: Charset, lines: seq<string>, h: string, first: nat, o: seq<nat>)
    requires o == Occurrences(a, lines, h, first)
    ensures forall n: nat :: n in o <==>
      first <= n < first + |lines| && CheckerHeading(a, lines[n - first]) == Some(h)
    ensures forall i, j :: 0 <= i < j < |o| ==> o[i] < o[j]
  {
    hide CheckerHeading;
    if lines != [] {
      var rest := Occurrences(a, lines[1..], h, first + 1);
      OccurrencesExactly(a, lines[1..], h, first + 1, rest);
      hide Occurrences;
      forall n: nat
        ensures n in o <==> first <= n < first + |lines| && CheckerHeading(a, lines[n - first]) == Some(h)
      {
        assert n in o <==> n in rest || (n == first && CheckerHeading(a, lines[0]) == Some(h));
        assert first < n < first + |lines| ==> lines[1..][n - (first + 1)] == lines[n - first];
      }
      forall i, j | 0 <= i < j < |o|
        ensures o[i] < o[j]
      {
        assert |o| > |rest| ==> o == [first] + rest;
        assert forall k :: 0 <= k < |rest| ==> rest[k] in rest;
      }
    }
  }

  // ---- Lines ----

  function Flat(lines: seq<string>): string {
    if lines == [] then "" else lines[0] + Flat(lines[1..])
  }

  predicate IsEnd(a: Charset, end: string) {
    end == "\r\n" || (|end| == 1 && end[0] in a.breaks)
  }

  /** Line number `i`, with and without its end; only the last line may have none. */
  predicate CutLine(a: Charset, kept: seq<string>, bare: seq<string>, i: nat)
    requires i < |kept| == |bare|
  {
    && OneLine(a, bare[i]) && bare[i] <= kept[i]
    && var end := kept[i][|bare[i]|..];
    && (IsEnd(a, end) || (end == "" && bare[i] != "" && i == |kept| - 1))
    && (end == "\r" && i + 1 < |kept| ==> !("\n" <= kept[i + 1]))
  }

  predicate CutLines(a: Charset, kept: seq<string>, bare: seq<string>) {
    |kept| == |bare| && forall i :: 0 <= i < |kept| ==> CutLine(a, kept, bare, i)
  }

  lemma {:induction false} CutCons(a: Charset, line: string, end: string, kept: seq<string>, bare: seq<string>)
    requires OneLine(a, line) && IsEnd(a, end) && CutLines(a, kept, bare)
    requires end == "\r" && kept != [] ==> !("\n" <= kept[0])
    ensures CutLines(a, [line + end] + kept, [line] + bare)
  {
    var k, b := [line + end] + kept, [line] + bare;
    forall i | 0 <= i < |k|
      ensures CutLine(a, k, b, i)
    {
      if i == 0 {
        assert k[0][|b[0]|..] == end;
      } else {
        assert CutLine(a, kept, bare, i - 1);
        assert i + 1 < |k| ==> k[i + 1] == kept[i];
      }
    }
  }

  /** The lines with their ends are the text, and without them they hold no line end. */
  lemma {:induction false} LinesAreCut(a: Charset, u: string)
    ensures Flat(Lines(a, u, true)) == u
    ensures CutLines(a, Lines(a, u, true), Lines(a, u, false))
    decreases |u|
  {
    hide Lines, Flat, CutLines, BreakAt;
    if u == "" {
      NoLine(a);
    } else if BreakAt(a, u) == |u| {
      LastLine(a, u);
    } else {
      var k := BreakAt(a, u);
      var n := k + BreakLength(u[k..]);
      LinesAreCut(a, u[n..]);
      var kept, bare := Lines(a, u[n..], true), Lines(a, u[n..], false);
      LinesUnfold(a, u, true);
      LinesUnfold(a, u, false);
      FlatCons(u[..n], kept);
      assert u == u[..n] + u[n..] && u[..n] == u[..k] + u[k..n];
      FirstOfFlat(kept);
      EndIsWhole(a, u, k);
      CutCons(a, u[..k], u[k..n], kept, bare);
    }
  }

  lemma {:induction false} NoLine(a: Charset)
    ensures Flat(Lines(a, "", true)) == "" && CutLines(a, Lines(a, "", true), Lines(a, "", false))
  {
  }

  /** A carriage return stands alone as an end only if no newline follows it. */
  lemma {:induction false} EndIsWhole(a: Charset, u: string, k: nat)
    requires k < |u| && u[k] in a.breaks
    ensures
      var n := k + BreakLength(u[k..]);
      IsEnd(a, u[k..n]) && (u[k..n] == "\r" ==> !("\n" <= u[n..]))
  {
    var n := k + BreakLength(u[k..]);
    assert |u[k..n]| == BreakLength(u[k..]) && u[k..n][0] == u[k];
    assert "\n" <= u[n..] ==> u[n..][..1] == "\n" && u[n] == '\n';
    assert n == k + 2 ==> u[k..n] == [u[k], u[k + 1]];
  }

  lemma {:induction false} LastLine(a: Charset, u: string)
    requires u != "" && BreakAt(a, u) == |u|
    ensures Lines(a, u, true) == [u] && Lines(a, u, false) == [u]
    ensures Flat([u]) == u && CutLines(a, [u], [u])
  {
    assert u[..|u|] == u && u[|u|..] == "";
    assert [u][1..] == [] && u + "" == u;
  }

  lemma {:induction false} FirstOfFlat(kept: seq<string>)
    ensures kept != [] ==> kept[0] <= Flat(kept)
    ensures kept != [] && "\n" <= kept[0] ==> "\n" <= Flat(kept)
  {
    if kept != [] && "\n" <= kept[0] {
      assert kept[0][..1] == "\n" && Flat(kept)[..1] == kept[0][..1];
    }
  }

  lemma {:induction false} FlatCons(line: string, lines: seq<string>)
    ensures Flat([line] + lines) == line + Flat(lines)
  {
    assert ([line] + lines)[1..] == lines;
  }

  // ---- Parsing ----

  predicate NoHeading(a: Charset, lines: seq<string>) {
    forall i :: 0 <= i < |lines| ==> Heading(a, lines[i]).None?
  }

  /** Heading lines, each with the lines of its section. */
  function Assembled(heads: seq<string>, sections: seq<LineSection>): seq<string>
    requires |heads| == |sections|
  {
    if sections == [] then [] else [heads[0]] + sections[0].body + Assembled(heads[1..], sections[1..])
  }

  /** `lines` are the preamble and the sections behind these heading lines, and no other line is one. */
  predicate LaidOut(a: Charset, lines: seq<string>, parsed: Parsed, heads: seq<string>) {
    && |heads| == |parsed.sections|
    && lines == parsed.preamble + Assembled(heads, parsed.sections)
    && NoHeading(a, parsed.preamble) && Headed(a, heads, parsed.sections)
  }

  /** These are the heading lines of the sections, and the bodies have none. */
  predicate Headed(a: Charset, heads: seq<string>, sections: seq<LineSection>) {
    && |heads| == |sections|
    && forall i :: 0 <= i < |heads| ==>
         Heading(a, heads[i]) == Some(sections[i].heading) && NoHeading(a, sections[i].body)
  }

  lemma {:induction false} HeadedFirst(a: Charset, heads: seq<string>, sections: seq<LineSection>)
    requires Headed(a, heads, sections) && sections != []
    ensures Heading(a, heads[0]) == Some(sections[0].heading) && NoHeading(a, sections[0].body)
    ensures Headed(a, heads[1..], sections[1..])
  {
    hide Heading, NoHeading;
  }

  lemma {:induction false} ParseIsLayout(a: Charset, lines: seq<string>) returns (heads: seq<string>)
    ensures LaidOut(a, lines, ParseLines(a, lines), heads)
  {
    hide Heading;
    if lines == [] {
      heads := [];
    } else {
      var rest := ParseLines(a, lines[1..]);
      var more := ParseIsLayout(a, lines[1..]);
      assert lines == [lines[0]] + lines[1..];
      if Heading(a, lines[0]).None? {
        heads := more;
        assert [lines[0]] + (rest.preamble + Assembled(more, rest.sections)) ==
               [lines[0]] + rest.preamble + Assembled(more, rest.sections);
      } else {
        heads := [lines[0]] + more;
        var section := LineSection(Heading(a, lines[0]).value, rest.preamble);
        AssembledCons(lines[0], section, more, rest.sections);
        assert [] + Assembled(heads, [section] + rest.sections) == Assembled(heads, [section] + rest.sections);
      }
    }
  }

  lemma {:induction false} AssembledCons(
    head: string, section: LineSection, heads: seq<string>, sections: seq<LineSection>)
    requires |heads| == |sections|
    ensures
      Assembled([head] + heads, [section] + sections) == [head] + (section.body + Assembled(heads, sections))
  {
    assert ([head] + heads)[1..] == heads && ([section] + sections)[1..] == sections;
  }

  lemma {:induction false} ParseAfter(a: Charset, front: seq<string>, tail: seq<string>)
    requires NoHeading(a, front)
    ensures ParseLines(a, front + tail) ==
      Parsed(front + ParseLines(a, tail).preamble, ParseLines(a, tail).sections)
  {
    hide Heading;
    if front == [] {
      assert front + tail == tail && [] + ParseLines(a, tail).preamble == ParseLines(a, tail).preamble;
    } else {
      assert (front + tail)[1..] == front[1..] + tail && (front + tail)[0] == front[0];
      ParseAfter(a, front[1..], tail);
      assert [front[0]] + (front[1..] + ParseLines(a, tail).preamble) == front + ParseLines(a, tail).preamble;
    }
  }

  lemma {:induction false} ParseAssembled(a: Charset, heads: seq<string>, sections: seq<LineSection>)
    requires Headed(a, heads, sections)
    ensures ParseLines(a, Assembled(heads, sections)) == Parsed([], sections)
  {
    if sections == [] {
      NothingLeft(a, []);
    } else {
      HeadedFirst(a, heads, sections);
      var body, rest := sections[0].body, Assembled(heads[1..], sections[1..]);
      assert [heads[0]] + body + rest == [heads[0]] + (body + rest);
      assert Assembled(heads, sections) == [heads[0]] + (body + rest);
      assert |heads[1..]| == |sections[1..]|;
      hide Heading, NoHeading, ParseLines, Headed, Assembled;
      ParseAssembled(a, heads[1..], sections[1..]);
      ParseAfter(a, body, rest);
      ParseCons(a, heads[0], body + rest);
      assert body + [] == body;
      assert sections == [sections[0]] + sections[1..];
    }
  }

  /** Parsing is taking a text apart at its heading lines, which can be done in one way. */
  lemma {:induction false} ParsedExactly(a: Charset, lines: seq<string>, parsed: Parsed)
    ensures ParseLines(a, lines) == parsed <==> exists heads :: LaidOut(a, lines, parsed, heads)
  {
    if ParseLines(a, lines) == parsed {
      var heads := ParseIsLayout(a, lines);
    }
    forall heads | LaidOut(a, lines, parsed, heads)
      ensures ParseLines(a, lines) == parsed
    {
      ParseAssembled(a, heads, parsed.sections);
      ParseAfter(a, parsed.preamble, Assembled(heads, parsed.sections));
      assert parsed.preamble + [] == parsed.preamble;
    }
  }

  // ---- Printing ----

  /** A section as it is written: its heading and, unless its content is empty, the content without
    * trailing whitespace on the next lines. */
  function Block(a: Charset, s: Section): string {
    "## " + s.heading + (if s.content == "" then "" else "\n" + Rstrip(a, s.content))
  }

  /** Each block behind a blank line. */
  function Blocks(a: Charset, sections: seq<Section>): string {
    if sections == [] then "" else "\n\n" + (Block(a, sections[0]) + Blocks(a, sections[1..]))
  }

  lemma {:induction false} JoinAppend(x: seq<string>, y: seq<string>)
    requires x != [] && y != []
    ensures Join(x + y) == Join(x) + "\n" + Join(y)
  {
    if |x| == 1 {
      assert (x + y)[1..] == y;
    } else {
      JoinAppend(x[1..], y);
      assert (x + y)[1..] == x[1..] + y;
      assert x[0] + "\n" + (Join(x[1..]) + "\n" + Join(y)) == x[0] + "\n" + Join(x[1..]) + "\n" + Join(y);
    }
  }

  lemma {:induction false} JoinOneSection(a: Charset, s: Section)
    ensures Join(OneSection(a, s, false)) == Block(a, s)
    ensures Join(OneSection(a, s, true)) == "\n" + Block(a, s)
    ensures OneSection(a, s, false) != [] && OneSection(a, s, true) != []
  {
    hide Rstrip, Join;
    var head := "## " + s.heading;
    JoinOne(head);
    JoinOne(Rstrip(a, s.content));
    JoinOne("");
    var parts := [head] + (if s.content != "" then [Rstrip(a, s.content)] else []);
    assert OneSection(a, s, false) == parts && OneSection(a, s, true) == [""] + parts;
    if s.content != "" {
      JoinAppend([head], [Rstrip(a, s.content)]);
      assert head + "\n" + Rstrip(a, s.content) == head + ("\n" + Rstrip(a, s.content));
    } else {
      assert parts == [head] && head + "" == head;
    }
    JoinAppend([""], parts);
    assert "" + "\n" + Join(parts) == "\n" + Join(parts);
  }

  lemma {:induction false} JoinOne(u: string)
    ensures Join([u]) == u
  {
  }

  lemma {:induction false} JoinSections(a: Charset, front: seq<string>, sections: seq<Section>)
    requires front != []
    ensures Join(front + SectionParts(a, sections, true)) == Join(front) + Blocks(a, sections)
    decreases |sections|
  {
    hide Join, OneSection, Block;
    if sections == [] {
      assert front + [] == front && Join(front) + "" == Join(front);
    } else {
      var one, rest := OneSection(a, sections[0], true), SectionParts(a, sections[1..], true);
      JoinOneSection(a, sections[0]);
      assert front + (one + rest) == (front + one) + rest;
      JoinSections(a, front + one, sections[1..]);
      JoinAppend(front, one);
      BlankLine(Join(front), Block(a, sections[0]), Blocks(a, sections[1..]));
    }
  }

  lemma {:induction false} BlankLine(x: string, y: string, z: string)
    ensures x + "\n" + ("\n" + y) + z == x + ("\n\n" + (y + z))
  {
    assert "\n\n" == "\n" + "\n";
  }

  /** What is written: the preamble without trailing whitespace, and the blocks, one blank line between
    * two of them, and a newline at the end; nothing at all for nothing. */
  lemma {:induction false} PrintedLayout(a: Charset, preamble: string, sections: seq<Section>)
    ensures Printed(Parts(a, preamble, sections)) ==
      if preamble != "" then Rstrip(a, preamble) + Blocks(a, sections) + "\n"
      else if sections == [] then ""
      else Block(a, sections[0]) + Blocks(a, sections[1..]) + "\n"
  {
    hide Rstrip, Join, OneSection, Block, Blocks;
    if preamble != "" {
      JoinSections(a, [Rstrip(a, preamble)], sections);
      JoinOne(Rstrip(a, preamble));
    } else if sections == [] {
      assert Parts(a, preamble, sections) == [];
      assert Join([]) == "" by {
        JoinNone();
      }
    } else {
      JoinOneSection(a, sections[0]);
      JoinSections(a, OneSection(a, sections[0], false), sections[1..]);
      var parts := Parts(a, preamble, sections);
      assert parts == OneSection(a, sections[0], false) + SectionParts(a, sections[1..], true);
    }
  }

  lemma {:induction false} JoinNone()
    ensures Join([]) == ""
  {
  }

  /** The fixer as a whole: the lines of the text are taken apart at the heading lines, the last
    * section of each heading is kept, and what is kept is written in that layout. */
  lemma {:induction false} FixedLayout(a: Charset, content: string)
    ensures exists parsed: Parsed, heads: seq<string>, kept: seq<Section> ::
      && LaidOut(a, Lines(a, content, false), parsed, heads)
      && LastOccurrences(kept, Closed(parsed.sections))
      && Fixed(a, content) ==
         var preamble := Join(parsed.preamble);
         if preamble != "" then Rstrip(a, preamble) + Blocks(a, kept) + "\n"
         else if kept == [] then ""
         else Block(a, kept[0]) + Blocks(a, kept[1..]) + "\n"
  {
    var parsed := ParseLines(a, Lines(a, content, false));
    var heads := ParseIsLayout(a, Lines(a, content, false));
    var kept := KeepLast(Closed(parsed.sections));
    hide LaidOut, LastOccurrences, Lines, ParseLines, Blocks, Block, Closed, KeepLast, Rstrip, Join, Printed, Parts;
    KeepsLastOccurrences(Closed(parsed.sections));
    PrintedLayout(a, Join(parsed.preamble), kept);
  }
}
