/** The manifest fixer and the separate checker that its output must satisfy.
  *
  * The fixer parses a text into a preamble and level-two sections, keeps the last section of each
  * heading, and prints the result. The main results: the printed text parses back to the same
  * headings, with bodies equal up to trailing whitespace, and the checker, which recognises
  * headings by a different rule, finds no heading twice in it.
  */
module Manifest {
  import opened Wrappers

  /** The host language's whitespace; `breaks` are the characters that end a line. */
  datatype Whitespace = Whitespace(spaces: set<char>, breaks: set<char>)

  predicate WellFormed(a: Whitespace) {
    && a.breaks <= a.spaces && {'\n', '\r'} <= a.breaks
    && ' ' in a.spaces && ' ' !in a.breaks && '#' !in a.spaces
  }

  type Charset = a: Whitespace | WellFormed(a) witness Whitespace({'\n', '\r', ' '}, {'\n', '\r'})

  datatype Section = Section(heading: string, content: string)

  // ---- Text primitives of the host language ----

  function Rstrip(a: Charset, u: string): (r: string)
    ensures r <= u && (r != [] ==> r[|r| - 1] !in a.spaces)
  {
    if u != [] && u[|u| - 1] in a.spaces then Rstrip(a, u[..|u| - 1]) else u
  }

  function Lstrip(a: Charset, u: string): (r: string)
    ensures |r| <= |u| && r == u[|u| - |r|..] && (r != [] ==> r[0] !in a.spaces)
    ensures forall i :: 0 <= i < |u| - |r| ==> u[i] in a.spaces
  {
    if u != [] && u[0] in a.spaces then
      var r := Lstrip(a, u[1..]);
      assert u[1..][|u| - 1 - |r|..] == u[|u| - |r|..];
      assert forall i :: 0 < i < |u| - |r| ==> u[i] == u[1..][i - 1];
      r
    else u
  }

  function Strip(a: Charset, u: string): string {
    Rstrip(a, Lstrip(a, u))
  }

  function Join(lines: seq<string>): string {
    if lines == [] then "" else if |lines| == 1 then lines[0] else lines[0] + "\n" + Join(lines[1..])
  }

  predicate OneLine(a: Charset, line: string) {
    forall i :: 0 <= i < |line| ==> line[i] !in a.breaks
  }

  /** Characters before the first line break. */
  function BreakAt(a: Charset, u: string): (k: nat)
    ensures k <= |u| && OneLine(a, u[..k]) && (k < |u| ==> u[k] in a.breaks)
  {
    if u == [] || u[0] in a.breaks then 0
    else
      var k := 1 + BreakAt(a, u[1..]);
      assert u[..k] == [u[0]] + u[1..][..k - 1];
      k
  }

  /** Length of the line break at the start of `u`. */
  function BreakLength(u: string): (n: nat)
    requires u != []
    ensures 1 <= n <= |u|
  {
    if |u| > 1 && u[0] == '\r' && u[1] == '\n' then 2 else 1
  }

  /** The lines of a text, with or without their ends. */
  function Lines(a: Charset, u: string, keepEnds: bool): seq<string>
    decreases |u|
  {
    if u == "" then []
    else
      var k := BreakAt(a, u);
      if k == |u| then [u]
      else
        var n := k + BreakLength(u[k..]);
        [if keepEnds then u[..n] else u[..k]] + Lines(a, u[n..], keepEnds)
  }

  // ---- The fixer's headings ----

  /** What the heading pattern captures after the two hash signs. Only a rest that is all whitespace
    * makes it give one character back. */
  function Captured(a: Charset, rest: string): Option<string> {
    if rest == "" || rest[0] !in a.spaces then None
    else if Lstrip(a, rest) != "" then Some(Rstrip(a, Lstrip(a, rest)))
    else if |rest| > 1 then Some(rest[|rest| - 1..])
    else None
  }

  function Heading(a: Charset, line: string): Option<string> {
    var body := Lstrip(a, line);
    if "##" <= body && !("###" <= body) then Captured(a, body[2..]) else None
  }

  // ---- Parsing ----

  datatype LineSection = LineSection(heading: string, body: seq<string>)

  datatype Parsed = Parsed(preamble: seq<string>, sections: seq<LineSection>)

  /** The lines before the first heading, and each heading with the lines up to the next one. */
  function ParseLines(a: Charset, lines: seq<string>): Parsed {
    if lines == [] then Parsed([], [])
    else
      var rest := ParseLines(a, lines[1..]);
      match Heading(a, lines[0])
      case None => Parsed([lines[0]] + rest.preamble, rest.sections)
      case Some(h) => Parsed([], [LineSection(h, rest.preamble)] + rest.sections)
  }

  function Closed(sections: seq<LineSection>): (r: seq<Section>)
    ensures |r| == |sections|
    ensures forall i :: 0 <= i < |r| ==> r[i] == Section(sections[i].heading, Join(sections[i].body))
  {
    if sections == [] then []
    else [Section(sections[0].heading, Join(sections[0].body))] + Closed(sections[1..])
  }

  lemma {:induction false} ParseStep(a: Charset, lines: seq<string>, i: nat)
    requires i < |lines|
    ensures
      var rest := ParseLines(a, lines[i + 1..]);
      ParseLines(a, lines[i..]) ==
        if Heading(a, lines[i]).None? then Parsed([lines[i]] + rest.preamble, rest.sections)
        else Parsed([], [LineSection(Heading(a, lines[i]).value, rest.preamble)] + rest.sections)
  {
    assert lines[i..][1..] == lines[i + 1..];
  }

  method ParseManifest(a: Charset, content: string) returns (preamble: string, sections: seq<Section>)
    ensures
      var parsed := ParseLines(a, Lines(a, content, false));
      preamble == Join(parsed.preamble) && sections == Closed(parsed.sections)
  {
    hide ParseLines, Heading, Join, Closed;
    var lines := Lines(a, content, false);
    ghost var all := ParseLines(a, lines);
    var preambleLines: seq<string>, current: Option<string>, body: seq<string> := [], None, [];
    sections := [];
    assert lines[0..] == lines;
    for i := 0 to |lines|
      invariant
        var rest := ParseLines(a, lines[i..]);
        if current.None? then
          sections == [] && all == Parsed(preambleLines + rest.preamble, rest.sections)
        else
          && all.preamble == preambleLines
          && Closed(all.sections) ==
             sections + [Section(current.value, Join(body + rest.preamble))] + Closed(rest.sections)
    {
      ParseStep(a, lines, i);
      ghost var rest := ParseLines(a, lines[i + 1..]);
      var heading := Heading(a, lines[i]);
      if heading.None? {
        if current.Some? {
          assert body + ([lines[i]] + rest.preamble) == body + [lines[i]] + rest.preamble;
          body := body + [lines[i]];
        } else {
          assert preambleLines + ([lines[i]] + rest.preamble) == preambleLines + [lines[i]] + rest.preamble;
          preambleLines := preambleLines + [lines[i]];
        }
        continue;
      }
      ClosedStep(heading.value, rest);
      assert body + [] == body && preambleLines + [] == preambleLines && [] + rest.preamble == rest.preamble;
      if current.Some? {
        sections := sections + [Section(current.value, Join(body))];
      }
      current := heading;
      body := [];
    }
    NothingLeft(a, lines[|lines|..]);
    assert body + [] == body && preambleLines + [] == preambleLines;
    if current.Some? {
      sections := sections + [Section(current.value, Join(body))];
    }
    preamble := Join(preambleLines);
  }

  lemma ClosedStep(h: string, rest: Parsed)
    ensures Closed([LineSection(h, rest.preamble)] + rest.sections) ==
            [Section(h, Join(rest.preamble))] + Closed(rest.sections)
  {
    hide Join;
  }

  lemma {:induction false} NothingLeft(a: Charset, lines: seq<string>)
    requires lines == []
    ensures ParseLines(a, lines) == Parsed([], []) && Closed(ParseLines(a, lines).sections) == []
  {
  }

  // ---- Deduplicating ----

  predicate Names(sections: seq<Section>, h: string) {
    exists i :: 0 <= i < |sections| && sections[i].heading == h
  }

  /** The last section of each heading, in the order of those last occurrences. */
  function KeepLast(sections: seq<Section>): (r: seq<Section>)
    ensures |r| <= |sections|
    ensures forall s :: s in r ==> s in sections
  {
    if sections == [] then []
    else
      var rest := KeepLast(sections[1..]);
      if Names(sections[1..], sections[0].heading) then rest else [sections[0]] + rest
  }

  function Reversed(sections: seq<Section>): (r: seq<Section>)
    ensures |r| == |sections|
  {
    if sections == [] then [] else Reversed(sections[1..]) + [sections[0]]
  }

  lemma {:induction false} ReversedSnoc(sections: seq<Section>, s: Section)
    ensures Reversed(sections + [s]) == [s] + Reversed(sections)
  {
    if sections == [] {
      assert sections + [s] == [s];
    } else {
      assert (sections + [s])[1..] == sections[1..] + [s];
      ReversedSnoc(sections[1..], s);
    }
  }

  method DeduplicateSections(sections: seq<Section>) returns (kept: seq<Section>)
    ensures kept == KeepLast(sections)
  {
    var seen: set<string>, reversedOut: seq<Section> := {}, [];
    for i := |sections| downto 0
      invariant Reversed(reversedOut) == KeepLast(sections[i..])
      invariant forall h :: h in seen <==> Names(sections[i..], h)
    {
      var s := sections[i];
      NamesOneMore(sections, i);
      assert sections[i..][1..] == sections[i + 1..];
      if s.heading in seen {
        continue;
      }
      seen := seen + {s.heading};
      ReversedSnoc(reversedOut, s);
      reversedOut := reversedOut + [s];
    }
    assert sections[0..] == sections;
    return Reversed(reversedOut);
  }

  lemma NamesOneMore(sections: seq<Section>, i: nat)
    requires i < |sections|
    ensures forall h :: Names(sections[i..], h) <==> h == sections[i].heading || Names(sections[i + 1..], h)
  {
    var u, v := sections[i..], sections[i + 1..];
    assert forall j :: 0 <= j < |v| ==> v[j] == u[j + 1];
    assert forall j :: 0 < j < |u| ==> u[j] == v[j - 1];
    assert u[0] == sections[i];
  }

  /** Position of the last section with this heading. */
  function LastOf(sections: seq<Section>, h: string): (k: nat)
    requires Names(sections, h)
    ensures k < |sections| && sections[k].heading == h
    ensures forall j :: k < j < |sections| ==> sections[j].heading != h
  {
    NamesOneMore(sections, 0);
    assert sections[0..] == sections;
    if Names(sections[1..], h) then
      var k := LastOf(sections[1..], h);
      assert forall j :: 0 < j < |sections| ==> sections[j] == sections[1..][j - 1];
      k + 1
    else
      assert forall j :: 0 < j < |sections| ==> sections[j] == sections[1..][j - 1];
      0
  }

  /** For every heading of the input its last section, and nothing else, in the order of their positions. */
  ghost predicate LastOccurrences(kept: seq<Section>, sections: seq<Section>) {
    && (forall h :: Names(kept, h) <==> Names(sections, h))
    && (forall i :: 0 <= i < |kept| ==>
          Names(sections, kept[i].heading) && kept[i] == sections[LastOf(sections, kept[i].heading)])
    && (forall i, j :: 0 <= i < j < |kept| ==>
          LastOf(sections, kept[i].heading) < LastOf(sections, kept[j].heading))
  }

  lemma {:induction false} LastOfRest(sections: seq<Section>)
    requires sections != []
    ensures forall h :: Names(sections, h) <==> h == sections[0].heading || Names(sections[1..], h)
    ensures forall h :: Names(sections[1..], h) ==> LastOf(sections, h) == LastOf(sections[1..], h) + 1
    ensures !Names(sections[1..], sections[0].heading) ==> LastOf(sections, sections[0].heading) == 0
  {
    NamesOneMore(sections, 0);
    assert sections[0..] == sections;
  }

  lemma RepeatedHeading(sections: seq<Section>, rest: seq<Section>)
    requires sections != [] && Names(sections[1..], sections[0].heading) && LastOccurrences(rest, sections[1..])
    ensures LastOccurrences(rest, sections)
  {
    LastOfRest(sections);
    hide LastOf, Names;
  }

  lemma NewHeading(sections: seq<Section>, rest: seq<Section>)
    requires sections != [] && !Names(sections[1..], sections[0].heading) && LastOccurrences(rest, sections[1..])
    ensures LastOccurrences([sections[0]] + rest, sections)
  {
    var kept := [sections[0]] + rest;
    NamesAfterNew(sections, rest);
    LastOfRest(sections);
    hide LastOf, Names;
    forall i | 0 <= i < |kept|
      ensures Names(sections, kept[i].heading) && kept[i] == sections[LastOf(sections, kept[i].heading)]
      ensures i > 0 ==>
        Names(sections[1..], kept[i].heading) &&
        LastOf(sections, kept[i].heading) == LastOf(sections[1..], rest[i - 1].heading) + 1
    {
      if i > 0 {
        assert kept[i] == rest[i - 1];
      }
    }
  }

  lemma NamesAfterNew(sections: seq<Section>, rest: seq<Section>)
    requires sections != [] && forall h :: Names(rest, h) <==> Names(sections[1..], h)
    ensures forall h :: Names([sections[0]] + rest, h) <==> Names(sections, h)
  {
    var kept := [sections[0]] + rest;
    LastOfRest(sections);
    LastOfRest(kept);
    assert kept[1..] == rest;
  }

  lemma {:induction false} KeepsLastOccurrences(sections: seq<Section>)
    ensures LastOccurrences(KeepLast(sections), sections)
  {
    if sections != [] {
      KeepsLastOccurrences(sections[1..]);
      hide LastOccurrences;
      if Names(sections[1..], sections[0].heading) {
        RepeatedHeading(sections, KeepLast(sections[1..]));
      } else {
        NewHeading(sections, KeepLast(sections[1..]));
      }
    }
  }

  lemma {:induction false} KeptHeadingsDiffer(sections: seq<Section>, i: nat, j: nat)
    requires i < j < |KeepLast(sections)|
    ensures KeepLast(sections)[i].heading != KeepLast(sections)[j].heading
  {
    KeepsLastOccurrences(sections);
  }

  // ---- Printing ----

  /** The parts of one section; a blank part separates it from what was printed before. */
  function OneSection(a: Charset, s: Section, started: bool): seq<string> {
    (if started then [""] else []) + ["## " + s.heading] + (if s.content != "" then [Rstrip(a, s.content)] else [])
  }

  function SectionParts(a: Charset, sections: seq<Section>, started: bool): seq<string> {
    if sections == [] then [] else OneSection(a, sections[0], started) + SectionParts(a, sections[1..], true)
  }

  function Parts(a: Charset, preamble: string, sections: seq<Section>): seq<string> {
    (if preamble != "" then [Rstrip(a, preamble)] else []) + SectionParts(a, sections, preamble != "")
  }

  function Printed(parts: seq<string>): string {
    Join(parts) + (if parts != [] then "\n" else "")
  }

  lemma {:induction false} SectionPartsStep(a: Charset, sections: seq<Section>, i: nat, started: bool)
    requires i < |sections|
    ensures
      SectionParts(a, sections[i..], started) ==
        OneSection(a, sections[i], started) + SectionParts(a, sections[i + 1..], true)
  {
    assert sections[i..][1..] == sections[i + 1..];
  }

  method ReconstructManifest(a: Charset, preamble: string, sections: seq<Section>) returns (text: string)
    ensures text == Printed(Parts(a, preamble, sections))
  {
    var parts: seq<string> := [];
    if preamble != "" {
      parts := parts + [Rstrip(a, preamble)];
    }
    assert sections[0..] == sections;
    assert parts + SectionParts(a, sections[0..], parts != []) == Parts(a, preamble, sections);
    hide SectionParts, Rstrip, OneSection, Parts;
    for i := 0 to |sections|
      invariant parts + SectionParts(a, sections[i..], parts != []) == Parts(a, preamble, sections)
    {
      var s := sections[i];
      SectionPartsStep(a, sections, i, parts != []);
      ghost var before, one := parts, OneSection(a, s, parts != []);
      if parts != [] {
        parts := parts + [""];
      }
      parts := parts + ["## " + s.heading];
      if s.content != "" {
        parts := parts + [Rstrip(a, s.content)];
      }
      OnePrinted(a, s, before, parts);
      Reassociate(before, one, SectionParts(a, sections[i + 1..], true));
    }
    NoPartsLeft(a, sections[|sections|..], parts != []);
    assert parts + [] == parts;
    return Join(parts) + (if parts != [] then "\n" else "");
  }

  lemma {:induction false} OnePrinted(a: Charset, s: Section, before: seq<string>, parts: seq<string>)
    requires
      var separated := if before != [] then before + [""] else before;
      var headed := separated + ["## " + s.heading];
      parts == if s.content != "" then headed + [Rstrip(a, s.content)] else headed
    ensures parts == before + OneSection(a, s, before != []) && parts != []
  {
    hide Rstrip;
  }

  lemma Reassociate<T>(x: seq<T>, y: seq<T>, z: seq<T>)
    ensures x + (y + z) == x + y + z
  {
  }

  lemma {:induction false} NoPartsLeft(a: Charset, sections: seq<Section>, started: bool)
    requires sections == []
    ensures SectionParts(a, sections, started) == []
  {
  }

  // ---- The checker ----

  /** The heading the checker sees in a line. */
  function CheckerHeading(a: Charset, line: string): Option<string> {
    var stripped := Strip(a, line);
    if "## " <= stripped && !("### " <= stripped) then Some(Strip(a, stripped[3..])) else None
  }

  /** Numbers of the lines with this heading, the first line being number `first`. */
  function Occurrences(a: Charset, lines: seq<string>, h: string, first: nat): seq<nat> {
    if lines == [] then []
    else (if CheckerHeading(a, lines[0]) == Some(h) then [first] else []) + Occurrences(a, lines[1..], h, first + 1)
  }

  function At(occurrences: map<string, seq<nat>>, h: string): seq<nat> {
    if h in occurrences then occurrences[h] else []
  }

  lemma {:induction false} OccurrencesStep(a: Charset, lines: seq<string>, i: nat, h: string)
    requires i <= |lines|
    ensures
      Occurrences(a, lines[i..], h, i + 1) ==
        if i == |lines| then []
        else
          (if CheckerHeading(a, lines[i]) == Some(h) then [i + 1] else []) + Occurrences(a, lines[i + 1..], h, i + 2)
  {
    if i < |lines| {
      assert lines[i..][1..] == lines[i + 1..];
    }
  }

  method CollectHeadings(a: Charset, lines: seq<string>) returns (occurrences: map<string, seq<nat>>)
    ensures forall h :: At(occurrences, h) == Occurrences(a, lines, h, 1)
    ensures forall h :: h in occurrences ==> occurrences[h] != []
  {
    hide Occurrences, CheckerHeading;
    occurrences := map[];
    assert lines[0..] == lines;
    for i := 0 to |lines|
      invariant forall h :: h in occurrences ==> occurrences[h] != []
      invariant forall h ::
        At(occurrences, h) + Occurrences(a, lines[i..], h, i + 1) == Occurrences(a, lines, h, 1)
    {
      var heading := CheckerHeading(a, lines[i]);
      ghost var before := occurrences;
      if heading.Some? {
        occurrences := occurrences[heading.value := At(occurrences, heading.value) + [i + 1]];
      }
      forall h
        ensures At(occurrences, h) + Occurrences(a, lines[i + 1..], h, i + 2) == Occurrences(a, lines, h, 1)
      {
        OccurrencesStep(a, lines, i, h);
        var here := if heading == Some(h) then [i + 1] else [];
        assert At(occurrences, h) == At(before, h) + here;
        assert At(before, h) + (here + Occurrences(a, lines[i + 1..], h, i + 2)) ==
               At(before, h) + here + Occurrences(a, lines[i + 1..], h, i + 2);
      }
    }
    forall h
      ensures At(occurrences, h) == Occurrences(a, lines, h, 1)
    {
      OccurrencesStep(a, lines, |lines|, h);
      assert At(occurrences, h) + [] == At(occurrences, h);
    }
  }

  // ---- Text and its lines ----

  /** A text cut at its newlines; there is always a last line, possibly empty. */
  function SplitLines(u: string): (r: seq<string>)
    ensures r != []
  {
    if u == "" then [""]
    else
      var rest := SplitLines(u[1..]);
      if u[0] == '\n' then [""] + rest else [[u[0]] + rest[0]] + rest[1..]
  }

  lemma {:induction false} JoinOfSplit(u: string)
    ensures Join(SplitLines(u)) == u
  {
    if u != "" {
      var rest := SplitLines(u[1..]);
      JoinOfSplit(u[1..]);
      assert u == [u[0]] + u[1..];
      if u[0] == '\n' {
        assert SplitLines(u)[1..] == rest;
        assert Join(SplitLines(u)) == "" + "\n" + Join(rest);
      } else {
        JoinFirst(u[0], rest);
      }
    }
  }

  lemma {:induction false} JoinFirst(c: char, lines: seq<string>)
    requires lines != []
    ensures Join([[c] + lines[0]] + lines[1..]) == [c] + Join(lines)
  {
    var w := [[c] + lines[0]] + lines[1..];
    assert w[1..] == lines[1..];
    if |lines| > 1 {
      assert [c] + lines[0] + "\n" + Join(lines[1..]) == [c] + (lines[0] + "\n" + Join(lines[1..]));
    }
  }

  lemma {:induction false} SplitLine(line: string, x: string)
    requires '\n' !in line
    ensures SplitLines(line) == [line]
    ensures SplitLines(line + "\n" + x) == [line] + SplitLines(x)
  {
    var u := line + "\n" + x;
    if line == "" {
      assert u[1..] == x && u[0] == '\n';
    } else {
      assert u[1..] == line[1..] + "\n" + x && u[0] == line[0];
      SplitLine(line[1..], x);
      assert line == [line[0]] + line[1..];
    }
  }

  predicate NoNewlines(lines: seq<string>) {
    forall i :: 0 <= i < |lines| ==> '\n' !in lines[i]
  }

  lemma {:induction false} SplitOfJoin(lines: seq<string>)
    requires lines != [] && NoNewlines(lines)
    ensures SplitLines(Join(lines)) == lines
  {
    hide SplitLines;
    SplitLine(lines[0], "");
    if |lines| > 1 {
      SplitLine(lines[0], Join(lines[1..]));
      SplitOfJoin(lines[1..]);
      assert lines == [lines[0]] + lines[1..];
    } else {
      assert lines == [lines[0]];
    }
  }

  /** One more character at the end: it opens a new line or extends the last one. */
  lemma {:induction false} SplitSnoc(u: string, c: char)
    ensures
      var r := SplitLines(u);
      var k := |r| - 1;
      SplitLines(u + [c]) == if c == '\n' then r + [""] else r[..k] + [r[k] + [c]]
  {
    var w := u + [c];
    if u == "" {
      assert w[1..] == "" && w[0] == c;
      assert [c] + "" == [c] == "" + [c];
    } else {
      assert w[1..] == u[1..] + [c] && w[0] == u[0];
      var rest := SplitLines(u[1..]);
      SplitSnoc(u[1..], c);
      SnocCase(u[0], c, rest);
    }
  }

  /** How the two directions of growth commute. */
  lemma SnocCase(first: char, c: char, rest: seq<string>)
    requires rest != []
    ensures
      var k := |rest| - 1;
      var longer := if c == '\n' then rest + [""] else rest[..k] + [rest[k] + [c]];
      var r := if first == '\n' then [""] + rest else [[first] + rest[0]] + rest[1..];
      (if first == '\n' then [""] + longer else [[first] + longer[0]] + longer[1..]) ==
        if c == '\n' then r + [""] else r[..|r| - 1] + [r[|r| - 1] + [c]]
  {
    if first != '\n' && c != '\n' && |rest| == 1 {
      assert [first] + (rest[0] + [c]) == [first] + rest[0] + [c];
    }
  }

  lemma {:induction false} FirstBreak(a: Charset, line: string, x: string)
    requires OneLine(a, line)
    ensures BreakAt(a, line + "\n" + x) == |line|
  {
    var u := line + "\n" + x;
    if line == "" {
      assert u[0] == '\n';
    } else {
      assert u[0] == line[0] && u[1..] == line[1..] + "\n" + x;
      FirstBreak(a, line[1..], x);
    }
  }

  lemma {:induction false} LinesOfLine(a: Charset, line: string, x: string)
    requires OneLine(a, line)
    ensures Lines(a, line + "\n" + x, false) == [line] + Lines(a, x, false)
  {
    var u := line + "\n" + x;
    FirstBreak(a, line, x);
    var k := |line|;
    assert u[..k] == line && u[k..][0] == '\n' && u[k + 1..] == x;
  }

  predicate AllOneLine(a: Charset, lines: seq<string>) {
    forall i :: 0 <= i < |lines| ==> OneLine(a, lines[i])
  }

  lemma {:induction false} LinesOfJoin(a: Charset, lines: seq<string>, x: string)
    requires lines != [] && AllOneLine(a, lines)
    ensures Lines(a, Join(lines) + "\n" + x, false) == lines + Lines(a, x, false)
  {
    hide Lines, OneLine;
    if |lines| == 1 {
      LinesOfLine(a, lines[0], x);
      assert lines == [lines[0]];
    } else {
      var y := Join(lines[1..]) + "\n" + x;
      LinesOfJoin(a, lines[1..], x);
      LinesOfLine(a, lines[0], y);
      assert Join(lines) + "\n" + x == lines[0] + "\n" + y;
      assert lines == [lines[0]] + lines[1..];
    }
  }

  lemma {:induction false} LinesAreOneLine(a: Charset, u: string)
    ensures AllOneLine(a, Lines(a, u, false))
    decreases |u|
  {
    if u != "" {
      var k := BreakAt(a, u);
      if k < |u| {
        LinesAreOneLine(a, u[k + BreakLength(u[k..])..]);
      } else {
        assert u[..k] == u;
      }
    }
  }

  // ---- What trailing whitespace can do ----

  lemma {:induction false} LstripSnoc(a: Charset, u: string, c: char)
    requires c in a.spaces
    ensures Lstrip(a, u + [c]) == if Lstrip(a, u) == "" then "" else Lstrip(a, u) + [c]
  {
    if u == "" {
      assert u + [c] == [c] && [c][1..] == "";
    } else {
      assert (u + [c])[1..] == u[1..] + [c];
      LstripSnoc(a, u[1..], c);
    }
  }

  lemma CapturedSnoc(a: Charset, rest: string, c: char)
    requires c in a.spaces && Captured(a, rest).Some?
    ensures Captured(a, rest + [c]).Some?
  {
    hide Lstrip, Rstrip;
    LstripSnoc(a, rest, c);
    assert (rest + [c])[0] == rest[0];
  }

  /** Trailing whitespace never hides a heading. */
  lemma SpaceKeepsHeading(a: Charset, line: string, c: char)
    requires c in a.spaces && Heading(a, line).Some?
    ensures Heading(a, line + [c]).Some?
  {
    hide Lstrip, Captured;
    LstripSnoc(a, line, c);
    var body := Lstrip(a, line);
    NothingCaptured(a);
    assert body[2..] != "";
    var w := body + [c];
    assert w[2..] == body[2..] + [c] && w[..2] == body[..2] && w[2] == body[2];
    CapturedSnoc(a, body[2..], c);
  }

  lemma NothingCaptured(a: Charset)
    ensures Captured(a, "").None?
  {
  }

  /** A text whose lines have no other line breaks and no headings. */
  predicate Clean(a: Charset, u: string) {
    forall i :: 0 <= i < |SplitLines(u)| ==> CleanLine(a, SplitLines(u)[i])
  }

  predicate CleanLine(a: Charset, line: string) {
    OneLine(a, line) && Heading(a, line).None?
  }

  lemma {:induction false} RstripKeepsClean(a: Charset, u: string)
    requires Clean(a, u)
    ensures Clean(a, Rstrip(a, u))
    decreases |u|
  {
    if u != [] && u[|u| - 1] in a.spaces {
      var v, c := u[..|u| - 1], u[|u| - 1];
      assert v + [c] == u;
      DropKeepsClean(a, v, c);
      RstripKeepsClean(a, v);
    }
  }

  lemma DropKeepsClean(a: Charset, v: string, c: char)
    requires c in a.spaces && Clean(a, v + [c])
    ensures Clean(a, v)
  {
    hide Heading, SplitLines;
    SplitSnoc(v, c);
    var r, w := SplitLines(v), SplitLines(v + [c]);
    forall i | 0 <= i < |r|
      ensures CleanLine(a, r[i])
    {
      assert CleanLine(a, w[i]);
      if c != '\n' && i == |r| - 1 {
        assert w[i] == r[i] + [c];
        if Heading(a, r[i]).Some? {
          SpaceKeepsHeading(a, r[i], c);
        }
        assert forall j :: 0 <= j < |r[i]| ==> r[i][j] == w[i][j];
      } else {
        assert w[i] == r[i];
      }
    }
  }

  // ---- Headings print and parse back ----

  predicate GoodHeading(a: Charset, h: string) {
    OneLine(a, h) && Heading(a, "## " + h) == Some(h)
  }

  /** A captured heading is trimmed text or one whitespace character. */
  predicate HeadingForm(a: Charset, h: string) {
    h != "" && if h[0] in a.spaces then |h| == 1 else Rstrip(a, h) == h
  }

  lemma CapturedForm(a: Charset, rest: string)
    requires Captured(a, rest).Some?
    ensures HeadingForm(a, Captured(a, rest).value)
    ensures forall i :: 0 <= i < |Captured(a, rest).value| ==> Captured(a, rest).value[i] in rest
  {
    hide Rstrip;
    var t := Lstrip(a, rest);
    if t != "" {
      TrimmedOnce(a, t);
      assert forall i :: 0 <= i < |Rstrip(a, t)| ==> Rstrip(a, t)[i] == t[i] == rest[|rest| - |t| + i];
    }
  }

  lemma FormIsCapturedAgain(a: Charset, h: string)
    requires HeadingForm(a, h)
    ensures Captured(a, " " + h) == Some(h)
  {
    hide Rstrip;
    var rest := " " + h;
    assert rest[1..] == h;
    if h[0] in a.spaces {
      assert h[1..] == "" && Lstrip(a, h) == "";
      assert rest[|rest| - 1..] == h;
    }
  }

  lemma PrintedHeading(a: Charset, h: string)
    ensures Heading(a, "## " + h) == Captured(a, " " + h)
  {
    hide Captured;
    var w := "## " + h;
    assert w[0] == '#' && w[2] == ' ' && w[..2] == "##" && w[2..] == " " + h;
    assert Lstrip(a, w) == w;
  }

  lemma HeadingIsGood(a: Charset, line: string)
    requires OneLine(a, line) && Heading(a, line).Some?
    ensures GoodHeading(a, Heading(a, line).value)
  {
    hide Captured, Lstrip;
    var body := Lstrip(a, line);
    CapturedForm(a, body[2..]);
    FormIsCapturedAgain(a, Heading(a, line).value);
    PrintedHeading(a, Heading(a, line).value);
    assert forall i :: 0 <= i < |body[2..]| ==> body[2..][i] == line[|line| - |body| + 2 + i];
    hide Heading, HeadingForm;
  }

  lemma {:induction false} TrimmedOnce(a: Charset, t: string)
    requires t != "" && t[0] !in a.spaces
    ensures Rstrip(a, t) != "" && Rstrip(a, t)[0] == t[0] && Rstrip(a, Rstrip(a, t)) == Rstrip(a, t)
    decreases |t|
  {
    if t[|t| - 1] in a.spaces {
      TrimmedOnce(a, t[..|t| - 1]);
    }
  }

  // ---- The round trip ----

  predicate GoodSection(a: Charset, s: Section) {
    GoodHeading(a, s.heading) && Clean(a, s.content)
  }

  predicate CleanLines(a: Charset, lines: seq<string>) {
    forall i :: 0 <= i < |lines| ==> CleanLine(a, lines[i])
  }

  lemma BlankIsClean(a: Charset)
    ensures CleanLine(a, "") && SplitLines("") == [""]
  {
  }

  lemma {:induction false} JoinIsClean(a: Charset, lines: seq<string>)
    requires CleanLines(a, lines)
    ensures Clean(a, Join(lines))
  {
    hide SplitLines, Heading;
    BlankIsClean(a);
    if lines != [] {
      assert forall i :: 0 <= i < |lines| ==> CleanLine(a, lines[i]);
      hide Join;
      SplitOfJoin(lines);
    }
  }

  predicate GoodLineSection(a: Charset, s: LineSection) {
    GoodHeading(a, s.heading) && CleanLines(a, s.body)
  }

  predicate GoodParsed(a: Charset, p: Parsed) {
    CleanLines(a, p.preamble) && forall i :: 0 <= i < |p.sections| ==> GoodLineSection(a, p.sections[i])
  }

  lemma {:induction false} ParseCons(a: Charset, line: string, tail: seq<string>)
    ensures
      var rest := ParseLines(a, tail);
      ParseLines(a, [line] + tail) ==
        if Heading(a, line).None? then Parsed([line] + rest.preamble, rest.sections)
        else Parsed([], [LineSection(Heading(a, line).value, rest.preamble)] + rest.sections)
  {
    assert ([line] + tail)[1..] == tail;
  }

  lemma GoodWithLine(a: Charset, line: string, rest: Parsed)
    requires CleanLine(a, line) && GoodParsed(a, rest)
    ensures GoodParsed(a, Parsed([line] + rest.preamble, rest.sections))
  {
    hide CleanLine, GoodLineSection;
  }

  lemma GoodWithSection(a: Charset, h: string, rest: Parsed)
    requires GoodHeading(a, h) && GoodParsed(a, rest)
    ensures GoodParsed(a, Parsed([], [LineSection(h, rest.preamble)] + rest.sections))
  {
    hide GoodHeading, CleanLine;
    assert GoodLineSection(a, LineSection(h, rest.preamble));
    hide GoodLineSection;
  }

  lemma NothingIsGood(a: Charset)
    ensures GoodParsed(a, Parsed([], []))
  {
  }

  lemma {:induction false} ParsedIsGood(a: Charset, lines: seq<string>)
    requires AllOneLine(a, lines)
    ensures GoodParsed(a, ParseLines(a, lines))
  {
    hide Heading, GoodHeading, ParseLines, OneLine, GoodParsed, Closed;
    if lines == [] {
      NothingLeft(a, lines);
      NothingIsGood(a);
    } else {
      ParsedIsGood(a, lines[1..]);
      assert OneLine(a, lines[0]) && lines == [lines[0]] + lines[1..];
      ParseCons(a, lines[0], lines[1..]);
      if Heading(a, lines[0]).Some? {
        HeadingIsGood(a, lines[0]);
        GoodWithSection(a, Heading(a, lines[0]).value, ParseLines(a, lines[1..]));
      } else {
        GoodWithLine(a, lines[0], ParseLines(a, lines[1..]));
      }
    }
  }

  /** Lines that are not headings go in front of whatever is parsed after them. */
  lemma {:induction false} ParseAfterClean(a: Charset, lines: seq<string>, tail: seq<string>)
    requires CleanLines(a, lines)
    ensures
      var rest := ParseLines(a, tail);
      ParseLines(a, lines + tail) == Parsed(lines + rest.preamble, rest.sections)
  {
    hide Heading, ParseLines;
    var rest := ParseLines(a, tail);
    if lines == [] {
      assert lines + tail == tail && lines + rest.preamble == rest.preamble;
    } else {
      assert CleanLine(a, lines[0]);
      ParseAfterClean(a, lines[1..], tail);
      ParseCons(a, lines[0], lines[1..] + tail);
      assert lines + tail == [lines[0]] + (lines[1..] + tail);
      assert [lines[0]] + (lines[1..] + rest.preamble) == lines + rest.preamble;
    }
  }

  /** The lines of a printed text. */
  function Flatten(parts: seq<string>): seq<string> {
    if parts == [] then [] else SplitLines(parts[0]) + Flatten(parts[1..])
  }

  lemma {:induction false} FlattenAppend(p: seq<string>, q: seq<string>)
    ensures Flatten(p + q) == Flatten(p) + Flatten(q)
  {
    if p == [] {
      assert p + q == q;
    } else {
      assert (p + q)[1..] == p[1..] + q;
      FlattenAppend(p[1..], q);
    }
  }

  predicate PartsOk(a: Charset, parts: seq<string>) {
    forall i :: 0 <= i < |parts| ==> AllOneLine(a, SplitLines(parts[i]))
  }

  lemma {:induction false} LinesOfPrinted(a: Charset, parts: seq<string>)
    requires PartsOk(a, parts)
    ensures Lines(a, Printed(parts), false) == Flatten(parts)
  {
    if parts != [] {
      hide Lines, SplitLines, AllOneLine;
      LinesOfPrinted(a, parts[1..]);
      JoinOfSplit(parts[0]);
      LinesOfJoin(a, SplitLines(parts[0]), Printed(parts[1..]));
      PrintedStep(parts);
    }
  }

  lemma PrintedStep(parts: seq<string>)
    requires parts != []
    ensures Printed(parts) == parts[0] + "\n" + Printed(parts[1..])
  {
  }

  /** Bodies that differ in trailing whitespace only. */
  predicate SameBody(a: Charset, body: seq<string>, content: string) {
    Rstrip(a, Join(body)) == Rstrip(a, content)
  }

  /** The lines printed for a content. */
  function BodyLines(a: Charset, content: string): seq<string> {
    if content != "" then SplitLines(Rstrip(a, content)) else []
  }

  lemma {:induction false} JoinSnocBlank(lines: seq<string>)
    requires lines != []
    ensures Join(lines + [""]) == Join(lines) + "\n"
  {
    if |lines| == 1 {
      assert (lines + [""])[1..] == [""];
    } else {
      assert (lines + [""])[1..] == lines[1..] + [""];
      JoinSnocBlank(lines[1..]);
    }
  }

  lemma {:induction false} RstripTwice(a: Charset, u: string)
    ensures Rstrip(a, Rstrip(a, u)) == Rstrip(a, u)
  {
  }

  lemma PrintedBody(a: Charset, content: string, blank: bool)
    ensures SameBody(a, BodyLines(a, content) + (if blank then [""] else []), content)
  {
    var lines := BodyLines(a, content);
    assert lines + [] == lines;
    if lines == [] {
      assert [] + [""] == [""];
    } else {
      var v := Rstrip(a, content);
      JoinOfSplit(v);
      RstripTwice(a, content);
      JoinSnocBlank(lines);
      assert (v + "\n")[..|v|] == v;
    }
  }

  predicate Matches(a: Charset, parsed: seq<LineSection>, sections: seq<Section>) {
    && |parsed| == |sections|
    && (forall i :: 0 <= i < |sections| ==>
          parsed[i].heading == sections[i].heading && SameBody(a, parsed[i].body, sections[i].content))
  }

  lemma {:induction false} ParseOfSectionParts(a: Charset, sections: seq<Section>, started: bool)
    requires forall i :: 0 <= i < |sections| ==> GoodSection(a, sections[i])
    ensures
      var r := ParseLines(a, Flatten(SectionParts(a, sections, started)));
      && r.preamble == (if started && sections != [] then [""] else [])
      && Matches(a, r.sections, sections)
    ensures PartsOk(a, SectionParts(a, sections, started))
  {
    if sections != [] {
      var s, rest := sections[0], SectionParts(a, sections[1..], true);
      assert GoodSection(a, s);
      ParseOfSectionParts(a, sections[1..], true);
      hide ParseLines, Flatten, OneSection, GoodSection, SameBody, BodyLines, Matches, PartsOk;
      OneSectionParses(a, s, started, Flatten(rest));
      FlattenAppend(OneSection(a, s, started), rest);
      PrintedBody(a, s.content, sections[1..] != []);
      var tail := ParseLines(a, Flatten(rest));
      MatchesCons(a, LineSection(s.heading, BodyLines(a, s.content) + tail.preamble), tail.sections, sections);
      PartsOkAppend(a, OneSection(a, s, started), rest);
    }
  }

  lemma MatchesCons(a: Charset, first: LineSection, rest: seq<LineSection>, sections: seq<Section>)
    requires sections != [] && Matches(a, rest, sections[1..])
    requires first.heading == sections[0].heading && SameBody(a, first.body, sections[0].content)
    ensures Matches(a, [first] + rest, sections)
  {
    hide SameBody;
  }

  lemma PartsOkAppend(a: Charset, p: seq<string>, q: seq<string>)
    requires PartsOk(a, p) && PartsOk(a, q)
    ensures PartsOk(a, p + q)
  {
    hide AllOneLine;
  }

  lemma {:induction false} OneSectionParses(a: Charset, s: Section, started: bool, tail: seq<string>)
    requires GoodSection(a, s)
    ensures
      var rest := ParseLines(a, tail);
      ParseLines(a, Flatten(OneSection(a, s, started)) + tail) ==
        Parsed(if started then [""] else [],
               [LineSection(s.heading, BodyLines(a, s.content) + rest.preamble)] + rest.sections)
    ensures PartsOk(a, OneSection(a, s, started))
  {
    hide Flatten, OneSection, BodyLines, PartsOk;
    OneSectionLines(a, s, started);
    BlockParses(a, if started then [""] else [], s.heading, BodyLines(a, s.content), tail);
  }

  lemma {:induction false} BlockParses(a: Charset, blank: seq<string>, h: string, body: seq<string>, tail: seq<string>)
    requires CleanLines(a, blank) && GoodHeading(a, h) && CleanLines(a, body)
    ensures
      var rest := ParseLines(a, tail);
      ParseLines(a, blank + ["## " + h] + body + tail) ==
        Parsed(blank, [LineSection(h, body + rest.preamble)] + rest.sections)
  {
    hide ParseLines, Heading, OneLine, CleanLines;
    var rest, line := ParseLines(a, tail), "## " + h;
    ParseAfterClean(a, body, tail);
    ParseCons(a, line, body + tail);
    ParseAfterClean(a, blank, [line] + (body + tail));
    assert blank + [line] + body + tail == blank + ([line] + (body + tail));
    assert blank + [] == blank;
  }

  lemma {:induction false} FlattenThree(x: seq<string>, y: seq<string>, z: seq<string>)
    ensures Flatten(x + y + z) == Flatten(x) + Flatten(y) + Flatten(z)
  {
    FlattenAppend(x + y, z);
    FlattenAppend(x, y);
  }

  lemma OneSectionLines(a: Charset, s: Section, started: bool)
    requires GoodSection(a, s)
    ensures
      var blank := if started then [""] else [];
      Flatten(OneSection(a, s, started)) == blank + ["## " + s.heading] + BodyLines(a, s.content)
    ensures CleanLines(a, BodyLines(a, s.content)) && CleanLines(a, if started then [""] else [])
    ensures PartsOk(a, OneSection(a, s, started))
  {
    hide Flatten, OneLine, CleanLines, PartsOk, Heading;
    var separator, head := if started then [""] else [], ["## " + s.heading];
    var body := if s.content != "" then [Rstrip(a, s.content)] else [];
    SeparatorLines(a, started);
    HeadLine(a, s.heading);
    ContentLines(a, s.content);
    hide BodyLines, Rstrip;
    FlattenThree(separator, head, body);
    PartsOkAppend(a, separator, head);
    PartsOkAppend(a, separator + head, body);
  }

  lemma SeparatorLines(a: Charset, started: bool)
    ensures
      var separator := if started then [""] else [];
      Flatten(separator) == separator && PartsOk(a, separator) && CleanLines(a, separator)
  {
    BlankIsClean(a);
    hide Heading;
    FlattenOne("");
  }

  lemma {:induction false} ContentLines(a: Charset, content: string)
    requires Clean(a, content)
    ensures
      var body := if content != "" then [Rstrip(a, content)] else [];
      Flatten(body) == BodyLines(a, content) && PartsOk(a, body) && CleanLines(a, BodyLines(a, content))
  {
    RstripKeepsClean(a, content);
    CleanPartOk(a, Rstrip(a, content));
    FlattenOne(Rstrip(a, content));
    hide Rstrip, SplitLines, OneLine, Heading;
  }

  lemma {:induction false} CleanPartOk(a: Charset, u: string)
    ensures Clean(a, u) ==> AllOneLine(a, SplitLines(u)) && CleanLines(a, SplitLines(u))
  {
    hide OneLine, Heading, SplitLines;
    if Clean(a, u) {
      assert forall i :: 0 <= i < |SplitLines(u)| ==> CleanLine(a, SplitLines(u)[i]);
    }
  }

  lemma {:induction false} FlattenOne(part: string)
    ensures Flatten([part]) == SplitLines(part)
  {
    assert [part][1..] == [] && SplitLines(part) + [] == SplitLines(part);
  }

  lemma HeadLine(a: Charset, h: string)
    requires OneLine(a, h)
    ensures Flatten(["## " + h]) == ["## " + h] && PartsOk(a, ["## " + h])
  {
    var line := "## " + h;
    assert forall i :: 0 <= i < |line| ==> line[i] == (if i < 2 then '#' else if i == 2 then ' ' else h[i - 3]);
    SplitLine(line, "");
    FlattenOne(line);
  }

  lemma {:induction false} PrintedParses(a: Charset, preamble: string, sections: seq<Section>)
    requires Clean(a, preamble) && forall i :: 0 <= i < |sections| ==> GoodSection(a, sections[i])
    ensures
      var parsed := ParseLines(a, Lines(a, Printed(Parts(a, preamble, sections)), false));
      Matches(a, parsed.sections, sections) && SameBody(a, parsed.preamble, preamble)
  {
    var front := if preamble != "" then [Rstrip(a, preamble)] else [];
    var rest := SectionParts(a, sections, preamble != "");
    ParseOfSectionParts(a, sections, preamble != "");
    ContentLines(a, preamble);
    FlattenAppend(front, rest);
    PartsOkAppend(a, front, rest);
    PrintedBody(a, preamble, preamble != "" && sections != []);
    hide Rstrip, Heading, ParseLines, Flatten, SectionParts, Lines, Printed, PartsOk, CleanLines, SameBody, BodyLines;
    LinesOfPrinted(a, front + rest);
    ParseAfterClean(a, BodyLines(a, preamble), Flatten(rest));
  }

  /** What the fixer writes for a text. */
  function Fixed(a: Charset, content: string): string {
    var parsed := ParseLines(a, Lines(a, content, false));
    Printed(Parts(a, Join(parsed.preamble), KeepLast(Closed(parsed.sections))))
  }

  method FixManifest(a: Charset, content: string) returns (text: string)
    ensures text == Fixed(a, content)
  {
    var preamble, sections := ParseManifest(a, content);
    var kept := DeduplicateSections(sections);
    text := ReconstructManifest(a, preamble, kept);
  }

  lemma {:induction false} ClosedIsGood(a: Charset, sections: seq<LineSection>)
    requires forall i :: 0 <= i < |sections| ==> GoodLineSection(a, sections[i])
    ensures forall s :: s in Closed(sections) ==> GoodSection(a, s)
  {
    forall i | 0 <= i < |sections|
      ensures GoodSection(a, Closed(sections)[i])
    {
      JoinIsClean(a, sections[i].body);
    }
  }

  /** Fixing is a round trip: the text that is written parses to the headings of the deduplicated
    * sections, in their order, with bodies and preamble equal up to trailing whitespace. */
  lemma {:induction false} FixedParsesBack(a: Charset, content: string)
    ensures
      var before := ParseLines(a, Lines(a, content, false));
      var after := ParseLines(a, Lines(a, Fixed(a, content), false));
      && Matches(a, after.sections, KeepLast(Closed(before.sections)))
      && SameBody(a, after.preamble, Join(before.preamble))
  {
    var lines := Lines(a, content, false);
    var before := ParseLines(a, lines);
    LinesAreOneLine(a, content);
    ParsedIsGood(a, lines);
    ClosedIsGood(a, before.sections);
    JoinIsClean(a, before.preamble);
    PrintedParses(a, Join(before.preamble), KeepLast(Closed(before.sections)));
  }

  // ---- The checker finds no duplicate in what the fixer writes ----

  predicate AllSpaces(a: Charset, w: string) {
    forall i :: 0 <= i < |w| ==> w[i] in a.spaces
  }

  lemma {:induction false} RstripTail(a: Charset, u: string, w: string)
    requires AllSpaces(a, w)
    ensures Rstrip(a, u + w) == Rstrip(a, u)
    decreases |w|
  {
    if w == "" {
      assert u + w == u;
    } else {
      var front := w[..|w| - 1];
      assert (u + w)[..|u + w| - 1] == u + front;
      RstripTail(a, u, front);
    }
  }

  lemma {:induction false} LstripTail(a: Charset, u: string, w: string)
    requires AllSpaces(a, w)
    ensures Lstrip(a, u + w) == if Lstrip(a, u) == "" then "" else Lstrip(a, u) + w
    decreases |w|
  {
    hide Lstrip;
    if w == "" {
      assert u + w == u && Lstrip(a, u) + w == Lstrip(a, u);
    } else {
      var k := |w| - 1;
      LstripTail(a, u, w[..k]);
      LstripSnoc(a, u + w[..k], w[k]);
      assert u + w[..k] + [w[k]] == u + w && w[..k] + [w[k]] == w;
      assert Lstrip(a, u) + w[..k] + [w[k]] == Lstrip(a, u) + w;
    }
  }

  lemma StripTail(a: Charset, u: string, w: string)
    requires AllSpaces(a, w)
    ensures Strip(a, u + w) == Strip(a, u)
  {
    LstripTail(a, u, w);
    RstripTail(a, Lstrip(a, u), w);
  }

  /** The text that stripping on the right removes is whitespace. */
  lemma {:induction false} RstripRest(a: Charset, u: string)
    ensures AllSpaces(a, u[|Rstrip(a, u)|..])
    decreases |u|
  {
    if u != [] && u[|u| - 1] in a.spaces {
      var v := u[..|u| - 1];
      RstripRest(a, v);
      var n := |Rstrip(a, v)|;
      assert forall i :: 0 <= i < |u| - n ==> u[n..][i] == if i < |v| - n then v[n..][i] else u[|u| - 1];
    }
  }

  /** What the checker takes for a heading is a heading of the fixer, with the same text. The
    * converse fails: the fixer also accepts a tab, or nothing but whitespace, after the signs. */
  lemma CheckerAgrees(a: Charset, line: string)
    requires CheckerHeading(a, line).Some?
    ensures Heading(a, line) == CheckerHeading(a, line)
  {
    hide Lstrip, Rstrip;
    var body := Lstrip(a, line);
    var s := Rstrip(a, body);
    RstripRest(a, body);
    var w := body[|s|..];
    assert body == s + w;
    assert |s| > 3;
    HashesStay(s, w);
    CapturedTrimmed(a, s[3..], w);
  }

  lemma HashesStay(s: string, w: string)
    requires "## " <= s
    ensures "##" <= s + w && !("###" <= s + w) && (s + w)[2..] == " " + (s[3..] + w)
  {
    assert s[..3] == "## " && s[0] == '#' && s[1] == '#' && s[2] == ' ';
    assert (s + w)[2] == ' ' && (s + w)[..2] == "##";
  }

  lemma CapturedTrimmed(a: Charset, x: string, w: string)
    requires x != "" && x[|x| - 1] !in a.spaces && AllSpaces(a, w)
    ensures Captured(a, " " + (x + w)) == Some(Strip(a, x))
  {
    hide Rstrip;
    var rest := " " + (x + w);
    assert rest[1..] == x + w;
    assert Lstrip(a, rest) == Lstrip(a, x + w);
    hide Lstrip;
    LstripTail(a, x, w);
    SolidStays(a, x);
    RstripTail(a, Lstrip(a, x), w);
  }

  lemma {:induction false} SolidStays(a: Charset, x: string)
    requires x != "" && x[|x| - 1] !in a.spaces
    ensures Lstrip(a, x) != ""
  {
    hide Lstrip;
  }

  /** Line ends make no difference to the checker. */
  lemma {:induction false} EndsDoNotMatter(a: Charset, u: string, h: string, first: nat)
    ensures Occurrences(a, Lines(a, u, true), h, first) == Occurrences(a, Lines(a, u, false), h, first)
    decreases |u|
  {
    if u != "" && BreakAt(a, u) < |u| {
      hide CheckerHeading, BreakAt, Lines;
      var k := BreakAt(a, u);
      var n := k + BreakLength(u[k..]);
      EndsDoNotMatter(a, u[n..], h, first + 1);
      SameHeadingWithEnd(a, u, k, n);
      LinesUnfold(a, u, true);
      LinesUnfold(a, u, false);
      OccurrencesCons(a, u[..n], Lines(a, u[n..], true), h, first);
      OccurrencesCons(a, u[..k], Lines(a, u[n..], false), h, first);
    }
  }

  lemma {:induction false} LinesUnfold(a: Charset, u: string, keepEnds: bool)
    requires u != "" && BreakAt(a, u) < |u|
    ensures
      var k := BreakAt(a, u);
      var n := k + BreakLength(u[k..]);
      Lines(a, u, keepEnds) == [if keepEnds then u[..n] else u[..k]] + Lines(a, u[n..], keepEnds)
  {
  }

  lemma SameHeadingWithEnd(a: Charset, u: string, k: nat, n: nat)
    requires k < |u| && u[k] in a.breaks && n == k + BreakLength(u[k..])
    ensures CheckerHeading(a, u[..n]) == CheckerHeading(a, u[..k])
  {
    hide Strip;
    assert u[..n] == u[..k] + u[k..n] && AllSpaces(a, u[k..n]);
    StripTail(a, u[..k], u[k..n]);
  }

  lemma {:induction false} OccurrencesCons(a: Charset, line: string, lines: seq<string>, h: string, first: nat)
    ensures Occurrences(a, [line] + lines, h, first) ==
            (if CheckerHeading(a, line) == Some(h) then [first] else []) + Occurrences(a, lines, h, first + 1)
  {
    assert ([line] + lines)[1..] == lines;
  }

  function Count(sections: seq<LineSection>, h: string): nat {
    if sections == [] then 0 else (if sections[0].heading == h then 1 else 0) + Count(sections[1..], h)
  }

  lemma {:induction false} OccurrencesAreSections(a: Charset, lines: seq<string>, h: string, first: nat)
    ensures |Occurrences(a, lines, h, first)| <= Count(ParseLines(a, lines).sections, h)
  {
    if lines != [] {
      hide CheckerHeading, Heading, ParseLines;
      var tail := ParseLines(a, lines[1..]);
      assert lines == [lines[0]] + lines[1..];
      ParseCons(a, lines[0], lines[1..]);
      OccurrencesAreSections(a, lines[1..], h, first + 1);
      if CheckerHeading(a, lines[0]).Some? {
        CheckerAgrees(a, lines[0]);
      }
      if Heading(a, lines[0]).Some? {
        var sections := [LineSection(Heading(a, lines[0]).value, tail.preamble)] + tail.sections;
        assert sections[1..] == tail.sections;
      }
    }
  }

  lemma {:induction false} DistinctCountOnce(sections: seq<LineSection>, h: string)
    requires forall i, j :: 0 <= i < j < |sections| ==> sections[i].heading != sections[j].heading
    ensures Count(sections, h) <= 1
    ensures (forall i :: 0 <= i < |sections| ==> sections[i].heading != h) ==> Count(sections, h) == 0
  {
    if sections != [] {
      assert forall i :: 0 <= i < |sections[1..]| ==> sections[1..][i] == sections[i + 1];
      DistinctCountOnce(sections[1..], h);
    }
  }

  /** What the checker accepts: no heading on two lines. */
  ghost predicate NoDuplicates(a: Charset, text: string) {
    forall h :: |Occurrences(a, Lines(a, text, true), h, 1)| <= 1
  }

  lemma CheckerAcceptsFixed(a: Charset, content: string)
    ensures NoDuplicates(a, Fixed(a, content))
  {
    var before := ParseLines(a, Lines(a, content, false));
    var text := Fixed(a, content);
    var after := ParseLines(a, Lines(a, text, false));
    var kept := KeepLast(Closed(before.sections));
    FixedParsesBack(a, content);
    hide ParseLines, Lines, Fixed, KeepLast, Closed, SameBody;
    forall i, j | 0 <= i < j < |after.sections|
      ensures after.sections[i].heading != after.sections[j].heading
    {
      KeptHeadingsDiffer(Closed(before.sections), i, j);
      assert after.sections[i].heading == kept[i].heading && after.sections[j].heading == kept[j].heading;
    }
    forall h
      ensures |Occurrences(a, Lines(a, text, true), h, 1)| <= 1
    {
      EndsDoNotMatter(a, text, h, 1);
      OccurrencesAreSections(a, Lines(a, text, false), h, 1);
      DistinctCountOnce(after.sections, h);
    }
  }
}
