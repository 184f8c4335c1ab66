/** The normaliser's scanners against the grammar of quoted tokens.
  *
  * A scanner finds a token exactly where the grammar has one, and with the same length. So the
  * normal form of a text is what the grammar says: every quoted token and every other sign
  * verbatim, and one space for the blanks between two of them.
  */
module NormalizerGrammar {
  import opened SqlGrammar
  import opened SqlNormalizer
  import opened TextSearch
  import opened Wrappers

  lemma PrefixSplits(p: string, q: string, u: string)
    ensures p + q <= u <==> p <= u && q <= u[|p|..]
  {
    if p <= u && q <= u[|p|..] {
      assert u == p + u[|p|..] && u[|p|..] == q + u[|p|..][|q|..];
    }
    if p + q <= u {
      assert u[..|p|] == (p + q)[..|p|] == p;
      assert u[|p|..][..|q|] == u[|p|..|p| + |q|] == (p + q)[|p|..] == q;
    }
  }

  // ---- Strings and names ----

  lemma {:induction false} StringUnfolds(u: string, d: char, escapes: bool)
    ensures
      StringLength(u, d, escapes) ==
        if u == [] then None
        else if escapes && u[0] == '\\' then if |u| < 2 then None else Plus(2, StringLength(u[2..], d, escapes))
        else if u[0] == d then
          if |u| > 1 && u[1] == d then Plus(2, StringLength(u[2..], d, escapes)) else Some(1)
        else Plus(1, StringLength(u[1..], d, escapes))
  {
  }

  /** The scanner reads a faithful inside to its closing quote. */
  lemma {:induction false} InsideIsRead(i: Inside, d: char, escapes: bool, x: string)
    requires d != '\\' && FaithfulInside(i, d, escapes) && !Doubles(d, x)
    ensures StringLength(RenderInside(i, d) + x, d, escapes) == Some(|RenderInside(i, d)|)
  {
    hide StringLength;
    var u := RenderInside(i, d) + x;
    StringUnfolds(u, d, escapes);
    match i
    case Closed =>
      assert u[0] == d && (|u| > 1 ==> u[1] == x[0]);
    case Char(c, rest) =>
      InsideIsRead(rest, d, escapes, x);
      assert u[1..] == RenderInside(rest, d) + x;
    case Twice(rest) =>
      InsideIsRead(rest, d, escapes, x);
      assert u[2..] == RenderInside(rest, d) + x;
    case Escape(c, rest) =>
      InsideIsRead(rest, d, escapes, x);
      assert u[2..] == RenderInside(rest, d) + x;
  }

  /** What the scanner accepted is a faithful inside that the next character does not continue. */
  lemma {:induction false} ReadInside(u: string, d: char, escapes: bool) returns (i: Inside)
    requires d != '\\' && StringLength(u, d, escapes).Some?
    ensures
      var n := StringLength(u, d, escapes).value;
      FaithfulInside(i, d, escapes) && RenderInside(i, d) == u[..n] && !Doubles(d, u[n..])
    decreases |u|
  {
    hide StringLength;
    StringUnfolds(u, d, escapes);
    var n := StringLength(u, d, escapes).value;
    if escapes && u[0] == '\\' {
      var rest := ReadInside(u[2..], d, escapes);
      assert u[..n] == ['\\', u[1]] + u[2..][..n - 2] && u[n..] == u[2..][n - 2..];
      i := Escape(u[1], rest);
    } else if u[0] == d && |u| > 1 && u[1] == d {
      var rest := ReadInside(u[2..], d, escapes);
      assert u[..n] == [d, d] + u[2..][..n - 2] && u[n..] == u[2..][n - 2..];
      i := Twice(rest);
    } else if u[0] == d {
      i := Closed;
    } else {
      var rest := ReadInside(u[1..], d, escapes);
      assert u[..n] == [u[0]] + u[1..][..n - 1] && u[n..] == u[1..][n - 1..];
      i := Char(u[0], rest);
    }
  }

  /** A string ends exactly where a faithful inside ends that the next character does not continue. */
  lemma {:induction false} InsideExactly(u: string, d: char, escapes: bool, n: nat)
    requires d != '\\' && n <= |u|
    ensures
      StringLength(u, d, escapes) == Some(n) <==>
      exists i :: FaithfulInside(i, d, escapes) && RenderInside(i, d) == u[..n] && !Doubles(d, u[n..])
  {
    hide StringLength, FaithfulInside, RenderInside;
    if StringLength(u, d, escapes) == Some(n) {
      var i := ReadInside(u, d, escapes);
    }
    forall i | FaithfulInside(i, d, escapes) && RenderInside(i, d) == u[..n] && !Doubles(d, u[n..])
      ensures StringLength(u, d, escapes) == Some(n)
    {
      InsideIsRead(i, d, escapes, u[n..]);
      assert u[..n] + u[n..] == u;
    }
  }

  // ---- Searching ----

  /** The search stops at the first occurrence, and finds one whenever there is one. */
  lemma {:induction false} FindIsFirst(u: string, d: string, k: nat)
    ensures Find(u, d) == Some(k) <==> FirstAt(d, u, k)
  {
    hide StandsAt;
    StandsAtStart(u, d);
    if !(d <= u) && u != [] && k > 0 {
      FindIsFirst(u[1..], d, k - 1);
      ShiftedFirst(u, d, k);
    }
  }

  lemma StandsAtStart(u: string, d: string)
    ensures d <= u <==> StandsAt(d, u, 0)
    ensures u == [] && !(d <= u) ==> forall k: nat :: !StandsAt(d, u, k)
  {
    assert |d| <= |u| ==> u[0..|d|] == u[..|d|];
  }

  lemma ShiftedFirst(u: string, d: string, k: nat)
    requires u != [] && k > 0 && !StandsAt(d, u, 0)
    ensures FirstAt(d, u, k) <==> FirstAt(d, u[1..], k - 1)
  {
    StandsShifted(u, d);
    hide StandsAt;
    if FirstAt(d, u, k) {
      forall j: nat | j < k - 1
        ensures !StandsAt(d, u[1..], j)
      {
        assert StandsAt(d, u, j + 1) <==> StandsAt(d, u[1..], j);
      }
    }
    if FirstAt(d, u[1..], k - 1) {
      forall j: nat | j < k
        ensures !StandsAt(d, u, j)
      {
        assert j > 0 ==> (StandsAt(d, u, j) <==> StandsAt(d, u[1..], j - 1));
      }
    }
  }

  lemma StandsShifted(u: string, d: string)
    requires u != []
    ensures forall j: nat :: j > 0 ==> (StandsAt(d, u, j) <==> StandsAt(d, u[1..], j - 1))
    ensures forall j: nat :: StandsAt(d, u, j + 1) <==> StandsAt(d, u[1..], j)
  {
    forall j: nat | j > 0
      ensures StandsAt(d, u, j) <==> StandsAt(d, u[1..], j - 1)
    {
      if j + |d| <= |u| {
        assert u[1..][j - 1..j - 1 + |d|] == u[j..j + |d|];
      }
    }
    forall j: nat
      ensures StandsAt(d, u, j + 1) <==> StandsAt(d, u[1..], j)
    {
      var k := j + 1;
      assert k > 0 && (StandsAt(d, u, k) <==> StandsAt(d, u[1..], k - 1));
    }
  }

  // ---- Dollar bodies ----

  lemma {:induction false} RunReads(a: Alphabet, t: string, x: string)
    requires (forall i :: 0 <= i < |t| ==> IsTagChar(a, t[i])) && x != "" && !IsTagChar(a, x[0])
    ensures RunLength(a, t + x) == |t|
  {
    if t == "" {
      assert t + x == x;
    } else {
      RunReads(a, t[1..], x);
      assert (t + x)[1..] == t[1..] + x;
    }
  }

  lemma TagIsRead(a: Alphabet, tag: string, x: string)
    requires IsTag(a, tag)
    ensures TagLength(a, Delimiter(tag) + x) == Some(|tag| + 2)
  {
    hide RunLength;
    var u := Delimiter(tag) + x;
    if tag != "" {
      assert u[2..] == tag[1..] + ("$" + x);
      RunReads(a, tag[1..], "$" + x);
      assert u[|tag| + 1] == '$';
    }
  }

  /** The opening delimiter is found exactly where one stands. */
  lemma TagExactly(a: Alphabet, u: string, tag: string)
    requires u != "" && u[0] == '$'
    ensures
      TagLength(a, u) == Some(|tag| + 2) && u[..|tag| + 2] == Delimiter(tag) <==>
      IsTag(a, tag) && Delimiter(tag) <= u
  {
    hide RunLength;
    if IsTag(a, tag) && Delimiter(tag) <= u {
      TagIsRead(a, tag, u[|tag| + 2..]);
      assert u == Delimiter(tag) + u[|tag| + 2..];
    }
    if TagLength(a, u) == Some(|tag| + 2) && u[..|tag| + 2] == Delimiter(tag) {
      TagIsTag(a, u, tag);
    }
  }

  lemma TagIsTag(a: Alphabet, u: string, tag: string)
    requires u != "" && u[0] == '$'
    requires TagLength(a, u) == Some(|tag| + 2) && u[..|tag| + 2] == Delimiter(tag)
    ensures IsTag(a, tag) && Delimiter(tag) <= u
  {
    hide RunLength;
    forall i | 0 <= i < |tag|
      ensures tag[i] == u[i + 1] && IsTagChar(a, tag[i])
    {
      assert Delimiter(tag)[i + 1] == u[..|tag| + 2][i + 1];
    }
  }

  /** Behind a body that holds no earlier delimiter, the search finds the closing one. */
  lemma FirstInPrefix(d: string, body: string, v: string)
    requires body + d <= v
    ensures FirstAt(d, body + d, |body|) <==> FirstAt(d, v, |body|)
  {
    var w := body + d;
    forall j: nat | j <= |body|
      ensures StandsAt(d, w, j) <==> StandsAt(d, v, j)
    {
      assert w == v[..|w|];
      assert w[j..j + |d|] == v[j..j + |d|];
    }
  }

  lemma DollarParts(tag: string, body: string, u: string)
    ensures
      Delimiter(tag) + body + Delimiter(tag) <= u <==>
      Delimiter(tag) <= u && body + Delimiter(tag) <= u[|tag| + 2..]
  {
    var d := Delimiter(tag);
    assert d + body + d == d + (body + d);
    PrefixSplits(d, body + d, u);
  }

  lemma ReadDollar(a: Alphabet, u: string) returns (tag: string, body: string)
    requires u != "" && u[0] == '$' && DollarLength(a, u).Some?
    ensures Starts(a, DollarBody(tag, body), u) && |RenderQuoted(DollarBody(tag, body))| == DollarLength(a, u).value
  {
    hide TagLength, Find, StandsAt, IsTag;
    var t := TagLength(a, u).value;
    var d := u[..t];
    var k := Find(u[t..], d).value;
    tag, body := u[1..t - 1], u[t..][..k];
    assert d == Delimiter(tag);
    TagExactly(a, u, tag);
    FindIsFirst(u[t..], d, k);
    assert body + d == u[t..][..k + t];
    FirstInPrefix(d, body, u[t..]);
    hide FirstAt;
    DollarParts(tag, body, u);
  }

  lemma DollarIsRead(a: Alphabet, tag: string, body: string, u: string)
    requires u != "" && u[0] == '$' && Starts(a, DollarBody(tag, body), u)
    ensures DollarLength(a, u) == Some(|RenderQuoted(DollarBody(tag, body))|)
  {
    hide TagLength, Find, StandsAt, IsTag;
    var t, d := |tag| + 2, Delimiter(tag);
    DollarParts(tag, body, u);
    TagExactly(a, u, tag);
    FirstInPrefix(d, body, u[t..]);
    hide FirstAt;
    assert u[..t] == d;
    FindIsFirst(u[t..], d, |body|);
  }

  // ---- Quoted tokens ----

  /** The first character tells the form of a quoted token. */
  lemma FormIsFixed(a: Alphabet, q: Quoted, u: string)
    requires Starts(a, q, u)
    ensures u != ""
    ensures q.Constant? <==> u[0] == '\''
    ensures q.Name? <==> u[0] == '\"'
    ensures q.Escaping? <==> "E'" <= u
    ensures q.DollarBody? <==> u[0] == '$'
  {
    hide RenderInside, FaithfulInside, FirstAt;
    var r := RenderQuoted(q);
    assert r[0] == u[0] && r[1] == u[1];
    match q
    case Escaping(inside) => assert r[..2] == "E'";
    case DollarBody(tag, body) => assert Delimiter(tag)[0] == '$';
    case _ =>
  }

  lemma {:induction false} OpenedInside(open: string, d: char, escapes: bool, u: string, n: nat)
    requires d != '\\' && open <= u && |open| <= n <= |u|
    ensures
      Plus(|open|, StringLength(u[|open|..], d, escapes)) == Some(n) <==>
      exists i :: FaithfulInside(i, d, escapes) && open + RenderInside(i, d) == u[..n] && !Doubles(d, u[n..])
  {
    hide StringLength, FaithfulInside, RenderInside, Doubles;
    var m := |open|;
    InsideExactly(u[m..], d, escapes, n - m);
    assert u[m..][n - m..] == u[n..] && u[..n] == open + u[m..][..n - m];
    forall i
      ensures open + RenderInside(i, d) == u[..n] <==> RenderInside(i, d) == u[m..][..n - m]
    {
      if open + RenderInside(i, d) == u[..n] {
        assert (open + RenderInside(i, d))[m..] == RenderInside(i, d) == u[..n][m..];
      }
    }
  }

  /** The scanner finds a quoted token exactly where the grammar has one, with the same length. */
  lemma QuotedExactly(a: Alphabet, u: string, n: nat)
    requires u != ""
    ensures QuotedLength(a, u) == Some(n) <==> exists q :: Starts(a, q, u) && |RenderQuoted(q)| == n
  {
    if QuotedLength(a, u) == Some(n) {
      var q := ReadQuoted(a, u);
    }
    forall q | Starts(a, q, u)
      ensures QuotedLength(a, u) == Some(|RenderQuoted(q)|)
    {
      QuotedIsRead(a, q, u);
    }
  }

  lemma ReadQuoted(a: Alphabet, u: string) returns (q: Quoted)
    requires u != "" && QuotedLength(a, u).Some?
    ensures Starts(a, q, u) && |RenderQuoted(q)| == QuotedLength(a, u).value
  {
    hide StringLength, FaithfulInside, RenderInside, DollarLength, FirstAt, IsTag;
    var n := QuotedLength(a, u).value;
    if "E'" <= u {
      OpenedInside("E'", '\'', true, u, n);
      var i :| FaithfulInside(i, '\'', true) && "E'" + RenderInside(i, '\'') == u[..n] && !Doubles('\'', u[n..]);
      q := Escaping(i);
    } else if u[0] == '\'' {
      OpenedInside("'", '\'', false, u, n);
      var i :| FaithfulInside(i, '\'', false) && "'" + RenderInside(i, '\'') == u[..n] && !Doubles('\'', u[n..]);
      q := Constant(i);
    } else if u[0] == '\"' {
      OpenedInside("\"", '\"', false, u, n);
      var i :| FaithfulInside(i, '\"', false) && "\"" + RenderInside(i, '\"') == u[..n] && !Doubles('\"', u[n..]);
      q := Name(i);
    } else {
      var tag, body := ReadDollar(a, u);
      q := DollarBody(tag, body);
    }
  }

  lemma QuotedIsRead(a: Alphabet, q: Quoted, u: string)
    requires u != "" && Starts(a, q, u)
    ensures QuotedLength(a, u) == Some(|RenderQuoted(q)|)
  {
    FormIsFixed(a, q, u);
    hide StringLength, FaithfulInside, RenderInside, DollarLength, FirstAt, IsTag;
    var n := |RenderQuoted(q)|;
    assert RenderQuoted(q) == u[..n];
    match q
    case Constant(i) =>
      OpenedInside("'", '\'', false, u, n);
      assert "'" + RenderInside(i, '\'') == u[..n] && !Doubles('\'', u[n..]);
    case Name(i) =>
      OpenedInside("\"", '\"', false, u, n);
      assert "\"" + RenderInside(i, '\"') == u[..n] && !Doubles('\"', u[n..]);
    case Escaping(i) =>
      OpenedInside("E'", '\'', true, u, n);
      assert "E'" + RenderInside(i, '\'') == u[..n] && !Doubles('\'', u[n..]);
    case DollarBody(tag, body) => DollarIsRead(a, tag, body, u);
  }

  // ---- Normal forms ----

  /** Every text is read by the grammar. */
  lemma {:induction false} EveryTextReads(a: Alphabet, u: string) returns (items: seq<Item>)
    ensures Reads(a, u, items)
    decreases |u|
  {
    hide Starts, RenderQuoted;
    items := [];
    if u != "" {
      var item: Item;
      if Unquoted(a, u) {
        item := if u[0] in a.spaces then Blank(u[0]) else Sign(u[0]);
      } else {
        var q :| Starts(a, q, u);
        StartsIsPrefix(a, q, u);
        item := Literal(q);
      }
      items := EveryTextReads(a, u[|RenderItem(item)|..]);
      var all := [item] + items;
      assert all[1..] == items;
      items := all;
    }
  }

  lemma StartsIsPrefix(a: Alphabet, q: Quoted, u: string)
    requires Starts(a, q, u)
    ensures RenderQuoted(q) <= u
  {
  }

  /** The lexer takes the item that the text starts with. */
  lemma {:induction false} LexTakesItem(a: Alphabet, u: string, item: Item, pending: bool)
    requires u != "" && Leads(a, item, u) && RenderItem(item) <= u
    ensures
      var rest := u[|RenderItem(item)|..];
      Lex(a, u, pending) ==
        if item.Blank? then Lex(a, rest, true) else [Token(pending, RenderItem(item))] + Lex(a, rest, false)
  {
    hide Starts, RenderQuoted, QuotedLength;
    match item
    case Literal(q) =>
      QuotedIsRead(a, q, u);
      assert RenderQuoted(q) == u[..|RenderQuoted(q)|];
    case _ =>
      if QuotedLength(a, u).Some? {
        var q := ReadQuoted(a, u);
      }
      assert u[..1] == RenderItem(item);
  }

  lemma {:induction false} PrintCollapses(a: Alphabet, u: string, items: seq<Item>, started: bool, pending: bool)
    requires Reads(a, u, items)
    ensures Print(Lex(a, u, pending), started) == Collapsed(items, started, pending)
    decreases items
  {
    hide Leads, RenderItem, Lex;
    if items == [] {
      EmptyLex(a, pending);
    } else {
      var rest := u[|RenderItem(items[0])|..];
      LexTakesItem(a, u, items[0], pending);
      if items[0].Blank? {
        PrintCollapses(a, rest, items[1..], started, true);
      } else {
        PrintCollapses(a, rest, items[1..], true, false);
        assert Lex(a, u, pending)[1..] == Lex(a, rest, false);
      }
    }
  }

  lemma {:induction false} EmptyLex(a: Alphabet, pending: bool)
    ensures Lex(a, "", pending) == []
  {
  }

  /** The normal form of a text is its reading with the blanks collapsed. */
  lemma {:induction false} NormalFormIsCollapsed(a: Alphabet, v: string, items: seq<Item>)
    requires Reads(a, v, items)
    ensures Normalize(a, v) == Collapsed(items, false, false)
  {
    PrintCollapses(a, v, items, false, false);
  }

  /** A text has one reading. */
  lemma {:induction false} ReadingIsUnique(a: Alphabet, v: string, items: seq<Item>, others: seq<Item>)
    requires Reads(a, v, items) && Reads(a, v, others)
    ensures |items| == |others| && forall k :: 0 <= k < |items| ==> RenderItem(items[k]) == RenderItem(others[k])
    decreases items
  {
    hide Leads, RenderItem;
    if v != "" {
      SameLength(a, v, items[0], others[0]);
      assert RenderItem(items[0]) == v[..|RenderItem(items[0])|] == RenderItem(others[0]);
      ReadingIsUnique(a, v[|RenderItem(items[0])|..], items[1..], others[1..]);
    }
  }

  lemma SameLength(a: Alphabet, v: string, item: Item, other: Item)
    requires v != "" && Leads(a, item, v) && Leads(a, other, v)
    ensures |RenderItem(item)| == |RenderItem(other)|
  {
    hide Starts, RenderQuoted, QuotedLength;
    if item.Literal? && other.Literal? {
      QuotedIsRead(a, item.quoted, v);
      QuotedIsRead(a, other.quoted, v);
    }
  }

  lemma {:induction false} CollapsedCopies(items: seq<Item>, started: bool, gap: bool, k: nat)
    returns (p: string, s: string)
    requires k < |items| && !items[k].Blank?
    ensures Collapsed(items, started, gap) == p + RenderItem(items[k]) + s
  {
    hide RenderItem;
    if k == 0 {
      p, s := if started && gap then " " else "", Collapsed(items[1..], true, false);
    } else if items[0].Blank? {
      p, s := CollapsedCopies(items[1..], started, true, k - 1);
    } else {
      var front := (if started && gap then " " else "") + RenderItem(items[0]);
      p, s := CollapsedCopies(items[1..], true, false, k - 1);
      assert front + (p + RenderItem(items[k]) + s) == front + p + RenderItem(items[k]) + s;
      p := front + p;
    }
  }

  /** Every quoted token of a text stands verbatim in its normal form. */
  lemma {:induction false} QuotedTokensAreCopied(a: Alphabet, v: string, items: seq<Item>, k: nat)
    requires Reads(a, v, items) && k < |items| && items[k].Literal?
    ensures exists p, s :: Normalize(a, v) == p + RenderQuoted(items[k].quoted) + s
  {
    NormalFormIsCollapsed(a, v, items);
    var p, s := CollapsedCopies(items, false, false, k);
  }
}
