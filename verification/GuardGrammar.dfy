/** What the migration guard's tokens are, described without its tokeniser.
  *
  * A migration text consists of fragments: comments, quoted values and names, dollar values,
  * keywords and single marks. The tokens are the capitals of the keywords, the semicolons and the
  * authority name; a text that does not consist of fragments is refused. Hence the case of letters
  * outside quotes never matters, and the verdict is a property of the fragments.
  */
module GuardGrammar {
  import opened SqlGrammar
  import Normalizer = SqlNormalizer
  import opened NormalizerGrammar
  import opened SqlGuard
  import opened TextSearch
  import opened Wrappers

  datatype Fragment =
    | LineComment(line: string, ended: bool)
    | BlockComment(body: Body)
    | QuotedValue(inside: Inside)
    | QuotedName(inside: Inside)
    | DollarValue(tag: string, text: string)
    | Keyword(word: string)
    | Mark(c: char)

  function Written(f: Fragment): (s: string)
    requires f.Keyword? ==> f.word != ""
    ensures s != ""
  {
    match f
    case LineComment(line, ended) => "--" + line + (if ended then "\n" else "")
    case BlockComment(body) => "/*" + Render(body)
    case QuotedValue(inside) => "'" + RenderInside(inside, '\'')
    case QuotedName(inside) => "\"" + RenderInside(inside, '\"')
    case DollarValue(tag, text) => Delimiter(tag) + text + Delimiter(tag)
    case Keyword(word) => word
    case Mark(c) => [c]
  }

  /** No dollar delimiter starts at a dollar sign before `rest`. */
  ghost predicate NoDelimiter(rest: string) {
    forall tag :: IsTag(ASCII, tag) ==> !(tag + "$" <= rest)
  }

  predicate WordAhead(rest: string) {
    rest != "" && IsWordChar(rest[0])
  }

  /** `f` is well formed, and `rest` behind it is not part of it. */
  ghost predicate Fits(f: Fragment, rest: string) {
    match f
    case LineComment(line, ended) => '\n' !in line && (!ended ==> rest == "")
    case BlockComment(body) => Faithful(body)
    case QuotedValue(inside) => FaithfulInside(inside, '\'', true) && !Doubles('\'', rest)
    case QuotedName(inside) => FaithfulInside(inside, '\"', true) && !Doubles('\"', rest)
    case DollarValue(tag, text) => IsTag(ASCII, tag) && FirstAt(Delimiter(tag), text + Delimiter(tag), |text|)
    case Keyword(word) =>
      && word != "" && IsWordStart(word[0]) && (forall i :: 0 <= i < |word| ==> IsWordChar(word[i]))
      && !WordAhead(rest)
    case Mark(c) =>
      && c != '\'' && c != '\"' && !IsWordStart(c)
      && (c == '-' ==> !("-" <= rest)) && (c == '/' ==> !("*" <= rest)) && (c == '$' ==> NoDelimiter(rest))
  }

  /** The text consists of these fragments. */
  ghost predicate Consists(u: string, fs: seq<Fragment>)
    decreases fs
  {
    if fs == [] then u == ""
    else
      && (fs[0].Keyword? ==> fs[0].word != "") && Written(fs[0]) <= u
      && Fits(fs[0], u[|Written(fs[0])|..]) && Consists(u[|Written(fs[0])|..], fs[1..])
  }

  function Capital(c: char): char {
    if 'a' <= c <= 'z' then c - 'a' + 'A' else c
  }

  function Capitals(s: string): (r: string)
    ensures |r| == |s| && forall i :: 0 <= i < |s| ==> r[i] == Capital(s[i])
  {
    if s == "" then "" else [Capital(s[0])] + Capitals(s[1..])
  }

  function Spelled(f: Fragment): seq<string> {
    match f
    case Keyword(word) => [Capitals(word)]
    case QuotedName(inside) =>
      if RenderInside(inside, '\"') == "supabase_migrations\"" then ["SUPABASE_MIGRATIONS"] else []
    case Mark(c) => if c == ';' then [";"] else []
    case _ => []
  }

  function Spelling(fs: seq<Fragment>): seq<string> {
    if fs == [] then [] else Spelled(fs[0]) + Spelling(fs[1..])
  }

  // ---- Fragments and pieces ----

  /** With a backslash always escaping, the guard's quoted values are those of E-strings. */
  lemma {:induction false} ValueIsString(u: string, quote: char)
    requires quote != '\\'
    ensures ValueLength(u, quote) == Normalizer.StringLength(u, quote, true)
    decreases |u|
  {
    if u != "" {
      if |u| > 1 {
        ValueIsString(u[2..], quote);
      }
      ValueIsString(u[1..], quote);
      assert |u| == 1 ==> u[1..] == "";
    }
  }

  lemma {:induction false} WordIsRead(w: string, x: string)
    requires (forall i :: 0 <= i < |w| ==> IsWordChar(w[i])) && !WordAhead(x)
    ensures WordLength(w + x) == |w|
  {
    if w == "" {
      assert w + x == x;
    } else {
      WordIsRead(w[1..], x);
      assert (w + x)[1..] == w[1..] + x;
    }
  }

  lemma {:induction false} SameCapitals(s: string)
    ensures Upper(s) == Capitals(s)
  {
  }

  /** The first newline of a text. */
  lemma {:induction false} NewlineIsFound(line: string, u: string)
    requires line <= u && '\n' !in line
    ensures |line| == |u| ==> Find(u, "\n").None?
    ensures |line| < |u| && u[|line|] == '\n' ==> Find(u, "\n") == Some(|line|)
  {
    if line == "" {
      assert |u| > 0 && u[0] == '\n' ==> u[..1] == "\n";
    } else {
      assert u[0] == line[0] && line[0] in line;
      NewlineIsFound(line[1..], u[1..]);
    }
  }

  lemma StartsWithNewline(u: string)
    ensures "\n" <= u <==> u != "" && u[0] == '\n'
  {
    assert u != "" ==> u[..1] == [u[0]];
  }

  lemma {:induction false} NewlineIsFirst(u: string)
    ensures Find(u, "\n").None? ==> '\n' !in u
    ensures Find(u, "\n").Some? ==> '\n' !in u[..Find(u, "\n").value] && u[Find(u, "\n").value] == '\n'
  {
    StartsWithNewline(u);
    if u != "" && !("\n" <= u) {
      NewlineIsFirst(u[1..]);
      if Find(u, "\n").Some? {
        assert u[..Find(u, "\n").value] == [u[0]] + u[1..][..Find(u, "\n").value - 1];
      } else {
        assert u == [u[0]] + u[1..];
      }
    }
  }

  lemma LineIsRead(line: string, ended: bool, u: string)
    requires Written(LineComment(line, ended)) <= u
    requires Fits(LineComment(line, ended), u[|Written(LineComment(line, ended))|..])
    ensures u != "" && Next(u) == Piece(|Written(LineComment(line, ended))|, None)
  {
    hide Find;
    var w := Written(LineComment(line, ended));
    assert "--" + (line + (if ended then "\n" else "")) == w;
    PrefixSplits("--", line + (if ended then "\n" else ""), u);
    PrefixSplits(line, if ended then "\n" else "", u[2..]);
    NewlineIsFound(line, u[2..]);
    assert ended ==> u[2..][|line|..][0] == '\n';
  }

  lemma {:induction false} BlockIsRead(body: Body, u: string)
    requires Written(BlockComment(body)) <= u && Faithful(body)
    ensures u != "" && Next(u) == Piece(|Written(BlockComment(body))|, None)
  {
    hide Render, Faithful;
    var x := u[|Written(BlockComment(body))|..];
    assert u == Comment(body) + x;
    CommentIsOnePiece(body, x);
  }

  /** The scanner's length for what stands behind a quote. */
  lemma {:induction false} ValueIsRead(inside: Inside, quote: char, u: string)
    requires quote != '\\' && [quote] + RenderInside(inside, quote) <= u && FaithfulInside(inside, quote, true)
    requires !Doubles(quote, u[1 + |RenderInside(inside, quote)|..])
    ensures u != "" && u[0] == quote && ValueLength(u[1..], quote) == Some(|RenderInside(inside, quote)|)
    ensures RenderInside(inside, quote) == u[1..][..|RenderInside(inside, quote)|]
  {
    hide RenderInside, FaithfulInside;
    var r := RenderInside(inside, quote);
    PrefixSplits([quote], r, u);
    InsideIsRead(inside, quote, true, u[1 + |r|..]);
    assert u[1..] == r + u[1 + |r|..];
    ValueIsString(u[1..], quote);
  }

  /** The authority name is spelled plainly between its quotes or not at all. */
  lemma AuthorityIsPlain(u: string, r: string)
    requires u != "" && u[0] == '\"' && r != "" && r[|r| - 1] == '\"'
    requires r <= u[1..] && ValueLength(u[1..], '\"') == Some(|r|)
    ensures
      Identifier(u) ==
        Piece(1 + |r|, if r == "supabase_migrations\"" then Some("SUPABASE_MIGRATIONS") else None)
  {
    hide Unquote, ValueLength;
    var s := u[1..|r|];
    var name := "supabase_migrations";
    UnquoteIsPlain(s, name);
    assert r[..|r| - 1] == s && r == s + "\"";
    assert r == name + "\"" ==> s == name by {
      assert (name + "\"")[..|name|] == name;
    }
  }

  lemma {:induction false} InsideEndsInQuote(inside: Inside, quote: char)
    ensures RenderInside(inside, quote)[|RenderInside(inside, quote)| - 1] == quote
  {
    match inside
    case Closed =>
    case Char(_, rest) => InsideEndsInQuote(rest, quote);
    case Twice(rest) => InsideEndsInQuote(rest, quote);
    case Escape(_, rest) => InsideEndsInQuote(rest, quote);
  }

  lemma {:induction false} NameIsRead(inside: Inside, u: string)
    requires Written(QuotedName(inside)) <= u && Fits(QuotedName(inside), u[|Written(QuotedName(inside))|..])
    ensures
      u != "" && Next(u) ==
        Piece(|Written(QuotedName(inside))|,
              if RenderInside(inside, '\"') == "supabase_migrations\"" then Some("SUPABASE_MIGRATIONS") else None)
  {
    hide RenderInside, FaithfulInside, ValueLength, Identifier;
    ValueIsRead(inside, '\"', u);
    InsideEndsInQuote(inside, '\"');
    AuthorityIsPlain(u, RenderInside(inside, '\"'));
  }

  lemma QuotedValueIsRead(inside: Inside, u: string)
    requires Written(QuotedValue(inside)) <= u && Fits(QuotedValue(inside), u[|Written(QuotedValue(inside))|..])
    ensures u != "" && Next(u) == Piece(|Written(QuotedValue(inside))|, None)
  {
    hide RenderInside, FaithfulInside, ValueLength;
    ValueIsRead(inside, '\'', u);
  }

  lemma DollarValueIsRead(tag: string, text: string, u: string)
    requires Written(DollarValue(tag, text)) <= u && Fits(DollarValue(tag, text), "")
    ensures u != "" && Next(u) == Piece(|Written(DollarValue(tag, text))|, None)
  {
    hide Normalizer.TagLength, Find, StandsAt, IsTag, ASCII;
    var t, d := |tag| + 2, Delimiter(tag);
    DollarParts(tag, text, u);
    assert d[0] == '$' && u[0] == d[0];
    TagExactly(ASCII, u, tag);
    FirstInPrefix(d, text, u[t..]);
    hide FirstAt;
    assert u[..t] == d;
    FindIsFirst(u[t..], d, |text|);
  }

  lemma {:induction false} KeywordIsRead(word: string, u: string)
    requires word != "" && word <= u && Fits(Keyword(word), u[|word|..])
    ensures u != "" && Next(u) == Piece(|word|, Some(Capitals(word)))
  {
    WordLengthIs(word, u);
    SameCapitals(word);
    hide WordLength, Capitals, Upper, Fits;
    WordsComeLast(u);
  }

  lemma WordLengthIs(word: string, u: string)
    requires word != "" && word <= u && Fits(Keyword(word), u[|word|..])
    ensures u != "" && IsWordStart(u[0]) && 1 + WordLength(u[1..]) == |word| && u[..|word|] == word
  {
    var rest := u[|word|..];
    assert u[0] == word[0] && u[1..] == word[1..] + rest;
    WordIsRead(word[1..], rest);
  }

  lemma WordsComeLast(u: string)
    requires u != "" && IsWordStart(u[0])
    ensures Next(u) == SqlGuard.Word(u)
  {
    hide SqlGuard.Word;
  }

  /** A dollar sign opens a delimiter exactly where one stands. */
  lemma DelimiterExactly(u: string)
    requires u != "" && u[0] == '$'
    ensures Normalizer.TagLength(ASCII, u).None? <==> NoDelimiter(u[1..])
  {
    hide Normalizer.TagLength, ASCII, IsTag;
    forall tag
      ensures Delimiter(tag) <= u <==> tag + "$" <= u[1..]
    {
      assert Delimiter(tag) == "$" + (tag + "$");
      PrefixSplits("$", tag + "$", u);
    }
    if Normalizer.TagLength(ASCII, u).Some? {
      var t := Normalizer.TagLength(ASCII, u).value;
      assert u[..t] == Delimiter(u[1..t - 1]);
      TagExactly(ASCII, u, u[1..t - 1]);
    }
    forall tag | IsTag(ASCII, tag) && Delimiter(tag) <= u
      ensures Normalizer.TagLength(ASCII, u).Some?
    {
      TagExactly(ASCII, u, tag);
    }
  }

  lemma MarkersSplit(u: string)
    requires u != ""
    ensures "--" <= u <==> u[0] == '-' && "-" <= u[1..]
    ensures "/*" <= u <==> u[0] == '/' && "*" <= u[1..]
  {
    assert "--" == "-" + "-" && "/*" == "/" + "*";
    PrefixSplits("-", "-", u);
    PrefixSplits("/", "*", u);
    assert u[..1] == [u[0]];
  }

  lemma MarkIsRead(c: char, u: string)
    requires [c] <= u && Fits(Mark(c), u[1..])
    ensures u != "" && Next(u) == Piece(1, if c == ';' then Some(";") else None)
  {
    hide Normalizer.TagLength, ASCII, NoDelimiter;
    assert u[0] == c;
    if c == '$' {
      DelimiterExactly(u);
    }
    MarkersSplit(u);
  }

  lemma FragmentIsRead(f: Fragment, u: string)
    requires (f.Keyword? ==> f.word != "") && Written(f) <= u && Fits(f, u[|Written(f)|..])
    ensures u != "" && Next(u).Piece? && Next(u).length == |Written(f)| && Listed(Next(u).token) == Spelled(f)
  {
    hide Next, Fits, Written;
    match f
    case LineComment(line, ended) => LineIsRead(line, ended, u);
    case BlockComment(body) =>
      assert Faithful(body) by { BlockFits(body, u[|Written(f)|..]); }
      BlockIsRead(body, u);
    case QuotedValue(inside) => QuotedValueIsRead(inside, u);
    case QuotedName(inside) => NameIsRead(inside, u);
    case DollarValue(tag, text) =>
      DollarFits(tag, text, u[|Written(f)|..]);
      DollarValueIsRead(tag, text, u);
    case Keyword(word) =>
      WrittenWord(word);
      KeywordIsRead(word, u);
    case Mark(c) =>
      WrittenMark(c);
      MarkIsRead(c, u);
  }

  lemma {:induction false} BlockFits(body: Body, rest: string)
    ensures Fits(BlockComment(body), rest) <==> Faithful(body)
  {
  }

  lemma DollarFits(tag: string, text: string, rest: string)
    ensures Fits(DollarValue(tag, text), rest) <==> Fits(DollarValue(tag, text), "")
  {
  }

  lemma WrittenWord(word: string)
    requires word != ""
    ensures Written(Keyword(word)) == word
  {
  }

  lemma WrittenMark(c: char)
    ensures Written(Mark(c)) == [c]
  {
  }

  // ---- Tokens are spellings ----

  lemma {:induction false} TokensAreSpelled(u: string, fs: seq<Fragment>)
    requires Consists(u, fs)
    ensures Tokens(u) == Some(Spelling(fs))
    decreases fs
  {
    hide Tokens, Next, Written, Fits, Spelled;
    if fs == [] {
      EmptyTokens();
    } else {
      FragmentIsRead(fs[0], u);
      TokensAreSpelled(u[|Written(fs[0])|..], fs[1..]);
      TokensStep(u);
    }
  }

  lemma ReadLine(u: string) returns (f: Fragment)
    requires "--" <= u
    ensures !f.Keyword? && Written(f) == u[..Next(u).length] && Fits(f, u[Next(u).length..])
  {
    hide Find;
    NewlineIsFirst(u[2..]);
    var newline := Find(u[2..], "\n");
    if newline.None? {
      f := LineComment(u[2..], false);
    } else {
      f := LineComment(u[2..][..newline.value], true);
      assert u[..newline.value + 3] == "--" + u[2..][..newline.value] + "\n";
    }
  }

  lemma ReadBlock(u: string) returns (f: Fragment)
    requires "/*" <= u && Next(u).Piece?
    ensures !f.Keyword? && Written(f) == u[..Next(u).length] && Fits(f, u[Next(u).length..])
  {
    hide CommentLength, Render, Faithful, Parse;
    assert u[0] == '/';
    assert !("--" <= u) && Next(u) == Sized(Plus(2, CommentLength(u[2..], 1)), None);
    ParseRenders(u[2..]);
    f := BlockComment(Parse(u[2..]));
    var n := CommentLength(u[2..], 1).value;
    assert u[..n + 2] == "/*" + u[2..][..n];
  }

  lemma ReadQuotes(u: string) returns (f: Fragment)
    requires u != "" && (u[0] == '\'' || u[0] == '\"') && Next(u).Piece?
    ensures !f.Keyword? && Written(f) == u[..Next(u).length] && Fits(f, u[Next(u).length..])
  {
    hide ValueLength, Normalizer.StringLength, RenderInside, FaithfulInside, Unquote;
    var n := ValueLength(u[1..], u[0]).value;
    ValueIsString(u[1..], u[0]);
    var inside := ReadInside(u[1..], u[0], true);
    f := if u[0] == '\'' then QuotedValue(inside) else QuotedName(inside);
    assert Next(u).length == n + 1;
    assert u[..n + 1] == [u[0]] + u[1..][..n] && u[n + 1..] == u[1..][n..];
  }

  lemma ReadDollarValue(u: string) returns (f: Fragment)
    requires u != "" && u[0] == '$' && Normalizer.TagLength(ASCII, u).Some? && Next(u).Piece?
    ensures !f.Keyword? && Written(f) == u[..Next(u).length] && Fits(f, u[Next(u).length..])
  {
    hide Normalizer.TagLength, Find, FirstAt, IsTag, ASCII;
    assert Next(u) == DollarQuote(u) && Normalizer.DollarLength(ASCII, u) == Some(Next(u).length);
    var tag, body := ReadDollar(ASCII, u);
    f := DollarValue(tag, body);
  }

  lemma ReadKeyword(u: string) returns (f: Fragment)
    requires u != "" && IsWordStart(u[0])
    ensures f.Keyword? && f.word != "" && Written(f) == u[..Next(u).length] && Fits(f, u[Next(u).length..])
  {
    hide WordLength;
    var n := 1 + WordLength(u[1..]);
    f := Keyword(u[..n]);
    assert Next(u).length == n;
    forall i | 0 <= i < n
      ensures IsWordChar(u[..n][i])
    {
      assert i > 0 ==> u[i] == u[1..][i - 1];
    }
    assert n < |u| ==> u[n..][0] == u[1..][n - 1];
  }

  /** What the tokeniser takes next is a fragment. */
  lemma ReadFragment(u: string) returns (f: Fragment)
    requires u != "" && Next(u).Piece?
    ensures (f.Keyword? ==> f.word != "") && Written(f) == u[..Next(u).length] && Fits(f, u[Next(u).length..])
  {
    hide Written, Fits, Normalizer.TagLength, ASCII;
    if "--" <= u {
      f := ReadLine(u);
    } else if "/*" <= u {
      f := ReadBlock(u);
    } else if u[0] == '\'' || u[0] == '\"' {
      f := ReadQuotes(u);
    } else if u[0] == '$' && Normalizer.TagLength(ASCII, u).Some? {
      f := ReadDollarValue(u);
    } else if IsWordStart(u[0]) {
      f := ReadKeyword(u);
    } else {
      f := Mark(u[0]);
      MarkFits(u);
    }
  }

  lemma MarkFits(u: string)
    requires u != "" && !("--" <= u) && !("/*" <= u) && u[0] != '\'' && u[0] != '\"' && !IsWordStart(u[0])
    requires u[0] == '$' ==> Normalizer.TagLength(ASCII, u).None?
    ensures Written(Mark(u[0])) == u[..1] && Fits(Mark(u[0]), u[1..]) && Next(u).length == 1
  {
    hide Normalizer.TagLength, ASCII, NoDelimiter;
    MarkersSplit(u);
    if u[0] == '$' {
      DelimiterExactly(u);
    }
  }

  lemma {:induction false} TokenisedConsists(u: string) returns (fs: seq<Fragment>)
    requires Tokens(u).Some?
    ensures Consists(u, fs)
    decreases |u|
  {
    hide Tokens, Next, Written, Fits;
    fs := [];
    if u != "" {
      TokensStep(u);
      var f := ReadFragment(u);
      var rest := TokenisedConsists(u[Next(u).length..]);
      fs := [f] + rest;
      assert fs[1..] == rest;
    }
  }

  /** The tokens of a text are the spelling of its fragments, and a text is refused exactly when it
    * does not consist of fragments. */
  lemma {:induction false} TokensExactly(u: string, tokens: seq<string>)
    ensures Tokens(u) == Some(tokens) <==> exists fs :: Consists(u, fs) && Spelling(fs) == tokens
  {
    if Tokens(u) == Some(tokens) {
      var fs := TokenisedConsists(u);
      TokensAreSpelled(u, fs);
    }
    forall fs | Consists(u, fs)
      ensures Tokens(u) == Some(Spelling(fs))
    {
      TokensAreSpelled(u, fs);
    }
  }

  /** A word with no word character behind it yields its capitals, then the tokens of what follows. */
  lemma {:induction false} KeywordYieldsCapitals(w: string, x: string)
    requires Fits(Keyword(w), x)
    ensures Tokens(w + x) == Joined([Capitals(w)], Tokens(x))
  {
    assert (w + x)[|w|..] == x;
    KeywordIsRead(w, w + x);
    TokensStep(w + x);
  }

  // ---- Case ----

  lemma CapitalsDecide(c: char, d: char)
    requires Capital(c) == Capital(d)
    ensures IsLetter(c) == IsLetter(d) && IsWordStart(c) == IsWordStart(d) && IsWordChar(c) == IsWordChar(d)
    ensures IsTagChar(ASCII, c) == IsTagChar(ASCII, d)
    ensures !IsLetter(c) ==> c == d
  {
  }

  predicate SameBody(b: Body, c: Body) {
    match b
    case Close => c == Close
    case Plain(x, rest) => c.Plain? && Capital(x) == Capital(c.c) && SameBody(rest, c.rest)
    case Nested(inner, rest) => c.Nested? && SameBody(inner, c.inner) && SameBody(rest, c.rest)
  }

  /** Equal but for the case of letters outside quotes and dollar values. */
  predicate SameButCase(f: Fragment, g: Fragment) {
    match f
    case LineComment(line, ended) => g.LineComment? && g.ended == ended && Capitals(line) == Capitals(g.line)
    case BlockComment(body) => g.BlockComment? && SameBody(body, g.body)
    case Keyword(word) => g.Keyword? && Capitals(word) == Capitals(g.word)
    case _ => f == g
  }

  ghost predicate Recased(fs: seq<Fragment>, gs: seq<Fragment>) {
    |fs| == |gs| && forall i :: 0 <= i < |fs| ==> SameButCase(fs[i], gs[i])
  }

  predicate Writable(fs: seq<Fragment>) {
    forall i :: 0 <= i < |fs| && fs[i].Keyword? ==> fs[i].word != ""
  }

  function Composed(fs: seq<Fragment>): string
    requires Writable(fs)
  {
    if fs == [] then "" else Written(fs[0]) + Composed(fs[1..])
  }

  lemma {:induction false} CapitalsAppend(s: string, t: string)
    ensures Capitals(s + t) == Capitals(s) + Capitals(t)
  {
  }

  lemma {:induction false} SameCapitalsEach(s: string, t: string)
    requires Capitals(s) == Capitals(t)
    ensures |s| == |t| && forall i :: 0 <= i < |s| ==> Capital(s[i]) == Capital(t[i])
  {
    forall i | 0 <= i < |s|
      ensures Capital(s[i]) == Capital(t[i])
    {
      assert Capitals(s)[i] == Capitals(t)[i];
    }
  }

  lemma {:induction false} SameBodySameCapitals(b: Body, c: Body)
    requires SameBody(b, c)
    ensures Capitals(Render(b)) == Capitals(Render(c))
  {
    hide Capitals;
    match b
    case Close =>
    case Plain(x, rest) =>
      SameBodySameCapitals(rest, c.rest);
      CapitalsAppend([x], Render(rest));
      CapitalsAppend([c.c], Render(c.rest));
      OneCapital(x);
      OneCapital(c.c);
    case Nested(inner, rest) =>
      SameBodySameCapitals(inner, c.inner);
      SameBodySameCapitals(rest, c.rest);
      ThreeCapitals("/*", Render(inner), Render(rest));
      ThreeCapitals("/*", Render(c.inner), Render(c.rest));
  }

  lemma OneCapital(c: char)
    ensures Capitals([c]) == [Capital(c)]
  {
  }

  lemma {:induction false} ThreeCapitals(s: string, t: string, v: string)
    ensures Capitals(s + t + v) == Capitals(s) + Capitals(t) + Capitals(v)
  {
    CapitalsAppend(s + t, v);
    CapitalsAppend(s, t);
  }

  lemma {:induction false} SameBodyFaithful(b: Body, c: Body)
    requires SameBody(b, c) && Faithful(b)
    ensures Faithful(c)
  {
    match b
    case Close =>
    case Plain(x, rest) =>
      SameBodyFaithful(rest, c.rest);
      SameBodySameCapitals(b, c);
      SameMarks(Render(b), Render(c));
    case Nested(inner, rest) =>
      SameBodyFaithful(inner, c.inner);
      SameBodyFaithful(rest, c.rest);
  }

  lemma NoLetters()
    ensures !IsLetter('/') && !IsLetter('*') && !IsLetter('-') && !IsLetter('$')
  {
  }

  lemma StartsWithTwo(s: string, c: char, d: char)
    requires |s| >= 2
    ensures [c, d] <= s <==> s[0] == c && s[1] == d
  {
    assert s[..2] == [s[0], s[1]];
  }

  lemma {:induction false} SameMarks(s: string, t: string)
    requires Capitals(s) == Capitals(t) && |s| >= 2
    ensures "/*" <= s <==> "/*" <= t
    ensures "*/" <= s <==> "*/" <= t
  {
    SameCapitalsEach(s, t);
    hide Capitals;
    CapitalsDecide(s[0], t[0]);
    CapitalsDecide(s[1], t[1]);
    NoLetters();
    hide IsLetter, IsWordStart, IsWordChar, IsTagChar, ASCII, Capital;
    StartsWithTwo(s, '/', '*');
    StartsWithTwo(t, '/', '*');
    StartsWithTwo(s, '*', '/');
    StartsWithTwo(t, '*', '/');
  }

  lemma {:induction false} NoDelimiterIgnoresCase(x: string, y: string)
    requires NoDelimiter(x) && Capitals(x) == Capitals(y)
    ensures NoDelimiter(y)
  {
    SameCapitalsEach(x, y);
    hide Capitals;
    hide IsTag, ASCII;
    if tag :| IsTag(ASCII, tag) && tag + "$" <= y {
      SameTag(tag, x, y);
    }
  }

  lemma SameTag(tag: string, x: string, y: string)
    requires |x| == |y| && forall i :: 0 <= i < |x| ==> Capital(x[i]) == Capital(y[i])
    requires IsTag(ASCII, tag) && tag + "$" <= y
    ensures IsTag(ASCII, x[..|tag|]) && x[..|tag|] + "$" <= x
  {
    var n := |tag|;
    assert forall i :: 0 <= i < n ==> y[i] == tag[i];
    assert y[n] == (tag + "$")[n];
    forall i | 0 <= i <= n
      ensures IsTagChar(ASCII, x[i]) == IsTagChar(ASCII, y[i]) && IsLetter(x[i]) == IsLetter(y[i])
      ensures !IsLetter(x[i]) ==> x[i] == y[i]
    {
      CapitalsDecide(x[i], y[i]);
    }
    assert x[..n + 1] == x[..n] + "$";
  }

  lemma {:induction false} SameAhead(x: string, y: string)
    requires Capitals(x) == Capitals(y)
    ensures x == "" <==> y == ""
    ensures x != "" ==> IsWordChar(x[0]) == IsWordChar(y[0]) && (x[0] == y[0] || (IsLetter(x[0]) && IsLetter(y[0])))
    ensures "-" <= x <==> "-" <= y
    ensures "*" <= x <==> "*" <= y
  {
    SameCapitalsEach(x, y);
    hide Capitals;
    if x != "" {
      CapitalsDecide(x[0], y[0]);
      NoLetters();
      hide IsLetter, IsWordStart, IsWordChar, IsTagChar, ASCII, Capital;
      assert x[..1] == [x[0]] && y[..1] == [y[0]];
    }
  }

  lemma {:induction false} SameWord(w: string, v: string, x: string, y: string)
    requires Fits(Keyword(w), x) && Capitals(w) == Capitals(v) && Capitals(x) == Capitals(y)
    ensures Fits(Keyword(v), y)
  {
    hide Capitals, IsWordChar, IsWordStart, FaithfulInside, Faithful, FirstAt, NoDelimiter, IsTag;
    SameAhead(x, y);
    SameWordChars(w, v);
  }

  lemma {:induction false} SameWordChars(w: string, v: string)
    requires Capitals(w) == Capitals(v)
    ensures |w| == |v|
    ensures forall i :: 0 <= i < |v| ==> IsWordChar(v[i]) == IsWordChar(w[i]) && IsWordStart(v[i]) == IsWordStart(w[i])
  {
    SameCapitalsEach(w, v);
    hide Capitals, IsWordChar, IsWordStart, ASCII, IsTagChar, Capital;
    forall i | 0 <= i < |v|
      ensures IsWordChar(v[i]) == IsWordChar(w[i]) && IsWordStart(v[i]) == IsWordStart(w[i])
    {
      CapitalsDecide(w[i], v[i]);
    }
  }

  lemma {:induction false} SameLine(line: string, other: string)
    requires Capitals(line) == Capitals(other) && '\n' !in line
    ensures '\n' !in other
  {
    SameCapitalsEach(line, other);
    hide Capitals;
    forall i | 0 <= i < |other|
      ensures other[i] != '\n'
    {
      CapitalsDecide(line[i], other[i]);
      assert line[i] in line;
    }
  }

  lemma {:induction false} FitsIgnoresCase(f: Fragment, g: Fragment, x: string, y: string)
    requires Fits(f, x) && SameButCase(f, g) && Capitals(x) == Capitals(y)
    ensures Fits(g, y)
  {
    SameAhead(x, y);
    match f
    case LineComment(line, ended) => SameLine(line, g.line);
    case BlockComment(body) => SameBodyFaithful(body, g.body);
    case Keyword(word) => SameWord(word, g.word, x, y);
    case Mark(c) =>
      hide Capitals;
      if c == '$' {
        NoDelimiterIgnoresCase(x, y);
      }
    case _ =>
      hide Capitals, FaithfulInside, FirstAt;
  }

  lemma WrittenIgnoresCase(f: Fragment, g: Fragment)
    requires SameButCase(f, g) && (f.Keyword? ==> f.word != "")
    ensures (g.Keyword? ==> g.word != "") && Capitals(Written(f)) == Capitals(Written(g)) && Spelled(f) == Spelled(g)
  {
    match f
    case LineComment(line, ended) =>
      hide Capitals;
      ThreeCapitals("--", line, if ended then "\n" else "");
      ThreeCapitals("--", g.line, if ended then "\n" else "");
    case BlockComment(body) =>
      hide Capitals;
      SameBodySameCapitals(body, g.body);
      CapitalsAppend("/*", Render(body));
      CapitalsAppend("/*", Render(g.body));
    case Keyword(word) => SameCapitalsEach(word, g.word);
    case _ =>
  }

  /** Changing the case of letters outside quoted and dollar values gives a text of the same fragments. */
  lemma {:induction false} RecasedConsists(u: string, fs: seq<Fragment>, gs: seq<Fragment>)
    requires Consists(u, fs) && Recased(fs, gs)
    ensures Writable(gs) && Consists(Composed(gs), gs)
    ensures Capitals(Composed(gs)) == Capitals(u) && Spelling(gs) == Spelling(fs)
    decreases fs
  {
    hide Written, Fits, Spelled, Capitals, SameButCase;
    if fs != [] {
      var n := |Written(fs[0])|;
      RecasedConsists(u[n..], fs[1..], gs[1..]);
      var f, g, rest := fs[0], gs[0], Composed(gs[1..]);
      assert SameButCase(f, g);
      WrittenIgnoresCase(f, g);
      FitsIgnoresCase(f, g, u[n..], rest);
      assert forall i :: 0 < i < |gs| ==> gs[i] == gs[1..][i - 1];
      var v := Written(g) + rest;
      assert v[|Written(g)|..] == rest && u == Written(f) + u[n..];
      CapitalsAppend(Written(f), u[n..]);
      CapitalsAppend(Written(g), rest);
    }
  }

  /** The case of letters outside quotes changes neither tokens nor verdict. */
  lemma {:induction false} CaseDoesNotMatter(u: string, fs: seq<Fragment>, gs: seq<Fragment>)
    requires Consists(u, fs) && Recased(fs, gs)
    ensures Writable(gs) && Capitals(Composed(gs)) == Capitals(u)
    ensures Tokens(Composed(gs)) == Tokens(u) && (GuardAccepts(Composed(gs)) <==> GuardAccepts(u))
  {
    RecasedConsists(u, fs, gs);
    TokensAreSpelled(u, fs);
    TokensAreSpelled(Composed(gs), gs);
  }

  // ---- The verdict ----

  predicate ForbiddenPair(s: string, t: string) {
    || (s == "IF" && t == "EXISTS")
    || (s == "CREATE" && t == "ROLE")
    || (s == "ALTER" && t == "ROLE")
    || (s == "DROP" && t in {"TABLE", "SCHEMA", "ROLE", "POLICY", "FUNCTION", "TRIGGER", "CONSTRAINT"})
  }

  predicate Adjacent(tokens: seq<string>, i: nat, s: string, t: string) {
    i + 1 < |tokens| && tokens[i] == s && tokens[i + 1] == t
  }

  predicate ForbiddenAt(tokens: seq<string>, i: nat) {
    && i < |tokens|
    && (|| tokens[i] == "SUPABASE_MIGRATIONS"
        || (i + 1 < |tokens| && ForbiddenPair(tokens[i], tokens[i + 1]))
        || (i + 2 < |tokens| && tokens[i] == "IF" && tokens[i + 1] == "NOT" && tokens[i + 2] == "EXISTS"))
  }

  lemma PairAt(tokens: seq<string>, s: string, t: string, i: int)
    ensures SqlGuard.OccursAt(tokens, [s, t], i) <==> 0 <= i && Adjacent(tokens, i, s, t)
  {
    if 0 <= i && i + 1 < |tokens| {
      assert tokens[i..i + 2] == [tokens[i], tokens[i + 1]];
    }
  }

  lemma ContainsPair(tokens: seq<string>, s: string, t: string)
    ensures Contains(tokens, [s, t]) <==> exists i :: Adjacent(tokens, i, s, t)
  {
    hide SqlGuard.OccursAt;
    if i :| 0 <= i <= |tokens| - |[s, t]| && SqlGuard.OccursAt(tokens, [s, t], i) {
      PairAt(tokens, s, t, i);
    }
    if i: nat :| Adjacent(tokens, i, s, t) {
      PairAt(tokens, s, t, i);
      assert 0 <= i <= |tokens| - |[s, t]|;
    }
  }

  /** At a forbidden place one of the forbidden sequences stands. */
  lemma ForbiddenStands(tokens: seq<string>, i: nat) returns (expected: seq<string>)
    requires ForbiddenAt(tokens, i)
    ensures expected in FORBIDDEN && Contains(tokens, expected)
  {
    if tokens[i] == "SUPABASE_MIGRATIONS" {
      expected := [tokens[i]];
    } else if i + 1 < |tokens| && ForbiddenPair(tokens[i], tokens[i + 1]) {
      expected := [tokens[i], tokens[i + 1]];
    } else {
      expected := [tokens[i], tokens[i + 1], tokens[i + 2]];
    }
    assert tokens[i..i + |expected|] == expected;
    assert SqlGuard.OccursAt(tokens, expected, i);
  }

  lemma StandsForbidden(tokens: seq<string>, expected: seq<string>) returns (i: nat)
    requires expected in FORBIDDEN && Contains(tokens, expected)
    ensures ForbiddenAt(tokens, i)
  {
    i :| 0 <= i <= |tokens| - |expected| && SqlGuard.OccursAt(tokens, expected, i);
    forall k | 0 <= k < |expected|
      ensures tokens[i + k] == expected[k]
    {
      assert tokens[i..i + |expected|][k] == expected[k];
    }
    assert |expected| > 1 ==> tokens[i + 1] == expected[1];
    assert |expected| > 2 ==> tokens[i + 2] == expected[2];
  }

  /** The guard accepts a text exactly when it consists of fragments that spell an opened and a closed
    * transaction and nothing forbidden. */
  lemma {:induction false} VerdictExactly(u: string, fs: seq<Fragment>)
    ensures (forall gs :: !Consists(u, gs)) ==> !GuardAccepts(u)
    ensures Consists(u, fs) ==>
      (GuardAccepts(u) <==>
       && (exists i :: Adjacent(Spelling(fs), i, "BEGIN", ";"))
       && (exists i :: Adjacent(Spelling(fs), i, "COMMIT", ";"))
       && forall i :: !ForbiddenAt(Spelling(fs), i))
  {
    hide Contains, ForbiddenAt, Adjacent, Consists, Spelling, Tokens, FORBIDDEN;
    if GuardAccepts(u) {
      TokensExactly(u, Tokens(u).value);
    }
    if Consists(u, fs) {
      TokensAreSpelled(u, fs);
      var tokens := Spelling(fs);
      ContainsPair(tokens, "BEGIN", ";");
      ContainsPair(tokens, "COMMIT", ";");
      forall i | ForbiddenAt(tokens, i)
        ensures !GuardAccepts(u)
      {
        var expected := ForbiddenStands(tokens, i);
      }
      forall expected | expected in FORBIDDEN && Contains(tokens, expected)
        ensures exists i :: ForbiddenAt(tokens, i)
      {
        var i := StandsForbidden(tokens, expected);
      }
    }
  }

  lemma {:induction false} SpellingAppend(fs: seq<Fragment>, gs: seq<Fragment>)
    ensures Spelling(fs + gs) == Spelling(fs) + Spelling(gs)
  {
    hide Spelled;
    if fs == [] {
      assert fs + gs == gs;
    } else {
      SpellingAppend(fs[1..], gs);
      assert (fs + gs)[1..] == fs[1..] + gs;
    }
  }

  /** Two keywords that spell a forbidden pair in any case, with nothing but comments, blanks and
    * quoted values between them, have the text refused. */
  lemma {:induction false} ForbiddenWordsAreRefused(
    u: string, before: seq<Fragment>, s: string, between: seq<Fragment>, t: string, after: seq<Fragment>)
    requires Consists(u, before + [Keyword(s)] + between + [Keyword(t)] + after)
    requires Spelling(between) == [] && ForbiddenPair(Capitals(s), Capitals(t))
    ensures !GuardAccepts(u)
  {
    var fs := before + [Keyword(s)] + between + [Keyword(t)] + after;
    SpellingAppend(before + [Keyword(s)] + between + [Keyword(t)], after);
    SpellingAppend(before + [Keyword(s)] + between, [Keyword(t)]);
    SpellingAppend(before + [Keyword(s)], between);
    SpellingAppend(before, [Keyword(s)]);
    KeywordSpelled(s);
    KeywordSpelled(t);
    hide Spelling, Capitals, Consists;
    var k := |Spelling(before)|;
    var tokens := Spelling(fs);
    assert tokens[k] == Capitals(s) && tokens[k + 1] == Capitals(t);
    assert ForbiddenAt(tokens, k);
    VerdictExactly(u, fs);
  }

  lemma {:induction false} KeywordSpelled(w: string)
    ensures Spelling([Keyword(w)]) == [Capitals(w)]
  {
  }
}
