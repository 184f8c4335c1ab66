/** The migration guard's tokeniser: keywords outside comments and quoted values.
  *
  * Like the normaliser, the scanners are specified on suffixes of the text. The main results are
  * that the depth counter of block comments accepts exactly the nested-comment grammar, and that a
  * well-nested comment put between two scanned pieces never changes the tokens, so it never changes
  * the verdict of the guard.
  */
module SqlGuard {
  import opened SqlGrammar
  import opened SqlNormalizer
  import opened TextSearch
  import opened Wrappers

  // ---- Pieces of a text ----

  /** Length of a quoted value from just after the opening quote. */
  function ValueLength(u: string, quote: char): (n: Option<nat>)
    ensures n.Some? ==> 1 <= n.value <= |u| && u[n.value - 1] == quote
  {
    if u == [] then None
    else if u[0] == quote then if |u| > 1 && u[1] == quote then Plus(2, ValueLength(u[2..], quote)) else Some(1)
    else if u[0] == '\\' && |u| > 1 then Plus(2, ValueLength(u[2..], quote))
    else Plus(1, ValueLength(u[1..], quote))
  }

  /** Length of what closes `depth` open block comments. */
  function CommentLength(u: string, depth: nat): (n: Option<nat>)
    ensures n.Some? ==> n.value <= |u|
    decreases |u|
  {
    if depth == 0 then Some(0)
    else if u == [] then None
    else if "/*" <= u then Plus(2, CommentLength(u[2..], depth + 1))
    else if "*/" <= u then Plus(2, CommentLength(u[2..], depth - 1))
    else Plus(1, CommentLength(u[1..], depth))
  }

  predicate IsLetter(c: char) {
    'a' <= c <= 'z' || 'A' <= c <= 'Z'
  }

  predicate IsDigit(c: char) {
    '0' <= c <= '9'
  }

  /** The ASCII classes of the dollar-tag pattern. */
  const ASCII: Alphabet := CharacterClasses({' '}, set c: char | IsLetter(c), set c: char | IsLetter(c) || IsDigit(c))

  predicate IsWordStart(c: char) {
    IsLetter(c) || c == '_'
  }

  predicate IsWordChar(c: char) {
    IsLetter(c) || IsDigit(c) || c == '_' || c == '$'
  }

  function WordLength(u: string): (n: nat)
    ensures n <= |u| && (forall i :: 0 <= i < n ==> IsWordChar(u[i]))
    ensures n < |u| ==> !IsWordChar(u[n])
  {
    if u == [] || !IsWordChar(u[0]) then 0 else 1 + WordLength(u[1..])
  }

  function Upper(s: string): (r: string)
    ensures |r| == |s|
    ensures forall i :: 0 <= i < |s| ==> r[i] == if 'a' <= s[i] <= 'z' then s[i] - 'a' + 'A' else s[i]
  {
    seq(|s|, i requires 0 <= i < |s| => if 'a' <= s[i] <= 'z' then s[i] - 'a' + 'A' else s[i])
  }

  /** Doubled double quotes become single ones. */
  function Unquote(s: string): string {
    if s == [] then ""
    else if |s| > 1 && s[0] == '\"' && s[1] == '\"' then "\"" + Unquote(s[2..])
    else [s[0]] + Unquote(s[1..])
  }

  /** One piece: its length and the token it yields, or the refusal of an unterminated one. */
  datatype Piece = Refused | Piece(length: nat, token: Option<string>)

  function Sized(n: Option<nat>, token: Option<string>): Piece {
    if n.None? then Refused else Piece(n.value, token)
  }

  /** A line comment that no newline ends. */
  predicate OpenLine(u: string) {
    "--" <= u && Find(u[2..], "\n").None?
  }

  function Identifier(u: string): Piece
    requires u != [] && u[0] == '\"'
  {
    var n := Plus(1, ValueLength(u[1..], '\"'));
    if n.Some? && Unquote(u[1..n.value - 1]) == "supabase_migrations"
    then Piece(n.value, Some("SUPABASE_MIGRATIONS"))
    else Sized(n, None)
  }

  function DollarQuote(u: string): Piece
    requires u != [] && u[0] == '$' && TagLength(ASCII, u).Some?
  {
    var t := TagLength(ASCII, u).value;
    Sized(Plus(t + t, Find(u[t..], u[..t])), None)
  }

  function Word(u: string): Piece
    requires u != []
  {
    var n := 1 + WordLength(u[1..]);
    Piece(n, Some(Upper(u[..n])))
  }

  function Next(u: string): (p: Piece)
    requires u != []
    ensures p.Piece? ==> 1 <= p.length <= |u|
  {
    if "--" <= u then
      var newline := Find(u[2..], "\n");
      Piece(if newline.None? then |u| else newline.value + 3, None)
    else if "/*" <= u then Sized(Plus(2, CommentLength(u[2..], 1)), None)
    else if u[0] == '\'' then Sized(Plus(1, ValueLength(u[1..], '\'')), None)
    else if u[0] == '\"' then Identifier(u)
    else if u[0] == '$' && TagLength(ASCII, u).Some? then DollarQuote(u)
    else if IsWordStart(u[0]) then Word(u)
    else Piece(1, if u[0] == ';' then Some(";") else None)
  }

  function Listed(token: Option<string>): seq<string> {
    if token.None? then [] else [token.value]
  }

  function Joined(front: seq<string>, rest: Option<seq<string>>): Option<seq<string>> {
    if rest.None? then None else Some(front + rest.value)
  }

  /** All tokens of a text; None where the source raises on an unterminated piece. */
  function Tokens(u: string): Option<seq<string>>
    decreases |u|
  {
    if u == [] then Some([])
    else
      var p := Next(u);
      if p.Refused? then None else Joined(Listed(p.token), Tokens(u[p.length..]))
  }

  lemma {:induction false} TokensStep(u: string)
    requires u != []
    ensures Tokens(u) == if Next(u).Refused? then None else Joined(Listed(Next(u).token), Tokens(u[Next(u).length..]))
    ensures Next(u).Piece? && Next(u).token.None? ==> Tokens(u) == Tokens(u[Next(u).length..])
  {
    if Next(u).Piece? && Tokens(u[Next(u).length..]).Some? {
      var rest := Tokens(u[Next(u).length..]).value;
      assert [] + rest == rest;
    }
  }

  // ---- The loops ----

  lemma {:induction false} ValueStep(text: string, i: nat, quote: char)
    requires i <= |text|
    ensures
      ValueLength(text[i..], quote) ==
        if i == |text| then None
        else if text[i] == quote then
          if i + 1 < |text| && text[i + 1] == quote then Plus(2, ValueLength(text[i + 2..], quote)) else Some(1)
        else if text[i] == '\\' && i + 1 < |text| then Plus(2, ValueLength(text[i + 2..], quote))
        else Plus(1, ValueLength(text[i + 1..], quote))
  {
    if i < |text| {
      var u := text[i..];
      assert |u| > 1 ==> u[2..] == text[i + 2..];
      assert u[1..] == text[i + 1..];
    }
  }

  method SkipQuotedValue(text: string, index: nat, quote: char) returns (end: Option<nat>)
    requires index < |text|
    ensures end == Plus(index + 1, ValueLength(text[index + 1..], quote))
  {
    hide ValueLength;
    var cursor := index + 1;
    while cursor < |text|
      invariant index + 1 <= cursor <= |text|
      invariant Plus(index + 1, ValueLength(text[index + 1..], quote)) == Plus(cursor, ValueLength(text[cursor..], quote))
      decreases |text| - cursor
    {
      ValueStep(text, cursor, quote);
      if text[cursor] == quote {
        if cursor + 1 < |text| && text[cursor + 1] == quote {
          cursor := cursor + 2;
          continue;
        }
        return Some(cursor + 1);
      }
      if text[cursor] == '\\' && cursor + 1 < |text| {
        cursor := cursor + 2;
      } else {
        cursor := cursor + 1;
      }
    }
    ValueStep(text, cursor, quote);
    return None;
  }

  predicate StartsAt(text: string, d: string, i: nat)
    requires i <= |text|
  {
    d <= text[i..]
  }

  lemma {:induction false} CommentStep(text: string, i: nat, depth: nat)
    requires i <= |text|
    ensures
      CommentLength(text[i..], depth) ==
        if depth == 0 then Some(0)
        else if i == |text| then None
        else if StartsAt(text, "/*", i) then Plus(2, CommentLength(text[i + 2..], depth + 1))
        else if StartsAt(text, "*/", i) then Plus(2, CommentLength(text[i + 2..], depth - 1))
        else Plus(1, CommentLength(text[i + 1..], depth))
  {
    if i < |text| {
      var u := text[i..];
      assert |u| > 1 ==> u[2..] == text[i + 2..];
      assert u[1..] == text[i + 1..];
    }
  }

  method SkipBlockComment(text: string, index: nat) returns (end: Option<nat>)
    requires index + 2 <= |text|
    ensures end == Plus(index + 2, CommentLength(text[index + 2..], 1))
  {
    hide CommentLength;
    var depth, cursor := 1, index + 2;
    while cursor < |text| && depth != 0
      invariant index + 2 <= cursor <= |text| && depth >= 0
      invariant Plus(index + 2, CommentLength(text[index + 2..], 1)) == Plus(cursor, CommentLength(text[cursor..], depth))
      decreases |text| - cursor
    {
      CommentStep(text, cursor, depth);
      if StartsAt(text, "/*", cursor) {
        depth, cursor := depth + 1, cursor + 2;
      } else if StartsAt(text, "*/", cursor) {
        depth, cursor := depth - 1, cursor + 2;
      } else {
        cursor := cursor + 1;
      }
    }
    CommentStep(text, cursor, depth);
    return if depth != 0 then None else Some(cursor);
  }

  method ReadGuardWord(text: string, index: nat) returns (word: Option<string>, end: nat)
    requires index < |text|
    ensures
      if IsWordStart(text[index]) then index < end <= |text| && Piece(end - index, word) == Word(text[index..])
      else word.None? && end == index
  {
    if !IsWordStart(text[index]) {
      return None, index;
    }
    ghost var u := text[index..][1..];
    end := index + 1;
    while end < |text| && IsWordChar(text[end])
      invariant index + 1 <= end <= |text|
      invariant WordLength(u) == end - index - 1 + WordLength(text[end..])
    {
      assert text[end..][1..] == text[end + 1..];
      end := end + 1;
    }
    word := Some(Upper(text[index..end]));
    assert text[index..end] == text[index..][..end - index];
  }

  method NextGuardToken(text: string, index: nat) returns (p: Piece)
    requires index < |text|
    ensures p == Next(text[index..])
  {
    var u := text[index..];
    if StartsAt(text, "--", index) {
      var newline := Find(text[index + 2..], "\n");
      assert u[2..] == text[index + 2..];
      return Piece((if newline.None? then |text| else index + 2 + newline.value + 1) - index, None);
    }
    if StartsAt(text, "/*", index) {
      assert u[2..] == text[index + 2..];
      var end := SkipBlockComment(text, index);
      return if end.None? then Refused else Piece(end.value - index, None);
    }
    var character := text[index];
    assert u[0] == character && u[1..] == text[index + 1..];
    if character == '\'' {
      var end := SkipQuotedValue(text, index, character);
      return if end.None? then Refused else Piece(end.value - index, None);
    }
    if character == '\"' {
      var end := SkipQuotedValue(text, index, character);
      if end.None? {
        return Refused;
      }
      assert text[index + 1..end.value - 1] == u[1..end.value - index - 1];
      var identifier := Unquote(text[index + 1..end.value - 1]);
      return Piece(end.value - index, if identifier == "supabase_migrations" then Some("SUPABASE_MIGRATIONS") else None);
    }
    if character == '$' && TagLength(ASCII, u).Some? {
      var tag := u[..TagLength(ASCII, u).value];
      var closing := Find(u[|tag|..], tag);
      return if closing.None? then Refused else Piece(|tag| + closing.value + |tag|, None);
    }
    var word, end := ReadGuardWord(text, index);
    if word.Some? {
      return Piece(end - index, word);
    }
    return Piece(1, if character == ';' then Some(";") else None);
  }

  lemma JoinedTwice(a: seq<string>, b: seq<string>, rest: Option<seq<string>>)
    ensures Joined(a, Joined(b, rest)) == Joined(a + b, rest)
  {
    if rest.Some? {
      assert a + (b + rest.value) == a + b + rest.value;
    }
  }

  method SqlGuardTokens(text: string) returns (r: Option<seq<string>>)
    ensures r == Tokens(text)
  {
    hide Tokens, Next;
    EmptyTokens();
    var tokens: seq<string>, cursor := [], 0;
    assert text[0..] == text && (Tokens(text).Some? ==> tokens + Tokens(text).value == Tokens(text).value);
    while cursor < |text|
      invariant cursor <= |text|
      invariant Tokens(text) == Joined(tokens, Tokens(text[cursor..]))
      decreases |text| - cursor
    {
      var p := NextGuardToken(text, cursor);
      TokensStep(text[cursor..]);
      if p.Refused? {
        return None;
      }
      assert text[cursor..][p.length..] == text[cursor + p.length..];
      JoinedTwice(tokens, Listed(p.token), Tokens(text[cursor + p.length..]));
      ghost var before := tokens;
      if p.token.Some? {
        tokens := tokens + [p.token.value];
      }
      assert tokens == before + Listed(p.token);
      cursor := cursor + p.length;
    }
    assert text[cursor..] == [] && tokens + [] == tokens;
    return Some(tokens);
  }

  predicate OccursAt(tokens: seq<string>, expected: seq<string>, i: int) {
    0 <= i <= |tokens| - |expected| && tokens[i..i + |expected|] == expected
  }

  predicate Contains(tokens: seq<string>, expected: seq<string>) {
    exists i :: 0 <= i <= |tokens| - |expected| && OccursAt(tokens, expected, i)
  }

  const FORBIDDEN: set<seq<string>> := {
    ["IF", "EXISTS"], ["IF", "NOT", "EXISTS"], ["CREATE", "ROLE"], ["ALTER", "ROLE"],
    ["DROP", "TABLE"], ["DROP", "SCHEMA"], ["DROP", "ROLE"], ["DROP", "POLICY"], ["DROP", "FUNCTION"],
    ["DROP", "TRIGGER"], ["DROP", "CONSTRAINT"], ["SUPABASE_MIGRATIONS"]}

  /** The guard accepts a text that tokenises, opens and closes a transaction, and has nothing forbidden. */
  predicate GuardAccepts(text: string) {
    var tokens := Tokens(text);
    && tokens.Some?
    && Contains(tokens.value, ["BEGIN", ";"])
    && Contains(tokens.value, ["COMMIT", ";"])
    && (forall expected :: expected in FORBIDDEN ==> !Contains(tokens.value, expected))
  }

  /** The authority identifier is recognised exactly when it is written out plainly between quotes. */
  lemma {:induction false} UnquoteIsPlain(s: string, name: string)
    requires '\"' !in name
    ensures Unquote(s) == name <==> s == name
  {
    if s != [] {
      hide Unquote;
      UnquoteHead(s);
      if name != [] && s[0] == name[0] {
        UnquoteIsPlain(s[1..], name[1..]);
        SameTexts(s, name);
        SameTexts(Unquote(s), name);
      }
    }
  }

  lemma SameTexts(s: string, t: string)
    requires s != [] && t != []
    ensures s == t <==> s[0] == t[0] && s[1..] == t[1..]
  {
    assert s == [s[0]] + s[1..] && t == [t[0]] + t[1..];
  }

  lemma {:induction false} UnquoteHead(s: string)
    requires s != []
    ensures Unquote(s) != [] && Unquote(s)[0] == s[0]
    ensures s[0] != '\"' ==> Unquote(s)[1..] == Unquote(s[1..])
  {
  }

  // ---- The nested-comment grammar ----

  /** What may stand between an opening marker and its closing one, closing marker included. */
  datatype Body = Close | Plain(c: char, rest: Body) | Nested(inner: Body, rest: Body)

  function Render(b: Body): (s: string)
    ensures |s| >= 2
  {
    match b
    case Close => "*/"
    case Plain(c, rest) => [c] + Render(rest)
    case Nested(inner, rest) => "/*" + Render(inner) + Render(rest)
  }

  /** No plain character starts a marker together with what follows it. */
  predicate Faithful(b: Body) {
    match b
    case Close => true
    case Plain(c, rest) => !("/*" <= Render(b)) && !("*/" <= Render(b)) && Faithful(rest)
    case Nested(inner, rest) => Faithful(inner) && Faithful(rest)
  }

  function Comment(b: Body): string {
    "/*" + Render(b)
  }

  lemma CommentUnfolds(u: string, depth: nat)
    requires u != []
    ensures
      CommentLength(u, depth + 1) ==
        if "/*" <= u then Plus(2, CommentLength(u[2..], depth + 2))
        else if "*/" <= u then Plus(2, CommentLength(u[2..], depth))
        else Plus(1, CommentLength(u[1..], depth + 1))
    ensures CommentLength(u, 0) == Some(0)
  {
  }

  /** The counter reads one body and then stands one level up. */
  lemma {:induction false} BodyClosesOneLevel(b: Body, x: string, depth: nat)
    requires Faithful(b)
    ensures CommentLength(Render(b) + x, depth + 1) == Plus(|Render(b)|, CommentLength(x, depth))
    decreases b
  {
    hide Render, CommentLength;
    match b
    case Close =>
      CloseReads(x, depth);
    case Plain(c, rest) =>
      PlainReads(c, rest, x, depth);
      BodyClosesOneLevel(rest, x, depth);
    case Nested(inner, rest) =>
      var y := Render(rest) + x;
      NestedReads(inner, rest, x, depth);
      BodyClosesOneLevel(inner, y, depth + 1);
      BodyClosesOneLevel(rest, x, depth);
  }

  lemma CloseReads(x: string, depth: nat)
    ensures CommentLength(Render(Close) + x, depth + 1) == Plus(2, CommentLength(x, depth)) && |Render(Close)| == 2
  {
    hide CommentLength;
    var u := "*/" + x;
    CommentUnfolds(u, depth);
    assert u[0] == '*' && u[1] == '/' && u[2..] == x;
  }

  lemma SameMarkers(p: string, x: string)
    requires |p| >= 2
    ensures "/*" <= p + x <==> "/*" <= p
    ensures "*/" <= p + x <==> "*/" <= p
    ensures (p + x)[0] == p[0] && (p + x)[1..] == p[1..] + x && (p + x)[2..] == p[2..] + x
  {
    assert (p + x)[..2] == p[..2];
  }

  lemma PlainReads(c: char, rest: Body, x: string, depth: nat)
    requires Faithful(Plain(c, rest))
    ensures CommentLength(Render(Plain(c, rest)) + x, depth + 1) == Plus(1, CommentLength(Render(rest) + x, depth + 1))
    ensures |Render(Plain(c, rest))| == 1 + |Render(rest)|
  {
    hide CommentLength;
    var r := Render(Plain(c, rest));
    SameMarkers(r, x);
    assert r[1..] == Render(rest);
    CommentUnfolds(r + x, depth);
  }

  lemma NestedReads(inner: Body, rest: Body, x: string, depth: nat)
    ensures CommentLength(Render(Nested(inner, rest)) + x, depth + 1) ==
            Plus(2, CommentLength(Render(inner) + (Render(rest) + x), depth + 2))
    ensures |Render(Nested(inner, rest))| == 2 + |Render(inner)| + |Render(rest)|
  {
    OpenerReads(Render(inner), Render(rest), x, depth);
  }

  lemma OpenerReads(p: string, q: string, x: string, depth: nat)
    ensures CommentLength("/*" + p + q + x, depth + 1) == Plus(2, CommentLength(p + (q + x), depth + 2))
  {
    hide CommentLength;
    var u := "/*" + p + q + x;
    CommentUnfolds(u, depth);
    assert u[2..] == p + (q + x);
    assert u[..2] == "/*";
  }

  /** What closes `depth + 1` levels closes one and then the other `depth`. */
  function InTurn(u: string, depth: nat): Option<nat> {
    var n := CommentLength(u, 1);
    if n.None? then None else Plus(n.value, CommentLength(u[n.value..], depth))
  }

  lemma {:induction false} LevelsCloseInTurn(u: string, depth: nat)
    ensures CommentLength(u, depth + 1) == InTurn(u, depth)
    decreases |u|
  {
    if u != [] {
      hide CommentLength;
      CommentUnfolds(u, depth);
      CommentUnfolds(u, 0);
      if "/*" <= u {
        LevelsCloseInTurn(u[2..], depth + 1);
        LevelsCloseInTurn(u[2..], 1);
        if CommentLength(u[2..], 1).Some? {
          LevelsCloseInTurn(u[2..][CommentLength(u[2..], 1).value..], depth);
        }
        OpenerInTurn(u, depth);
      } else if "*/" <= u {
        EmptyLevels(u[2..]);
      } else {
        LevelsCloseInTurn(u[1..], depth);
        PlainInTurn(u, depth);
      }
    }
  }

  lemma {:induction false} PlainInTurn(u: string, depth: nat)
    requires u != [] && CommentLength(u[1..], depth + 1) == InTurn(u[1..], depth)
    requires CommentLength(u, depth + 1) == Plus(1, CommentLength(u[1..], depth + 1))
    requires CommentLength(u, 1) == Plus(1, CommentLength(u[1..], 1))
    ensures CommentLength(u, depth + 1) == InTurn(u, depth)
  {
    hide CommentLength;
    if CommentLength(u[1..], 1).Some? {
      var m := CommentLength(u[1..], 1).value;
      assert u[1..][m..] == u[1 + m..];
    }
  }

  lemma OpenerInTurn(u: string, depth: nat)
    requires "/*" <= u
    requires CommentLength(u[2..], depth + 2) == InTurn(u[2..], depth + 1)
    requires CommentLength(u[2..], 2) == InTurn(u[2..], 1)
    requires
      var n := CommentLength(u[2..], 1);
      n.Some? ==> CommentLength(u[2..][n.value..], depth + 1) == InTurn(u[2..][n.value..], depth)
    ensures CommentLength(u, depth + 1) == InTurn(u, depth)
  {
    hide CommentLength;
    CommentUnfolds(u, depth);
    CommentUnfolds(u, 0);
    var n := CommentLength(u[2..], 1);
    if n.Some? {
      var v := u[2..][n.value..];
      var k := CommentLength(v, 1);
      if k.Some? {
        assert v[k.value..] == u[2 + n.value + k.value..];
      }
    }
  }

  lemma {:induction false} EmptyLevels(u: string)
    ensures CommentLength(u, 0) == Some(0)
  {
  }

  /** The body that the counter accepted. */
  function Parse(u: string): (b: Body)
    requires CommentLength(u, 1).Some?
    decreases |u|
  {
    if "/*" <= u then
      LevelsCloseInTurn(u[2..], 1);
      var m := CommentLength(u[2..], 1).value;
      Nested(Parse(u[2..]), Parse(u[2..][m..]))
    else if "*/" <= u then Close
    else Plain(u[0], Parse(u[1..]))
  }

  lemma NestedTail(p: string, q: string, x: string)
    ensures ("/*" + p + q + x)[2..] == p + (q + x) && (p + (q + x))[|p|..] == q + x
  {
  }

  lemma {:induction false} ParseUnfolds(u: string)
    requires CommentLength(u, 1).Some?
    ensures u != []
    ensures "*/" <= u ==> Parse(u) == Close
    ensures !("/*" <= u) && !("*/" <= u) ==> CommentLength(u[1..], 1).Some? && Parse(u) == Plain(u[0], Parse(u[1..]))
    ensures
      "/*" <= u ==>
        && CommentLength(u[2..], 1).Some?
        && var v := u[2..][CommentLength(u[2..], 1).value..];
        && CommentLength(v, 1).Some? && Parse(u) == Nested(Parse(u[2..]), Parse(v))
  {
    assert u != [];
    CommentUnfolds(u, 0);
    hide CommentLength;
    if "/*" <= u {
      LevelsCloseInTurn(u[2..], 1);
      assert u[0] == '/';
    }
  }

  lemma {:induction false} ParseRenders(u: string)
    requires CommentLength(u, 1).Some?
    ensures Render(Parse(u)) == u[..CommentLength(u, 1).value]
    ensures Faithful(Parse(u))
    decreases |u|
  {
    hide CommentLength, Faithful, Render, Parse, InTurn;
    ParseUnfolds(u);
    if "/*" <= u {
      ParseRenders(u[2..]);
      ParseRenders(u[2..][CommentLength(u[2..], 1).value..]);
      NestedRenders(u);
    } else if "*/" <= u {
      CloseRenders(u);
    } else {
      ParseRenders(u[1..]);
      PlainRenders(u);
    }
  }

  lemma {:induction false} CloseRenders(u: string)
    requires CommentLength(u, 1).Some? && "*/" <= u
    ensures Render(Parse(u)) == u[..CommentLength(u, 1).value] && Faithful(Parse(u))
  {
    hide CommentLength, Parse;
    ParseUnfolds(u);
    CommentUnfolds(u, 0);
    EmptyLevels(u[2..]);
    CloseIsFaithful();
    assert u[..2] == "*/";
  }

  lemma CloseIsFaithful()
    ensures Render(Close) == "*/" && Faithful(Close)
  {
  }

  lemma {:induction false} PlainUnfolds(c: char, rest: Body)
    ensures Render(Plain(c, rest)) == [c] + Render(rest)
    ensures
      var r := Render(Plain(c, rest));
      Faithful(Plain(c, rest)) <==> !("/*" <= r) && !("*/" <= r) && Faithful(rest)
  {
  }

  lemma {:induction false} PlainRenders(u: string)
    requires CommentLength(u, 1).Some? && !("/*" <= u) && !("*/" <= u) && u != [] && CommentLength(u[1..], 1).Some?
    requires Render(Parse(u[1..])) == u[1..][..CommentLength(u[1..], 1).value] && Faithful(Parse(u[1..]))
    ensures Render(Parse(u)) == u[..CommentLength(u, 1).value] && Faithful(Parse(u))
  {
    hide CommentLength, Parse, Render, Faithful;
    ParseUnfolds(u);
    CommentUnfolds(u, 0);
    PlainUnfolds(u[0], Parse(u[1..]));
    TakeFirst(u, CommentLength(u[1..], 1).value);
  }

  lemma TakeFirst(u: string, m: nat)
    requires m < |u|
    ensures u[..m + 1] == [u[0]] + u[1..][..m]
    ensures m > 0 ==> u[..m + 1][..2] == u[..2]
  {
  }

  lemma {:induction false} NestedUnfolds(inner: Body, rest: Body)
    ensures Render(Nested(inner, rest)) == "/*" + Render(inner) + Render(rest)
    ensures Faithful(Nested(inner, rest)) <==> Faithful(inner) && Faithful(rest)
  {
  }

  lemma {:induction false} NestedRenders(u: string)
    requires CommentLength(u, 1).Some? && "/*" <= u && CommentLength(u[2..], 1).Some?
    requires
      var v := u[2..][CommentLength(u[2..], 1).value..];
      && CommentLength(v, 1).Some?
      && Faithful(Parse(u[2..])) && Render(Parse(u[2..])) == u[2..][..CommentLength(u[2..], 1).value]
      && Faithful(Parse(v)) && Render(Parse(v)) == v[..CommentLength(v, 1).value]
    ensures Render(Parse(u)) == u[..CommentLength(u, 1).value] && Faithful(Parse(u))
  {
    hide CommentLength, Parse, Render, Faithful;
    ParseUnfolds(u);
    CommentUnfolds(u, 0);
    LevelsCloseInTurn(u[2..], 1);
    var m := CommentLength(u[2..], 1).value;
    var k := CommentLength(u[2..][m..], 1).value;
    NestedUnfolds(Parse(u[2..]), Parse(u[2..][m..]));
    assert u[..2 + m + k] == "/*" + u[2..][..m] + u[2..][m..][..k];
  }

  /** The depth counter accepts a text exactly when it starts with a body of the grammar, it stops
    * exactly where that body ends, and the body is unique. */
  lemma {:induction false} CounterAcceptsExactlyTheGrammar(u: string, n: nat)
    requires n <= |u|
    ensures CommentLength(u, 1) == Some(n) <==> exists b :: Faithful(b) && Render(b) == u[..n]
  {
    hide CommentLength, Render, Faithful, Parse;
    if CommentLength(u, 1) == Some(n) {
      ParseRenders(u);
    }
    forall b | Faithful(b) && Render(b) == u[..n]
      ensures CommentLength(u, 1) == Some(n)
    {
      BodyClosesOneLevel(b, u[n..], 0);
      EmptyLevels(u[n..]);
      assert Render(b) + u[n..] == u;
    }
  }

  /** The first two characters of a body tell its form. */
  lemma {:induction false} MarkersTellForm(b: Body)
    requires Faithful(b)
    ensures "/*" <= Render(b) <==> b.Nested?
    ensures "*/" <= Render(b) <==> b.Close?
    ensures b.Plain? ==> Render(b)[0] == b.c && Render(b)[1..] == Render(b.rest)
    ensures b.Nested? ==> Render(b)[2..] == Render(b.inner) + Render(b.rest)
  {
    var r := Render(b);
    match b
    case Close =>
      assert r[0] == '*';
    case Plain(c, rest) =>
    case Nested(inner, rest) =>
      NestedTail(Render(inner), Render(rest), "");
      assert Render(rest) + "" == Render(rest) && "/*" + Render(inner) + Render(rest) + "" == r;
      assert r[..2] == "/*" && r[0] == '/';
  }

  lemma {:induction false} GrammarIsUnambiguous(a: Body, b: Body)
    requires Faithful(a) && Faithful(b) && Render(a) == Render(b)
    ensures a == b
    decreases a
  {
    hide Render, CommentLength;
    MarkersTellForm(a);
    MarkersTellForm(b);
    match a
    case Close =>
    case Plain(_, rest) =>
      GrammarIsUnambiguous(rest, b.rest);
    case Nested(inner, rest) =>
      BodyClosesOneLevel(inner, Render(rest), 0);
      BodyClosesOneLevel(b.inner, Render(b.rest), 0);
      EmptyLevels(Render(rest));
      EmptyLevels(Render(b.rest));
      SplitEqual(Render(inner), Render(rest), Render(b.inner), Render(b.rest));
      GrammarIsUnambiguous(inner, b.inner);
      GrammarIsUnambiguous(rest, b.rest);
  }

  lemma SplitEqual(p: string, q: string, r: string, s: string)
    requires p + q == r + s && |p| == |r|
    ensures p == r && q == s
  {
    assert (p + q)[..|p|] == p && (r + s)[..|r|] == r;
    assert (p + q)[|p|..] == q && (r + s)[|r|..] == s;
  }

  // ---- A piece does not look past its end ----

  /** What may follow a piece that is cut out of `u` after `n` characters: what followed it, or a slash. */
  predicate Follows(u: string, n: nat, y: string) {
    y != [] && (y[0] == '/' || (n < |u| && y[0] == u[n]))
  }

  lemma {:induction false} ValueStable(u: string, quote: char, y: string)
    requires ValueLength(u, quote).Some? && (quote == '\'' || quote == '\"')
    requires Follows(u, ValueLength(u, quote).value, y)
    ensures ValueLength(u[..ValueLength(u, quote).value] + y, quote) == ValueLength(u, quote)
    decreases |u|
  {
    var n := ValueLength(u, quote).value;
    var w := u[..n] + y;
    if (u[0] == quote && |u| > 1 && u[1] == quote) || (u[0] != quote && u[0] == '\\' && |u| > 1) {
      assert w[2..] == u[2..][..n - 2] + y;
      ValueStable(u[2..], quote, y);
    } else if u[0] != quote {
      assert w[1..] == u[1..][..n - 1] + y;
      ValueStable(u[1..], quote, y);
    }
  }

  lemma {:induction false} CommentStable(u: string, depth: nat, y: string)
    requires CommentLength(u, depth).Some?
    ensures CommentLength(u[..CommentLength(u, depth).value] + y, depth) == CommentLength(u, depth)
    decreases |u|
  {
    hide CommentLength;
    if depth == 0 {
      EmptyLevels(u);
      EmptyLevels(u[..0] + y);
    } else {
      CommentNeedsText(depth);
      assert u != [];
      var n := CommentLength(u, depth).value;
      var w := u[..n] + y;
      CommentUnfolds(u, depth - 1);
      if "/*" <= u {
        CommentStable(u[2..], depth + 1, y);
        assert w[2..] == u[2..][..n - 2] + y && w[..2] == u[..2];
      } else if "*/" <= u {
        CommentStable(u[2..], depth - 1, y);
        assert w[2..] == u[2..][..n - 2] + y && w[..2] == u[..2];
      } else {
        CommentStable(u[1..], depth, y);
        CommentAtLeastTwo(u, depth);
        assert w[1..] == u[1..][..n - 1] + y && w[..2] == u[..2];
      }
      CommentUnfolds(w, depth - 1);
    }
  }

  lemma {:induction false} CommentNeedsText(depth: nat)
    requires depth > 0
    ensures CommentLength("", depth).None?
  {
  }

  lemma {:induction false} CommentAtLeastTwo(u: string, depth: nat)
    requires depth > 0 && CommentLength(u, depth).Some?
    ensures CommentLength(u, depth).value >= 2
    decreases |u|
  {
    hide CommentLength;
    CommentNeedsText(depth);
    CommentUnfolds(u, depth - 1);
    if !("/*" <= u) && !("*/" <= u) {
      CommentAtLeastTwo(u[1..], depth);
    }
  }

  lemma {:induction false} WordStable(u: string, y: string)
    requires Follows(u, WordLength(u), y)
    ensures WordLength(u[..WordLength(u)] + y) == WordLength(u)
  {
    var n := WordLength(u);
    if n > 0 {
      assert (u[..n] + y)[1..] == u[1..][..n - 1] + y;
      WordStable(u[1..], y);
    }
  }

  /** Cutting a run of tag characters short shortens it to the cut. */
  lemma {:induction false} RunCut(a: Alphabet, u: string, k: nat, x: string)
    requires k <= RunLength(a, u) && x != [] && !IsTagChar(a, x[0])
    ensures RunLength(a, u[..k] + x) == k
  {
    if k > 0 {
      assert (u[..k] + x)[1..] == u[1..][..k - 1] + x;
      RunCut(a, u[1..], k - 1, x);
    }
  }

  /** A dollar sign that opens no tag still opens none when the text behind it is cut at a comment. */
  lemma NoTagStable(u: string, k: nat, x: string)
    requires 1 <= k <= |u| && u[0] == '$' && TagLength(ASCII, u).None? && x != [] && x[0] == '/'
    ensures TagLength(ASCII, u[..k] + x).None?
  {
    hide RunLength;
    var w := u[..k] + x;
    if k > 1 && (u[1] in ASCII.letters || u[1] == '_') {
      var r := RunLength(ASCII, u[2..]);
      assert w[1] == u[1] && w[2..] == u[2..][..k - 2] + x;
      if r < k - 2 {
        RunStable(ASCII, u[2..], x, k - 2);
        assert w[2 + r] == u[2 + r];
      } else {
        RunCut(ASCII, u[2..], k - 2, x);
        assert w[k] == '/';
      }
    }
  }

  lemma BlockCommentStable(u: string, w: string, y: string)
    requires "/*" <= u && CommentLength(u[2..], 1).Some?
    requires w == u[..2 + CommentLength(u[2..], 1).value] + y
    ensures w[..2] == u[..2] && CommentLength(w[2..], 1) == CommentLength(u[2..], 1)
  {
    hide CommentLength;
    CommentStable(u[2..], 1, y);
    assert w[2..] == u[2..][..CommentLength(u[2..], 1).value] + y;
  }

  lemma QuotedValueStable(u: string, w: string, y: string)
    requires u != [] && (u[0] == '\'' || u[0] == '\"') && ValueLength(u[1..], u[0]).Some?
    requires
      var n := 1 + ValueLength(u[1..], u[0]).value;
      w == u[..n] + y && Follows(u, n, y)
    ensures w != [] && w[0] == u[0] && ValueLength(w[1..], u[0]) == ValueLength(u[1..], u[0])
    ensures u[0] == '\"' ==> Identifier(w) == Identifier(u)
  {
    hide ValueLength, Unquote;
    var n := 1 + ValueLength(u[1..], u[0]).value;
    ValueStable(u[1..], u[0], y);
    assert w[1..] == u[1..][..n - 1] + y;
    assert w[1..n - 1] == u[1..n - 1];
  }

  lemma GuardWordStable(u: string, w: string, y: string)
    requires u != [] && IsWordStart(u[0])
    requires w == u[..Word(u).length] + y && Follows(u, Word(u).length, y)
    ensures w != [] && w[0] == u[0] && Word(w) == Word(u)
  {
    hide WordLength, Upper;
    var n := Word(u).length;
    WordStable(u[1..], y);
    assert w[1..] == u[1..][..n - 1] + y && w[..n] == u[..n];
  }

  /** Cutting the text behind a complete piece and going on with a comment leaves the piece alone. */
  lemma NextStable(u: string, k: nat, x: string)
    requires u != [] && Next(u).Piece? && Next(u).length <= k <= |u| && !OpenLine(u)
    requires x != [] && x[0] == '/'
    ensures Next(u[..k] + x) == Next(u)
  {
    hide ValueLength, CommentLength, TagLength, Find, Unquote, DollarQuote, Word, ASCII;
    var n := Next(u).length;
    var w := u[..k] + x;
    var y := w[n..];
    assert w == u[..n] + y && w[..n] == u[..n];
    assert y[0] == if n < k then u[n] else '/';
    assert Follows(u, n, y);
    if "--" <= u {
      LineStable(u, y);
    } else if "/*" <= u {
      BlockCommentStable(u, w, y);
    } else if u[0] == '\'' || u[0] == '\"' {
      QuotedValueStable(u, w, y);
    } else if u[0] == '$' && TagLength(ASCII, u).Some? {
      DollarQuoteStable(u, w, y);
    } else if u[0] == '$' {
      NoTagStable(u, k, x);
    } else if IsWordStart(u[0]) {
      GuardWordStable(u, w, y);
    } else {
      assert w[0] == u[0] && w[1] == y[0];
    }
  }

  lemma LineStable(u: string, y: string)
    requires "--" <= u && !OpenLine(u)
    ensures Next(u[..Next(u).length] + y) == Next(u)
  {
    hide Find;
    var n := Next(u).length;
    var w := u[..n] + y;
    assert w[2..] == u[2..][..n - 2] + y && w[..2] == u[..2];
    FindStable(u[2..], "\n", y);
  }

  lemma DollarQuoteStable(u: string, w: string, y: string)
    requires u != [] && u[0] == '$' && TagLength(ASCII, u).Some? && DollarQuote(u).Piece?
    requires w == u[..DollarQuote(u).length] + y
    ensures w != [] && w[0] == '$' && TagLength(ASCII, w).Some? && DollarQuote(w) == DollarQuote(u)
  {
    hide Find, TagLength;
    var n, t := DollarQuote(u).length, TagLength(ASCII, u).value;
    TagStable(ASCII, u, u[..n], y);
    assert w[..t] == u[..t] && w[t..] == u[t..][..n - t] + y;
    FindStable(u[t..], u[..t], y);
  }

  // ---- Comments between pieces do not matter ----

  /** `k` is a position between two pieces, reached without a refusal. */
  predicate Between(u: string, k: nat)
    decreases |u|
  {
    k == 0 || (u != [] && Next(u).Piece? && Next(u).length <= k && Between(u[Next(u).length..], k - Next(u).length))
  }

  /** The text tokenises and its last piece is a line comment without a newline. */
  predicate EndsInOpenLine(u: string)
    decreases |u|
  {
    u != [] && Next(u).Piece? && (OpenLine(u) || EndsInOpenLine(u[Next(u).length..]))
  }

  lemma {:induction false} CommentIsOnePiece(b: Body, x: string)
    requires Faithful(b)
    ensures Comment(b) + x != [] && Next(Comment(b) + x) == Piece(|Comment(b)|, None)
  {
    hide Render, Faithful, CommentLength;
    var u := Comment(b) + x;
    BodyClosesOneLevel(b, x, 0);
    EmptyLevels(x);
    assert u[2..] == Render(b) + x && u[..2] == "/*" && u[0] == '/';
    assert CommentLength(u[2..], 1) == Some(|Render(b)|);
    assert !("--" <= u) && "/*" <= u;
  }

  /** A well-nested comment put between two pieces changes no token; at the very end of the text
    * this needs that no line comment is still open there. */
  lemma {:induction false} CommentsDoNotMatter(u: string, k: nat, b: Body)
    requires k <= |u| && Between(u, k) && Faithful(b)
    requires k < |u| || !EndsInOpenLine(u)
    ensures Tokens(u[..k] + Comment(b) + u[k..]) == Tokens(u)
    decreases |u|
  {
    hide Tokens, Next, Comment, OpenLine;
    var x := Comment(b) + u[k..];
    var w := u[..k] + x;
    assert u[..k] + Comment(b) + u[k..] == w;
    if k == 0 {
      CommentIsOnePiece(b, u);
      assert w == Comment(b) + u && w[|Comment(b)|..] == u;
      TokensStep(w);
      assert Tokens(u).Some? ==> [] + Tokens(u).value == Tokens(u).value;
    } else {
      var n := Next(u).length;
      assert n == |u| ==> k == |u|;
      OpenLineIsLast(u);
      CommentStartsWithSlash(b, u[k..]);
      NextStable(u, k, x);
      CommentsDoNotMatter(u[n..], k - n, b);
      assert u[n..][..k - n] + Comment(b) + u[n..][k - n..] == w[n..];
      TokensStep(w);
      TokensStep(u);
    }
  }

  lemma OpenLineIsLast(u: string)
    ensures OpenLine(u) ==> Next(u) == Piece(|u|, None)
  {
  }

  lemma CommentStartsWithSlash(b: Body, x: string)
    ensures Comment(b) + x != [] && (Comment(b) + x)[0] == '/'
  {
  }

  /** Hence the guard's verdict does not depend on such comments. */
  lemma {:induction false} CommentsKeepVerdict(u: string, k: nat, b: Body)
    requires k <= |u| && Between(u, k) && Faithful(b)
    requires k < |u| || !EndsInOpenLine(u)
    ensures GuardAccepts(u[..k] + Comment(b) + u[k..]) <==> GuardAccepts(u)
  {
    CommentsDoNotMatter(u, k, b);
  }

  /** A comment whose second line reads as a statement separator. */
  const LEAK: Body := Plain('\n', Plain(';', Close))

  lemma {:induction false} NewlineFound(p: string, x: string)
    requires Find(p, "\n").None?
    ensures Find(p + "\n" + x, "\n") == Some(|p|)
  {
    var u := p + "\n" + x;
    if p == [] {
      assert u[..1] == "\n";
    } else {
      assert u[1..] == p[1..] + "\n" + x && u[0] == p[0];
      assert !("\n" <= p) && p[..1] == [p[0]];
      NewlineFound(p[1..], x);
    }
  }

  lemma LeakedTokens()
    ensures Tokens(";*/") == Some([";"])
  {
    var u, v, w := ";*/", "*/", "/";
    assert u[1..] == v && v[1..] == w && w[1..] == "";
    assert u[0] == ';' && v[0] == '*' && w[0] == '/';
    assert Next(u) == Piece(1, Some(";")) && Next(v) == Piece(1, None) && Next(w) == Piece(1, None);
    TokensStep(u);
    TokensStep(v);
    TokensStep(w);
    assert [";"] + [] == [";"];
  }

  lemma {:induction false} OpenLineSwallowsStart(u: string)
    requires OpenLine(u)
    ensures Tokens(u) == Some([]) && Tokens(u + Comment(LEAK)) == Some([";"])
  {
    hide Find, Comment, Tokens, LEAK;
    assert u[|u|..] == [];
    EmptyTokens();
    TokensStep(u);
    var w := u + Comment(LEAK);
    LeakText();
    NewlineFound(u[2..] + "/*", ";*/") by {
      NoNewlineAdded(u[2..]);
    }
    assert w[2..] == u[2..] + "/*" + "\n" + ";*/" && w[..2] == u[..2];
    assert Next(w) == Piece(|u| + 3, None);
    assert w[|u| + 3..] == ";*/";
    LeakedTokens();
    TokensStep(w);
  }

  lemma EmptyTokens()
    ensures Tokens("") == Some([])
  {
  }

  lemma LeakText()
    ensures Comment(LEAK) == "/*" + "\n" + ";*/" && Faithful(LEAK)
  {
    var p, r := Render(Plain(';', Close)), Render(LEAK);
    assert p == ";*/" && r == "\n;*/";
    assert p[0] == ';' && r[0] == '\n';
  }

  lemma {:induction false} NoNewlineAdded(p: string)
    requires Find(p, "\n").None?
    ensures Find(p + "/*", "\n").None?
  {
    var u := p + "/*";
    if p == [] {
      var v := u[1..];
      assert u[0] == '/' && v == "*" && v[0] == '*' && v[1..] == "";
    } else {
      assert u[1..] == p[1..] + "/*" && u[0] == p[0];
      assert !("\n" <= p) && p[..1] == [p[0]];
      NoNewlineAdded(p[1..]);
    }
  }

  lemma {:induction false} OpenLineLeaks(u: string)
    requires EndsInOpenLine(u)
    ensures Tokens(u).Some? && Tokens(u + Comment(LEAK)) == Some(Tokens(u).value + [";"])
    decreases |u|
  {
    hide Tokens, Next, Comment, OpenLine;
    if OpenLine(u) {
      OpenLineSwallowsStart(u);
      assert [] + [";"] == [";"];
    } else {
      var n, x := Next(u).length, Comment(LEAK);
      var w := u + x;
      CommentStartsWithSlash(LEAK, "");
      assert x + "" == x && u[..|u|] + x == w;
      NextStable(u, |u|, x);
      OpenLineLeaks(u[n..]);
      assert w[n..] == u[n..] + x;
      TokensStep(u);
      TokensStep(w);
      JoinedTwice(Listed(Next(u).token), Tokens(u[n..]).value, Some([";"]));
    }
  }

  lemma {:induction false} EndIsBetween(u: string)
    requires Tokens(u).Some?
    ensures Between(u, |u|)
    decreases |u|
  {
    if u != [] {
      EndIsBetween(u[Next(u).length..]);
    }
  }

  /** At the end of a text that tokenises, every well-nested comment is harmless exactly when no
    * line comment is open there. */
  lemma {:induction false} CommentsAtTheEndExactly(u: string)
    requires Tokens(u).Some?
    ensures (forall b :: Faithful(b) ==> Tokens(u + Comment(b)) == Tokens(u)) <==> !EndsInOpenLine(u)
  {
    hide Tokens, Comment, Between, Faithful;
    EndIsBetween(u);
    if EndsInOpenLine(u) {
      OpenLineLeaks(u);
      LeakText();
    } else {
      forall b | Faithful(b)
        ensures Tokens(u + Comment(b)) == Tokens(u)
      {
        CommentsDoNotMatter(u, |u|, b);
        assert u[..|u|] + Comment(b) + u[|u|..] == u + Comment(b);
      }
    }
  }
}
