/** The SQL text normaliser: whitespace runs outside quoted tokens become one space, and leading and
  * trailing whitespace goes away.
  *
  * The scanners are specified on suffixes of the text: the length of the quoted token that starts
  * a suffix, if one does. Lexing yields fragments, each with a flag for the gap before it. The main
  * result is that the normaliser prints a text whose lexing is that of its input.
  */
module SqlNormalizer {
  import opened SqlGrammar
  import opened TextSearch
  import opened Wrappers

  // ---- Quoted tokens ----

  /** Length up to and including the closing delimiter, from just after the opening one. */
  function StringLength(u: string, d: char, escapes: bool): (n: Option<nat>)
    ensures n.Some? ==> 1 <= n.value <= |u|
  {
    if u == [] then None
    else if escapes && u[0] == '\\' then if |u| < 2 then None else Plus(2, StringLength(u[2..], d, escapes))
    else if u[0] == d then
      if |u| > 1 && u[1] == d then Plus(2, StringLength(u[2..], d, escapes)) else Some(1)
    else Plus(1, StringLength(u[1..], d, escapes))
  }

  function RunLength(a: Alphabet, u: string): (n: nat)
    ensures n <= |u| && (forall i :: 0 <= i < n ==> IsTagChar(a, u[i]))
    ensures n < |u| ==> !IsTagChar(a, u[n])
  {
    if u == [] || !IsTagChar(a, u[0]) then 0 else 1 + RunLength(a, u[1..])
  }

  /** Length of the opening dollar delimiter at the start of `u`, if there is one. */
  function TagLength(a: Alphabet, u: string): (n: Option<nat>)
    requires u != [] && u[0] == '$'
    ensures n.Some? ==> 2 <= n.value <= |u| && u[n.value - 1] == '$'
    ensures n.Some? ==> forall i :: 1 <= i < n.value - 1 ==> IsTagChar(a, u[i])
  {
    if |u| == 1 then None
    else if u[1] == '$' then Some(2)
    else if u[1] !in a.letters && u[1] != '_' then None
    else
      var n := 2 + RunLength(a, u[2..]);
      if n < |u| && u[n] == '$' then Some(n + 1) else None
  }

  function DollarLength(a: Alphabet, u: string): (n: Option<nat>)
    requires u != [] && u[0] == '$'
    ensures n.Some? ==> 2 <= n.value <= |u|
  {
    var tag := TagLength(a, u);
    if tag.None? then None else Plus(tag.value + tag.value, Find(u[tag.value..], u[..tag.value]))
  }

  /** Length of the quoted token that starts `u`; None also when it is unterminated. */
  function QuotedLength(a: Alphabet, u: string): (n: Option<nat>)
    requires u != []
    ensures n.Some? ==> 1 <= n.value <= |u|
  {
    if "E'" <= u then Plus(2, StringLength(u[2..], '\'', true))
    else if u[0] == '\'' || u[0] == '\"' then Plus(1, StringLength(u[1..], u[0], false))
    else if u[0] == '$' then DollarLength(a, u)
    else None
  }

  // ---- Lexing and printing ----

  datatype Token = Token(gap: bool, text: string)

  function Lex(a: Alphabet, u: string, pending: bool): seq<Token>
    decreases |u|
  {
    if u == [] then []
    else
      var n := QuotedLength(a, u);
      if n.Some? then [Token(pending, u[..n.value])] + Lex(a, u[n.value..], false)
      else if u[0] in a.spaces then Lex(a, u[1..], true)
      else [Token(pending, u[..1])] + Lex(a, u[1..], false)
  }

  function Print(tokens: seq<Token>, started: bool): string {
    if tokens == [] then ""
    else (if started && tokens[0].gap then " " else "") + tokens[0].text + Print(tokens[1..], true)
  }

  function Normalize(a: Alphabet, v: string): string {
    Print(Lex(a, v, false), false)
  }

  /** The fragments of a text and the gaps between them; a gap before the first one means nothing. */
  function Tokens(a: Alphabet, v: string): seq<Token> {
    var tokens := Lex(a, v, false);
    if tokens == [] then [] else [tokens[0].(gap := false)] + tokens[1..]
  }

  // ---- The loops ----

  lemma {:induction false} StringStep(value: string, i: nat, d: char, escapes: bool)
    requires i <= |value|
    ensures
      StringLength(value[i..], d, escapes) ==
        if i == |value| then None
        else if escapes && value[i] == '\\' then
          if i + 2 <= |value| then Plus(2, StringLength(value[i + 2..], d, escapes)) else None
        else if value[i] == d then
          if i + 1 < |value| && value[i + 1] == d then Plus(2, StringLength(value[i + 2..], d, escapes)) else Some(1)
        else Plus(1, StringLength(value[i + 1..], d, escapes))
  {
    if i < |value| {
      var u := value[i..];
      assert |u| > 1 ==> u[2..] == value[i + 2..];
      assert u[1..] == value[i + 1..];
    }
  }

  method StringTokenEnd(value: string, start: nat, d: char, escapes: bool) returns (end: Option<nat>)
    requires start <= |value|
    ensures end == Plus(start, StringLength(value[start..], d, escapes))
  {
    hide StringLength;
    var index := start;
    while index < |value|
      invariant start <= index
      invariant StringLength(value[start..], d, escapes) ==
        if index <= |value| then Plus(index - start, StringLength(value[index..], d, escapes)) else None
      decreases |value| - index
    {
      StringStep(value, index, d, escapes);
      if escapes && value[index] == '\\' {
        index := index + 2;
        continue;
      }
      if value[index] == d {
        if index + 1 < |value| && value[index + 1] == d {
          index := index + 2;
          continue;
        }
        return Some(index + 1);
      }
      index := index + 1;
    }
    StringStep(value, |value|, d, escapes);
    return None;
  }

  /** The opening delimiter, which is the first half of the dollar scanner. */
  method DollarTagEnd(a: Alphabet, value: string, start: nat) returns (end: Option<nat>)
    requires start < |value| && value[start] == '$'
    ensures end == Plus(start, TagLength(a, value[start..]))
  {
    ghost var u := value[start..];
    var tagEnd := start + 1;
    if tagEnd < |value| && value[tagEnd] != '$' {
      if !(value[tagEnd] in a.letters || value[tagEnd] == '_') {
        return None;
      }
      tagEnd := tagEnd + 1;
      assert u[2..] == value[tagEnd..];
      while tagEnd < |value| && (value[tagEnd] in a.alphanumerics || value[tagEnd] == '_')
        invariant start + 2 <= tagEnd <= |value|
        invariant RunLength(a, u[2..]) == tagEnd - start - 2 + RunLength(a, value[tagEnd..])
      {
        assert value[tagEnd..][1..] == value[tagEnd + 1..];
        tagEnd := tagEnd + 1;
      }
    }
    if tagEnd >= |value| || value[tagEnd] != '$' {
      return None;
    }
    return Some(tagEnd + 1);
  }

  method DollarTokenEnd(a: Alphabet, value: string, start: nat) returns (end: Option<nat>)
    requires start < |value| && value[start] == '$'
    ensures end == Plus(start, DollarLength(a, value[start..]))
  {
    var bodyStart := DollarTagEnd(a, value, start);
    if bodyStart.None? {
      return None;
    }
    var delimiter := value[start..bodyStart.value];
    assert delimiter == value[start..][..bodyStart.value - start];
    assert value[bodyStart.value..] == value[start..][bodyStart.value - start..];
    var closing := Find(value[bodyStart.value..], delimiter);
    return if closing.None? then None else Some(bodyStart.value + closing.value + |delimiter|);
  }

  method QuotedTokenEnd(a: Alphabet, value: string, start: nat) returns (end: Option<nat>)
    requires start < |value|
    ensures end == Plus(start, QuotedLength(a, value[start..]))
  {
    var u := value[start..];
    if start + 1 < |value| && value[start..start + 2] == "E'" {
      assert "E'" <= u && u[2..] == value[start + 2..];
      end := StringTokenEnd(value, start + 2, '\'', true);
    } else if value[start] == '\'' || value[start] == '\"' {
      assert u[1..] == value[start + 1..];
      end := StringTokenEnd(value, start + 1, value[start], false);
    } else if value[start] == '$' {
      end := DollarTokenEnd(a, value, start);
    } else {
      end := None;
    }
  }

  function Concat(parts: seq<string>): string {
    if parts == [] then "" else Concat(parts[..|parts| - 1]) + parts[|parts| - 1]
  }

  lemma {:induction false} ConcatSnoc(parts: seq<string>, part: string)
    ensures Concat(parts + [part]) == Concat(parts) + part
  {
    assert (parts + [part])[..|parts|] == parts;
  }

  /** One step of the lexer, as the printer sees it. */
  lemma PrintStep(a: Alphabet, u: string, pending: bool, started: bool)
    requires u != []
    ensures
      var n := QuotedLength(a, u);
      var printed := Print(Lex(a, u, pending), started);
      if n.None? && u[0] in a.spaces then printed == Print(Lex(a, u[1..], true), started)
      else
        var k := if n.Some? then n.value else 1;
        printed == (if started && pending then " " else "") + u[..k] + Print(Lex(a, u[k..], false), true)
  {
    var n := QuotedLength(a, u);
    if n.Some? || u[0] !in a.spaces {
      var k := if n.Some? then n.value else 1;
      assert Lex(a, u, pending) == [Token(pending, u[..k])] + Lex(a, u[k..], false);
      assert Lex(a, u, pending)[1..] == Lex(a, u[k..], false);
    }
  }

  /** The loop's two kinds of step keep the text emitted so far and the text still to print. */
  lemma {:induction false} SkipStep(a: Alphabet, value: string, index: nat, pending: bool, started: bool)
    requires index < |value| && QuotedLength(a, value[index..]).None? && value[index] in a.spaces
    ensures Print(Lex(a, value[index..], pending), started) == Print(Lex(a, value[index + 1..], true), started)
  {
    PrintStep(a, value[index..], pending, started);
    assert value[index..][1..] == value[index + 1..];
  }

  lemma {:induction false} EmitStep(a: Alphabet, value: string, index: nat, next: nat, pending: bool, output: seq<string>)
    requires index < next <= |value|
    requires
      var n := QuotedLength(a, value[index..]);
      if n.Some? then next == index + n.value else value[index] !in a.spaces && next == index + 1
    ensures
      var spaced := if pending && output != [] then output + [" "] else output;
      Concat(spaced + [value[index..next]]) + Print(Lex(a, value[next..], false), true) ==
      Concat(output) + Print(Lex(a, value[index..], pending), output != [])
  {
    hide Lex, Print, QuotedLength, Concat;
    var u := value[index..];
    PrintStep(a, u, pending, output != []);
    assert u[..next - index] == value[index..next] && u[next - index..] == value[next..];
    var spaced := if pending && output != [] then output + [" "] else output;
    ConcatSnoc(output, " ");
    ConcatSnoc(spaced, value[index..next]);
    var sep := if output != [] && pending then " " else "";
    var rest := Print(Lex(a, value[next..], false), true);
    assert Concat(spaced) == Concat(output) + sep;
    assert Concat(output) + sep + value[index..next] + rest == Concat(output) + (sep + value[index..next] + rest);
  }

  method NormalizeSqlText(a: Alphabet, value: string) returns (r: string)
    ensures r == Normalize(a, value)
  {
    var output: seq<string> := [];
    var pending, index := false, 0;
    while index < |value|
      invariant index <= |value|
      invariant Concat(output) + Print(Lex(a, value[index..], pending), output != []) == Normalize(a, value)
      decreases |value| - index
    {
      var end := QuotedTokenEnd(a, value, index);
      var next := index + 1;
      if end.Some? {
        next := end.value;
      } else if value[index] in a.spaces {
        SkipStep(a, value, index, pending, output != []);
        pending, index := true, next;
        continue;
      }
      EmitStep(a, value, index, next, pending, output);
      if pending && output != [] {
        output := output + [" "];
      }
      output := output + [value[index..next]];
      pending, index := false, next;
    }
    r := Concat(output);
  }

  // ---- Squeezing: what a scan cannot see ----

  /** Every whitespace run becomes one space, inside quotes too, and trailing whitespace goes. */
  function Squeeze(a: Alphabet, u: string): string {
    if u == [] then ""
    else
      var rest := Squeeze(a, u[1..]);
      if u[0] !in a.spaces then [u[0]] + rest
      else if rest == "" || rest[0] == ' ' then rest
      else [' '] + rest
  }

  lemma {:induction false} SqueezeAppend(a: Alphabet, p: string, x: string, y: string)
    requires Squeeze(a, x) == Squeeze(a, y)
    ensures Squeeze(a, p + x) == Squeeze(a, p + y)
  {
    if p == [] {
      assert p + x == x && p + y == y;
    } else {
      assert (p + x)[1..] == p[1..] + x && (p + y)[1..] == p[1..] + y;
      SqueezeAppend(a, p[1..], x, y);
    }
  }

  /** Squeezing starts with the first character, or with nothing or a space in its place. */
  lemma {:induction false} SqueezeFirst(a: Alphabet, u: string)
    requires u != []
    ensures u[0] !in a.spaces ==> Squeeze(a, u) == [u[0]] + Squeeze(a, u[1..])
    ensures u[0] in a.spaces ==> Squeeze(a, u) == "" || Squeeze(a, u)[0] == ' '
  {
  }

  /** Whether a string token is terminated does not depend on whitespace runs. */
  lemma {:induction false} SqueezeKeepsStrings(a: Alphabet, u: string, d: char, escapes: bool)
    requires d == '\'' || d == '\"'
    ensures StringLength(u, d, escapes).None? <==> StringLength(Squeeze(a, u), d, escapes).None?
    decreases |u|
  {
    if u != [] {
      SqueezeKeepsStrings(a, u[1..], d, escapes);
      if |u| > 1 {
        SqueezeKeepsStrings(a, u[2..], d, escapes);
        assert u[1..][1..] == u[2..];
      }
      SqueezeKeepsStringStep(a, u, d, escapes);
    }
  }

  predicate Unterminated(u: string, d: char, escapes: bool) {
    StringLength(u, d, escapes).None?
  }

  lemma {:induction false} SqueezeKeepsStringStep(a: Alphabet, u: string, d: char, escapes: bool)
    requires u != [] && (d == '\'' || d == '\"')
    requires Unterminated(u[1..], d, escapes) <==> Unterminated(Squeeze(a, u[1..]), d, escapes)
    requires |u| > 1 ==> (Unterminated(u[2..], d, escapes) <==> Unterminated(Squeeze(a, u[2..]), d, escapes))
    ensures Unterminated(u, d, escapes) <==> Unterminated(Squeeze(a, u), d, escapes)
  {
    hide Squeeze, IsSymbol;
    var w, rest := Squeeze(a, u), Squeeze(a, u[1..]);
    SqueezeCons(a, u);
    if u[0] in a.spaces {
      assert !IsSymbol(u[0]) && !IsSymbol(' ');
      SpaceInString(u, d, escapes);
      if w != rest {
        SpaceInString(w, d, escapes);
      }
    } else if |u| > 1 {
      SqueezeTwo(a, u);
    } else {
      assert u == [u[0]] && rest == "" && w == u;
    }
  }

  lemma {:induction false} SqueezeCons(a: Alphabet, u: string)
    requires u != []
    ensures
      var w, rest := Squeeze(a, u), Squeeze(a, u[1..]);
      if u[0] in a.spaces then w == rest || (w != [] && w[0] == ' ' && w[1..] == rest)
      else w != [] && w[0] == u[0] && w[1..] == rest
    ensures |u| == 1 ==> Squeeze(a, u[1..]) == ""
  {
    if u[0] !in a.spaces {
      assert Squeeze(a, u) == [u[0]] + Squeeze(a, u[1..]);
    }
  }

  lemma SpaceInString(u: string, d: char, escapes: bool)
    requires u != [] && !IsSymbol(u[0]) && IsSymbol(d)
    ensures Unterminated(u, d, escapes) <==> Unterminated(u[1..], d, escapes)
  {
  }

  /** What follows a first character that is not a space. */
  lemma {:induction false} SqueezeTwo(a: Alphabet, u: string)
    requires |u| > 1 && u[0] !in a.spaces
    ensures
      var w, rest := Squeeze(a, u), Squeeze(a, u[2..]);
      if u[1] !in a.spaces then |w| > 1 && w[1] == u[1] && w[2..] == rest
      else if rest == "" then |w| == 1
      else |w| > 1 && w[1] == ' ' && (w[2..] == rest || (rest[0] == ' ' && w[2..] == rest[1..]))
  {
    SqueezeFirst(a, u);
    SqueezeFirst(a, u[1..]);
    assert u[1..][1..] == u[2..];
  }

  /** Text without whitespace is a prefix, and occurs, in the squeezed text as in the original. */
  lemma {:induction false} SqueezeKeepsPrefix(a: Alphabet, u: string, d: string)
    requires forall i :: 0 <= i < |d| ==> d[i] !in a.spaces
    ensures d <= u <==> d <= Squeeze(a, u)
    ensures d <= u ==> Squeeze(a, u)[|d|..] == Squeeze(a, u[|d|..])
  {
    if d == [] {
      assert u[0..] == u;
    } else if u != [] {
      SqueezeFirst(a, u);
      SqueezeKeepsPrefix(a, u[1..], d[1..]);
      var w := Squeeze(a, u);
      if u[0] !in a.spaces {
        assert w[1..] == Squeeze(a, u[1..]);
        assert d <= u <==> d[0] == u[0] && d[1..] <= u[1..];
        assert d <= w <==> d[0] == w[0] && d[1..] <= w[1..];
        if d <= u {
          assert u[1..][|d| - 1..] == u[|d|..];
          assert w[1..][|d| - 1..] == w[|d|..];
        }
      }
    }
  }

  lemma {:induction false} SqueezeKeepsFind(a: Alphabet, u: string, d: string)
    requires d != [] && forall i :: 0 <= i < |d| ==> d[i] !in a.spaces
    ensures Find(u, d).None? <==> Find(Squeeze(a, u), d).None?
  {
    SqueezeKeepsPrefix(a, u, d);
    if u != [] && !(d <= u) {
      SqueezeFirst(a, u);
      SqueezeKeepsFind(a, u[1..], d);
      var w, rest := Squeeze(a, u), Squeeze(a, u[1..]);
      assert w == rest || w[1..] == rest;
    }
  }

  lemma {:induction false} SqueezeKeepsRun(a: Alphabet, u: string)
    ensures RunLength(a, Squeeze(a, u)) == RunLength(a, u)
    ensures var n := RunLength(a, u);
      (n < |u| && u[n] == '$') <==> (n < |Squeeze(a, u)| && Squeeze(a, u)[n] == '$')
  {
    if u != [] {
      SqueezeFirst(a, u);
      SqueezeKeepsRun(a, u[1..]);
      var w := Squeeze(a, u);
      if u[0] !in a.spaces {
        assert w[1..] == Squeeze(a, u[1..]);
      }
    }
  }

  lemma NoTagBeforeSpace(a: Alphabet, u: string)
    requires u != [] && u[0] == '$' && (|u| == 1 || u[1] in a.spaces)
    ensures TagLength(a, u).None?
  {
    assert |u| > 1 ==> !IsSymbol(u[1]);
  }

  lemma {:induction false} SameTag(a: Alphabet, u: string, w: string)
    requires |u| > 1 && |w| > 1 && u[0] == w[0] == '$' && u[1] == w[1]
    requires RunLength(a, u[2..]) == RunLength(a, w[2..])
    requires var n := RunLength(a, u[2..]);
      (n < |u[2..]| && u[2..][n] == '$') <==> (n < |w[2..]| && w[2..][n] == '$')
    ensures TagLength(a, u) == TagLength(a, w)
  {
  }

  lemma {:induction false} SqueezeKeepsTag(a: Alphabet, u: string)
    requires u != [] && u[0] == '$'
    ensures Squeeze(a, u) != [] && Squeeze(a, u)[0] == '$'
    ensures TagLength(a, u) == TagLength(a, Squeeze(a, u))
  {
    assert Squeeze(a, "") == "";
    hide RunLength, Squeeze, TagLength;
    var w := Squeeze(a, u);
    assert IsSymbol(u[0]);
    SqueezeFirst(a, u);
    if |u| == 1 {
      NoTagBeforeSpace(a, u);
      NoTagBeforeSpace(a, w);
    } else {
      SqueezeFirst(a, u[1..]);
      if u[1] in a.spaces {
        NoTagBeforeSpace(a, u);
        NoTagBeforeSpace(a, w);
      } else {
        assert u[1..][1..] == u[2..] && w[2..] == Squeeze(a, u[2..]);
        SqueezeKeepsRun(a, u[2..]);
        SameTag(a, u, w);
      }
    }
  }

  lemma {:induction false} SqueezeKeepsDollars(a: Alphabet, u: string)
    requires u != [] && u[0] == '$'
    ensures Squeeze(a, u) != [] && Squeeze(a, u)[0] == '$'
    ensures DollarLength(a, u).None? <==> DollarLength(a, Squeeze(a, u)).None?
  {
    SqueezeKeepsTag(a, u);
    var w, tag := Squeeze(a, u), TagLength(a, u);
    if tag.Some? {
      var d := u[..tag.value];
      assert d[0] == d[|d| - 1] == '$' && IsSymbol('$') && IsSymbol('_');
      assert forall i :: 0 <= i < |d| ==> d[i] !in a.spaces;
      SqueezeKeepsPrefix(a, u, d);
      assert d <= u && w[..tag.value] == d;
      SqueezeKeepsFind(a, u[tag.value..], d);
    }
  }

  /** Whether a quoted token starts here does not depend on whitespace runs. */
  lemma {:induction false} SqueezeKeepsQuoted(a: Alphabet, u: string)
    requires u != [] && u[0] !in a.spaces
    ensures Squeeze(a, u) != [] && Squeeze(a, u)[0] == u[0]
    ensures QuotedLength(a, u).None? <==> QuotedLength(a, Squeeze(a, u)).None?
  {
    var w := Squeeze(a, u);
    SqueezeFirst(a, u);
    SqueezeKeepsPrefix(a, u, "E'");
    assert w[1..] == Squeeze(a, u[1..]);
    if "E'" <= u {
      SqueezeKeepsStrings(a, u[2..], '\'', true);
    } else if u[0] == '\'' || u[0] == '\"' {
      SqueezeKeepsStrings(a, u[1..], u[0], false);
    } else if u[0] == '$' {
      SqueezeKeepsDollars(a, u);
    }
  }

  /** Two texts with the same first character and the same squeezed form start a token together. */
  lemma {:induction false} SameSqueezeSameStart(a: Alphabet, u: string, w: string)
    requires u != [] && w != [] && u[0] == w[0] && u[0] !in a.spaces && Squeeze(a, u) == Squeeze(a, w)
    ensures QuotedLength(a, u).None? <==> QuotedLength(a, w).None?
  {
    SqueezeKeepsQuoted(a, u);
    SqueezeKeepsQuoted(a, w);
  }

  // ---- A complete token does not look past its end ----

  predicate StartsLike(a: Alphabet, x: string, y: string) {
    x == [] || x[0] in a.spaces || (y != [] && x[0] == y[0])
  }

  /** Cutting a text behind a place and going on differently leaves what stands before it. */
  lemma CutBehind(u: string, t: nat, n: nat, x: string)
    requires t <= n <= |u|
    ensures (u[..n] + x)[..t] == u[..t] && (u[..n] + x)[t..] == u[t..][..n - t] + x
    ensures u[t..][n - t..] == u[n..]
    ensures forall i :: 0 <= i < n ==> (u[..n] + x)[i] == u[i]
  {
  }

  lemma {:induction false} StringStable(a: Alphabet, u: string, d: char, escapes: bool, x: string)
    requires d == '\'' || d == '\"'
    requires StringLength(u, d, escapes).Some?
    requires StartsLike(a, x, u[StringLength(u, d, escapes).value..])
    ensures StringLength(u[..StringLength(u, d, escapes).value] + x, d, escapes) == StringLength(u, d, escapes)
    decreases |u|
  {
    hide StringLength;
    var n := StringLength(u, d, escapes).value;
    var w := u[..n] + x;
    assert u[0..] == u && w[0..] == w;
    StringStep(u, 0, d, escapes);
    StringStep(w, 0, d, escapes);
    assert w[0] == u[0];
    if (escapes && u[0] == '\\') || (u[0] == d && |u| > 1 && u[1] == d) {
      CutBehind(u, 2, n, x);
      StringStable(a, u[2..], d, escapes, x);
    } else if u[0] != d {
      CutBehind(u, 1, n, x);
      StringStable(a, u[1..], d, escapes, x);
    }
  }

  lemma {:induction false} RunStable(a: Alphabet, u: string, x: string, k: nat)
    requires RunLength(a, u) < k <= |u|
    ensures RunLength(a, u[..k] + x) == RunLength(a, u)
  {
    if u != [] && IsTagChar(a, u[0]) {
      assert (u[..k] + x)[1..] == u[1..][..k - 1] + x;
      RunStable(a, u[1..], x, k - 1);
    }
  }

  lemma TagStable(a: Alphabet, u: string, p: string, x: string)
    requires u != [] && u[0] == '$' && TagLength(a, u).Some? && p <= u && TagLength(a, u).value <= |p|
    ensures TagLength(a, p + x) == TagLength(a, u)
  {
    hide RunLength;
    var w := p + x;
    assert w[0] == u[0] && w[1] == u[1];
    if u[1] != '$' {
      assert w[2..] == u[2..][..|p| - 2] + x;
      RunStable(a, u[2..], x, |p| - 2);
      var n := RunLength(a, u[2..]);
      assert w[2 + n] == u[2 + n];
    }
  }

  lemma DollarStable(a: Alphabet, u: string, x: string)
    requires u != [] && u[0] == '$' && DollarLength(a, u).Some?
    ensures DollarLength(a, u[..DollarLength(a, u).value] + x) == DollarLength(a, u)
  {
    hide TagLength, Find;
    var n, t := DollarLength(a, u).value, TagLength(a, u).value;
    var f := Find(u[t..], u[..t]).value;
    assert n == t + t + f;
    TagStable(a, u, u[..n], x);
    CutBehind(u, t, n, x);
    FindStable(u[t..], u[..t], x);
  }

  lemma {:induction false} PrefixedStringStable(a: Alphabet, u: string, p: nat, d: char, escapes: bool, x: string)
    requires p < |u| && (d == '\'' || d == '\"') && StringLength(u[p..], d, escapes).Some?
    requires StartsLike(a, x, u[p + StringLength(u[p..], d, escapes).value..])
    ensures
      var n := p + StringLength(u[p..], d, escapes).value;
      StringLength((u[..n] + x)[p..], d, escapes) == StringLength(u[p..], d, escapes)
  {
    var m := StringLength(u[p..], d, escapes).value;
    StringStable(a, u[p..], d, escapes, x) by {
      assert u[p..][m..] == u[p + m..];
    }
    assert (u[..p + m] + x)[p..] == u[p..][..m] + x;
  }

  lemma QuotedStable(a: Alphabet, u: string, x: string)
    requires u != [] && QuotedLength(a, u).Some?
    requires StartsLike(a, x, u[QuotedLength(a, u).value..])
    ensures QuotedLength(a, u[..QuotedLength(a, u).value] + x) == QuotedLength(a, u)
  {
    hide StringLength, DollarLength, StartsLike;
    var n := QuotedLength(a, u).value;
    var w := u[..n] + x;
    assert w[0] == u[0];
    if "E'" <= u {
      assert n >= 2 && w[..2] == u[..2] == "E'";
      PrefixedStringStable(a, u, 2, '\'', true, x);
    } else if u[0] == '\'' || u[0] == '\"' {
      PrefixedStringStable(a, u, 1, u[0], false, x);
    } else {
      DollarStable(a, u, x);
    }
  }

  // ---- The printer theorem ----

  function Tail(a: Alphabet, u: string, pending: bool): string {
    Print(Lex(a, u, pending), true)
  }

  lemma TailStep(a: Alphabet, u: string, pending: bool)
    requires u != []
    ensures
      var n := QuotedLength(a, u);
      Tail(a, u, pending) ==
        if n.None? && u[0] in a.spaces then Tail(a, u[1..], true)
        else
          var k := if n.Some? then n.value else 1;
          (if pending then " " else "") + (u[..k] + Tail(a, u[k..], false))
  {
    hide Lex, Print, QuotedLength;
    PrintStep(a, u, pending, true);
    var n := QuotedLength(a, u);
    if n.Some? || u[0] !in a.spaces {
      var k := if n.Some? then n.value else 1;
      var sep := if pending then " " else "";
      assert sep + u[..k] + Tail(a, u[k..], false) == sep + (u[..k] + Tail(a, u[k..], false));
    }
  }

  /** A space squeezed before a text absorbs the spaces that follow it. */
  lemma {:induction false} SqueezeSpaces(a: Alphabet, c: char, u: string)
    requires c in a.spaces
    ensures Squeeze(a, [c] + u) == Squeeze(a, " " + u)
    ensures u != [] && u[0] in a.spaces ==> Squeeze(a, " " + u) == Squeeze(a, " " + u[1..]) == Squeeze(a, u)
  {
    assert ([c] + u)[1..] == u && (" " + u)[1..] == u;
    if u != [] && u[0] in a.spaces {
      assert (" " + u[1..])[1..] == u[1..];
      SqueezeFirst(a, u);
    }
  }

  lemma {:induction false} SqueezeInside(a: Alphabet, sep: string, p: string, x: string, u: string)
    requires p <= u && Squeeze(a, x) == Squeeze(a, u[|p|..])
    ensures Squeeze(a, sep + (p + x)) == Squeeze(a, sep + u)
  {
    SqueezeAppend(a, sep + p, x, u[|p|..]);
    assert sep + p + x == sep + (p + x) && sep + p + u[|p|..] == sep + u;
  }

  lemma {:induction false} TailOfNothing(a: Alphabet, pending: bool)
    ensures Tail(a, "", pending) == "" && Squeeze(a, "") == "" && Squeeze(a, " ") == ""
  {
    assert " "[1..] == "";
  }

  lemma {:induction false} TailSqueezes(a: Alphabet, u: string, pending: bool)
    ensures Squeeze(a, Tail(a, u, pending)) == Squeeze(a, (if pending then " " else "") + u)
    decreases |u|
  {
    var sep := if pending then " " else "";
    hide Lex, Print, QuotedLength, Squeeze, Tail;
    if u == [] {
      TailOfNothing(a, pending);
      assert sep + u == sep;
    } else {
      TailStep(a, u, pending);
      var n := QuotedLength(a, u);
      if n.None? && u[0] in a.spaces {
        TailSqueezes(a, u[1..], true);
        SqueezeSpaces(a, u[0], u);
        assert !pending ==> sep + u == u;
      } else {
        var k := if n.Some? then n.value else 1;
        TailSqueezes(a, u[k..], false);
        assert "" + u[k..] == u[k..];
        SqueezeInside(a, sep, u[..k], Tail(a, u[k..], false), u);
      }
    }
  }

  lemma {:induction false} TailStartsLike(a: Alphabet, u: string, pending: bool)
    ensures pending ==> Tail(a, u, pending) == [] || Tail(a, u, pending)[0] == ' '
    ensures StartsLike(a, Tail(a, u, pending), u)
    decreases |u|
  {
    if u != [] {
      TailStep(a, u, pending);
      if QuotedLength(a, u).None? && u[0] in a.spaces {
        TailStartsLike(a, u[1..], true);
      }
    }
  }

  lemma SpaceStartsNoToken(a: Alphabet, u: string)
    requires u != [] && u[0] in a.spaces
    ensures QuotedLength(a, u).None?
  {
  }

  /** Lexing what the rest of the printer emits gives back the tokens it was given. */
  lemma {:induction false} LexOfTail(a: Alphabet, u: string, pending: bool)
    ensures Lex(a, Tail(a, u, pending), false) == Lex(a, u, pending)
    decreases |u|
  {
    if u != [] {
      TailStep(a, u, pending);
      var n := QuotedLength(a, u);
      if n.None? && u[0] in a.spaces {
        LexOfTail(a, u[1..], true);
      } else {
        var k := if n.Some? then n.value else 1;
        var rest := Tail(a, u[k..], false);
        var y := u[..k] + rest;
        LexOfTail(a, u[k..], false);
        TailStartsLike(a, u[k..], false);
        if n.Some? {
          QuotedStable(a, u, rest);
        } else {
          TailSqueezes(a, u[1..], false);
          assert "" + u[1..] == u[1..] && u[..1] + u[1..] == u;
          SqueezeAppend(a, u[..1], rest, u[1..]);
          SameSqueezeSameStart(a, u, y);
        }
        assert y[..k] == u[..k] && y[k..] == rest;
        assert Lex(a, y, pending) == [Token(pending, u[..k])] + Lex(a, rest, false);
        if pending {
          SpaceStartsNoToken(a, " " + y);
          assert (" " + y)[1..] == y && (" " + y)[0] in a.spaces;
        } else {
          assert "" + y == y;
        }
      }
    }
  }

  lemma {:induction false} PendingOnlyMarksFirst(a: Alphabet, u: string)
    ensures |Lex(a, u, true)| == |Lex(a, u, false)|
    ensures Lex(a, u, true) != [] ==> Lex(a, u, true)[1..] == Lex(a, u, false)[1..]
    ensures Lex(a, u, true) != [] ==> Lex(a, u, true)[0].text == Lex(a, u, false)[0].text
    ensures u != [] && u[0] !in a.spaces ==> Lex(a, u, false) != [] && !Lex(a, u, false)[0].gap
  {
  }

  /** The text without its leading whitespace. */
  function Stripped(a: Alphabet, v: string): string {
    if v != [] && v[0] in a.spaces then Stripped(a, v[1..]) else v
  }

  lemma {:induction false} StrippedSame(a: Alphabet, v: string)
    ensures Tokens(a, v) == Lex(a, Stripped(a, v), false)
    ensures Normalize(a, v) == Tail(a, Stripped(a, v), false)
  {
    if v != [] && v[0] in a.spaces {
      StrippedSame(a, v[1..]);
      SpaceStartsNoToken(a, v);
      PendingOnlyMarksFirst(a, v[1..]);
    } else {
      PendingOnlyMarksFirst(a, v);
    }
  }

  /** The normaliser is a printer for its own lexer: the normalised text has the fragments and the
    * gaps of the original, unterminated quotes and malformed tags included. */
  lemma NormalizePrintsTokens(a: Alphabet, v: string)
    ensures Tokens(a, Normalize(a, v)) == Tokens(a, v)
  {
    var u := Stripped(a, v);
    StrippedSame(a, v);
    LexOfTail(a, u, false);
    StrippedSame(a, Tail(a, u, false));
    StrippedStartsClean(a, v);
    TailStartsLike(a, u, false);
    if u != [] {
      TailStep(a, u, false);
    }
  }

  lemma {:induction false} StrippedStartsClean(a: Alphabet, v: string)
    ensures Stripped(a, v) == [] || Stripped(a, v)[0] !in a.spaces
  {
    if v != [] && v[0] in a.spaces {
      StrippedStartsClean(a, v[1..]);
    }
  }

  lemma {:induction false} PrintIgnoresFirstGap(tokens: seq<Token>)
    requires tokens != []
    ensures Print([tokens[0].(gap := false)] + tokens[1..], false) == Print(tokens, false)
  {
    assert ([tokens[0].(gap := false)] + tokens[1..])[1..] == tokens[1..];
  }

  /** Hence two texts normalise to the same text exactly when they have the same fragments and gaps,
    * and normalising twice is normalising once. */
  lemma NormalizeSeparatesTokens(a: Alphabet, v: string, w: string)
    ensures Normalize(a, v) == Normalize(a, w) <==> Tokens(a, v) == Tokens(a, w)
    ensures Normalize(a, Normalize(a, v)) == Normalize(a, v)
  {
    NormalizePrintsTokens(a, v);
    NormalizePrintsTokens(a, w);
    NormalizeIsPrint(a, v);
    NormalizeIsPrint(a, w);
    NormalizeIsPrint(a, Normalize(a, v));
  }

  lemma NormalizeIsPrint(a: Alphabet, v: string)
    ensures Normalize(a, v) == Print(Tokens(a, v), false)
  {
    if Lex(a, v, false) != [] {
      PrintIgnoresFirstGap(Lex(a, v, false));
    }
  }

  // ---- Whitespace outside quoted tokens does not matter ----

  /** `k` is a position between two steps of the lexer. */
  predicate Boundary(a: Alphabet, u: string, k: nat)
    decreases k
  {
    k == 0
    || (u != [] &&
        var n := QuotedLength(a, u);
        var step := if n.Some? then n.value else 1;
        step <= k && Boundary(a, u[step..], k - step))
  }

  predicate AllSpaces(a: Alphabet, s: string) {
    forall i :: 0 <= i < |s| ==> s[i] in a.spaces
  }

  lemma {:induction false} LexSkipsSpaces(a: Alphabet, s: string, b: string, pending: bool)
    requires AllSpaces(a, s) && s != []
    ensures Lex(a, s + b, pending) == Lex(a, b, true)
    ensures Squeeze(a, s + b) == Squeeze(a, " " + b)
  {
    SpaceStartsNoToken(a, s + b);
    assert (s + b)[1..] == s[1..] + b;
    if |s| == 1 {
      assert s[1..] + b == b && s + b == [s[0]] + b;
      SqueezeSpaces(a, s[0], b);
    } else {
      LexSkipsSpaces(a, s[1..], b, true);
      SqueezeSpaces(a, s[0], s[1..] + b);
      assert s + b == [s[0]] + (s[1..] + b);
    }
  }

  lemma {:induction false} LexStep(a: Alphabet, u: string, pending: bool)
    requires u != []
    ensures
      var n := QuotedLength(a, u);
      Lex(a, u, pending) ==
        if n.None? && u[0] in a.spaces then Lex(a, u[1..], true)
        else
          var k := if n.Some? then n.value else 1;
          [Token(pending, u[..k])] + Lex(a, u[k..], false)
  {
  }

  lemma {:induction false} SameLexAfter(a: Alphabet, p: string, x: string, y: string, pending: bool)
    requires Boundary(a, p + x, |p|)
    requires Squeeze(a, x) == Squeeze(a, y) && StartsLike(a, y, x)
    requires Lex(a, x, true) == Lex(a, y, true) && Lex(a, x, false) == Lex(a, y, false)
    ensures Lex(a, p + x, pending) == Lex(a, p + y, pending)
    decreases |p|
  {
    hide Lex, QuotedLength, Squeeze;
    if p == [] {
      assert p + x == x && p + y == y;
    } else {
      var u, w := p + x, p + y;
      var n := QuotedLength(a, u);
      var k := if n.Some? then n.value else 1;
      assert u[k..] == p[k..] + x && w[k..] == p[k..] + y && u[..k] == w[..k];
      SameLexAfter(a, p[k..], x, y, n.None? && u[0] in a.spaces);
      LexStep(a, u, pending);
      LexStep(a, w, pending);
      if n.Some? {
        assert w == u[..k] + w[k..];
        QuotedStable(a, u, w[k..]);
      } else if u[0] in a.spaces {
        SpaceStartsNoToken(a, w);
      } else {
        SqueezeAppend(a, p, x, y);
        SameSqueezeSameStart(a, u, w);
      }
    }
  }

  lemma {:induction false} RunsAreAlike(a: Alphabet, s: string, t: string, b: string, x: string, y: string)
    requires AllSpaces(a, s) && AllSpaces(a, t) && s != [] && t != [] && x == s + b && y == t + b
    ensures Squeeze(a, x) == Squeeze(a, y) && StartsLike(a, y, x)
    ensures Lex(a, x, true) == Lex(a, y, true) && Lex(a, x, false) == Lex(a, y, false)
  {
    hide Lex, Squeeze;
    LexSkipsSpaces(a, s, b, true);
    LexSkipsSpaces(a, t, b, true);
    LexSkipsSpaces(a, s, b, false);
    LexSkipsSpaces(a, t, b, false);
    assert y[0] == t[0];
  }

  /** Replacing one whitespace run between tokens by any other leaves the normal form unchanged. */
  lemma {:induction false} WhitespaceRunsDoNotMatter(a: Alphabet, p: string, s: string, t: string, b: string)
    requires Boundary(a, p + (s + b), |p|)
    requires AllSpaces(a, s) && AllSpaces(a, t) && s != [] && t != []
    ensures Normalize(a, p + (s + b)) == Normalize(a, p + (t + b))
  {
    hide Lex, Squeeze, Boundary, Print, StartsLike;
    var x, y := s + b, t + b;
    RunsAreAlike(a, s, t, b, x, y);
    SameLexAfter(a, p, x, y, false);
  }

  /** Trailing and leading whitespace go away. */
  lemma {:induction false} OuterWhitespaceDoesNotMatter(a: Alphabet, v: string, s: string)
    requires AllSpaces(a, s)
    ensures Boundary(a, v + s, |v|) ==> Normalize(a, v + s) == Normalize(a, v)
    ensures Normalize(a, s + v) == Normalize(a, v)
  {
    assert v + [] == v && [] + v == v;
    if s != [] {
      assert s + [] == s;
      LexSkipsSpaces(a, s, [], false);
      LexSkipsSpaces(a, s, [], true);
      assert (" " + "")[1..] == "";
      if Boundary(a, v + s, |v|) {
        SameLexAfter(a, v, s, [], false);
      }
      LexSkipsSpaces(a, s, v, false);
      PendingOnlyMarksFirst(a, v);
      NormalizeIsPrint(a, s + v);
      NormalizeIsPrint(a, v);
    } else {
      assert s + v == v && v + s == v;
    }
  }
}
