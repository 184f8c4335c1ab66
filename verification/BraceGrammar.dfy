/** The texts that the brace scanner is about, described without any scanner.
  *
  * A block is a pair of matching braces around plain characters, string literals and blocks. A text
  * is a list of items - blocks, string literals and stray characters - and possibly an open rest: a
  * string or a block that is never closed. Every text decomposes in exactly one way.
  */
module BraceGrammar {

  /** What follows the opening quote of a string, closing quote included. */
  datatype Literal = Closed | Char(c: char, rest: Literal) | Escape(c: char, rest: Literal)

  /** What follows an opening brace, matching closing brace included. */
  datatype Body = End | Plain(c: char, rest: Body) | Quote(literal: Literal, rest: Body) | Nested(inner: Body, rest: Body)

  datatype Item = Stray(c: char) | Text(literal: Literal) | Object(body: Body)

  function RenderLiteral(l: Literal): (s: string)
    ensures s != ""
  {
    match l
    case Closed => "\""
    case Char(c, rest) => [c] + RenderLiteral(rest)
    case Escape(c, rest) => ['\\', c] + RenderLiteral(rest)
  }

  predicate FaithfulLiteral(l: Literal) {
    match l
    case Closed => true
    case Char(c, rest) => c != '\"' && c != '\\' && FaithfulLiteral(rest)
    case Escape(_, rest) => FaithfulLiteral(rest)
  }

  function RenderBody(b: Body): (s: string)
    ensures s != ""
  {
    match b
    case End => "}"
    case Plain(c, rest) => [c] + RenderBody(rest)
    case Quote(literal, rest) => "\"" + (RenderLiteral(literal) + RenderBody(rest))
    case Nested(inner, rest) => "{" + (RenderBody(inner) + RenderBody(rest))
  }

  predicate FaithfulBody(b: Body) {
    match b
    case End => true
    case Plain(c, rest) => c != '\"' && c != '{' && c != '}' && FaithfulBody(rest)
    case Quote(literal, rest) => FaithfulLiteral(literal) && FaithfulBody(rest)
    case Nested(inner, rest) => FaithfulBody(inner) && FaithfulBody(rest)
  }

  function Block(b: Body): string {
    "{" + RenderBody(b)
  }

  function RenderItem(item: Item): (s: string)
    ensures s != ""
  {
    match item
    case Stray(c) => [c]
    case Text(literal) => "\"" + RenderLiteral(literal)
    case Object(body) => Block(body)
  }

  predicate FaithfulItem(item: Item) {
    match item
    case Stray(c) => c != '\"' && c != '{'
    case Text(literal) => FaithfulLiteral(literal)
    case Object(body) => FaithfulBody(body)
  }

  function Render(items: seq<Item>): string {
    if items == [] then "" else RenderItem(items[0]) + Render(items[1..])
  }

  predicate Faithful(items: seq<Item>) {
    forall i :: 0 <= i < |items| ==> FaithfulItem(items[i])
  }

  /** The blocks of a text, outermost ones only. */
  function Objects(items: seq<Item>): seq<string> {
    if items == [] then []
    else (if items[0].Object? then [Block(items[0].body)] else []) + Objects(items[1..])
  }

  ghost predicate NoLiteral(u: string) {
    forall l :: FaithfulLiteral(l) ==> !(RenderLiteral(l) <= u)
  }

  ghost predicate NoBody(u: string) {
    forall b :: FaithfulBody(b) ==> !(RenderBody(b) <= u)
  }

  /** Nothing, or a string or block that is never closed. */
  ghost predicate Open(rest: string) {
    rest != "" ==>
      (rest[0] == '\"' && NoLiteral(rest[1..])) || (rest[0] == '{' && NoBody(rest[1..]))
  }

  /** `source` is these items and this open rest. */
  ghost predicate Decomposes(source: string, items: seq<Item>, rest: string) {
    source == Render(items) + rest && Faithful(items) && Open(rest)
  }

  lemma {:induction false} RenderCons(item: Item, items: seq<Item>)
    ensures Render([item] + items) == RenderItem(item) + Render(items)
    ensures Objects([item] + items) == (if item.Object? then [Block(item.body)] else []) + Objects(items)
  {
    assert ([item] + items)[1..] == items;
  }

  lemma JustOpen(source: string)
    requires Open(source)
    ensures Decomposes(source, [], source)
  {
    hide NoLiteral, NoBody;
    assert Render([]) + source == source;
  }

  lemma DecomposesCons(source: string, item: Item, items: seq<Item>, rest: string)
    requires FaithfulItem(item) && RenderItem(item) <= source
    requires Decomposes(source[|RenderItem(item)|..], items, rest)
    ensures Decomposes(source, [item] + items, rest)
  {
    hide RenderItem, Open, FaithfulItem;
    RenderCons(item, items);
    hide Render;
    var n := |RenderItem(item)|;
    assert source == RenderItem(item) + source[n..];
    assert RenderItem(item) + (Render(items) + rest) == RenderItem(item) + Render(items) + rest;
  }

  lemma {:induction false} EveryTextDecomposes(source: string) returns (items: seq<Item>, rest: string)
    ensures Decomposes(source, items, rest)
    decreases |source|
  {
    hide Open, Decomposes, RenderItem;
    if Open(source) {
      items, rest := [], source;
      JustOpen(source);
    } else {
      var item := FirstItem(source);
      items, rest := EveryTextDecomposes(source[|RenderItem(item)|..]);
      DecomposesCons(source, item, items, rest);
      items := [item] + items;
    }
  }

  lemma FirstItem(source: string) returns (item: Item)
    requires !Open(source)
    ensures FaithfulItem(item) && RenderItem(item) <= source
  {
    if source[0] == '\"' {
      var l :| FaithfulLiteral(l) && RenderLiteral(l) <= source[1..];
      item := Text(l);
    } else if source[0] == '{' {
      var b :| FaithfulBody(b) && RenderBody(b) <= source[1..];
      item := Object(b);
    } else {
      item := Stray(source[0]);
    }
  }

  lemma {:induction false} LiteralIsUnique(l: Literal, k: Literal, u: string)
    requires FaithfulLiteral(l) && FaithfulLiteral(k) && RenderLiteral(l) <= u && RenderLiteral(k) <= u
    ensures l == k
    decreases l
  {
    assert RenderLiteral(l)[0] == u[0] && RenderLiteral(k)[0] == u[0];
    match l
    case Closed =>
    case Char(_, rest) =>
      LiteralIsUnique(rest, k.rest, u[1..]);
    case Escape(_, rest) =>
      assert RenderLiteral(l)[1] == u[1] && RenderLiteral(k)[1] == u[1];
      LiteralIsUnique(rest, k.rest, u[2..]);
  }

  lemma PrefixSplits(p: string, q: string, u: string)
    requires p + q <= u
    ensures p <= u && q <= u[|p|..]
  {
    assert u[..|p|] == (p + q)[..|p|] == p;
    assert u[|p|..][..|q|] == u[|p|..|p| + |q|] == (p + q)[|p|..] == q;
  }

  /** What a rendered body says about the text that it starts. */
  lemma {:induction false} BodyPrefix(b: Body, u: string)
    requires FaithfulBody(b) && RenderBody(b) <= u
    ensures u != ""
    ensures b.End? <==> u[0] == '}'
    ensures b.Quote? <==> u[0] == '\"'
    ensures b.Nested? <==> u[0] == '{'
    ensures b.Plain? ==> u[0] == b.c && RenderBody(b.rest) <= u[1..]
    ensures b.Quote? ==>
      RenderLiteral(b.literal) <= u[1..] && RenderBody(b.rest) <= u[1..][|RenderLiteral(b.literal)|..]
    ensures b.Nested? ==>
      RenderBody(b.inner) <= u[1..] && RenderBody(b.rest) <= u[1..][|RenderBody(b.inner)|..]
  {
    assert RenderBody(b)[0] == u[0];
    match b
    case End =>
    case Plain(c, rest) =>
      PrefixSplits([c], RenderBody(rest), u);
    case Quote(literal, rest) =>
      PrefixSplits("\"", RenderLiteral(literal) + RenderBody(rest), u);
      PrefixSplits(RenderLiteral(literal), RenderBody(rest), u[1..]);
    case Nested(inner, rest) =>
      PrefixSplits("{", RenderBody(inner) + RenderBody(rest), u);
      PrefixSplits(RenderBody(inner), RenderBody(rest), u[1..]);
  }

  /** No body is a prefix of another one, so the block that starts at a brace is unique. */
  lemma {:induction false} BodyIsUnique(b: Body, k: Body, u: string)
    requires FaithfulBody(b) && FaithfulBody(k) && RenderBody(b) <= u && RenderBody(k) <= u
    ensures b == k
    decreases b
  {
    hide RenderBody, RenderLiteral, FaithfulLiteral;
    BodyPrefix(b, u);
    BodyPrefix(k, u);
    match b
    case End =>
    case Plain(_, rest) =>
      BodyIsUnique(rest, k.rest, u[1..]);
    case Quote(literal, rest) =>
      LiteralIsUnique(literal, k.literal, u[1..]);
      BodyIsUnique(rest, k.rest, u[1..][|RenderLiteral(literal)|..]);
    case Nested(inner, rest) =>
      BodyIsUnique(inner, k.inner, u[1..]);
      BodyIsUnique(rest, k.rest, u[1..][|RenderBody(inner)|..]);
  }

  /** The first item of a text, when it is not an open rest, is fixed by the text. */
  lemma ItemIsUnique(item: Item, other: Item, source: string)
    requires FaithfulItem(item) && FaithfulItem(other) && RenderItem(item) <= source && RenderItem(other) <= source
    ensures item == other
  {
    ItemPrefix(item, source);
    ItemPrefix(other, source);
    hide RenderItem;
    match item
    case Stray(_) =>
    case Text(literal) => LiteralIsUnique(literal, other.literal, source[1..]);
    case Object(body) => BodyIsUnique(body, other.body, source[1..]);
  }

  lemma ItemPrefix(item: Item, source: string)
    requires FaithfulItem(item) && RenderItem(item) <= source
    ensures source != ""
    ensures item.Text? <==> source[0] == '\"'
    ensures item.Object? <==> source[0] == '{'
    ensures item.Stray? ==> source[0] == item.c
    ensures item.Text? ==> RenderLiteral(item.literal) <= source[1..]
    ensures item.Object? ==> RenderBody(item.body) <= source[1..]
  {
    hide RenderLiteral, RenderBody;
    assert RenderItem(item)[0] == source[0];
    match item
    case Stray(_) =>
    case Text(literal) => PrefixSplits("\"", RenderLiteral(literal), source);
    case Object(body) => PrefixSplits("{", RenderBody(body), source);
  }

  lemma OpenHasNoItem(source: string, item: Item)
    requires Open(source) && FaithfulItem(item)
    ensures !(RenderItem(item) <= source)
  {
    if RenderItem(item) <= source {
      ItemPrefix(item, source);
    }
  }

  /** A decomposition starts with an item exactly when the text is not open. */
  lemma DecomposesFirst(source: string, items: seq<Item>, rest: string)
    requires Decomposes(source, items, rest)
    ensures items == [] ==> source == rest && Open(source)
    ensures items != [] ==>
      && FaithfulItem(items[0]) && RenderItem(items[0]) <= source
      && Decomposes(source[|RenderItem(items[0])|..], items[1..], rest)
  {
    hide Open, FaithfulItem, RenderItem;
    if items == [] {
      assert source == rest;
    } else {
      var p, q := RenderItem(items[0]), Render(items[1..]);
      assert source == p + (q + rest);
      assert source[|p|..] == q + rest;
    }
  }

  lemma {:induction false} DecompositionIsUnique(
    source: string, items: seq<Item>, rest: string, others: seq<Item>, end: string)
    requires Decomposes(source, items, rest) && Decomposes(source, others, end)
    ensures items == others && rest == end
    decreases |items|
  {
    hide Decomposes, Open, FaithfulItem, RenderItem;
    DecomposesFirst(source, items, rest);
    DecomposesFirst(source, others, end);
    if items == [] && others != [] {
      OpenHasNoItem(source, others[0]);
    } else if items != [] && others == [] {
      OpenHasNoItem(source, items[0]);
    } else if items != [] {
      ItemIsUnique(items[0], others[0], source);
      DecompositionIsUnique(source[|RenderItem(items[0])|..], items[1..], rest, others[1..], end);
      assert items == [items[0]] + items[1..] && others == [others[0]] + others[1..];
    }
  }
}
