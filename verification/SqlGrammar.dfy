/** Quoted SQL tokens and where a search finds its pattern, described without any scanner.
  *
  * A quoted token is a string constant or a delimited name with doubled quotes, an E-string with
  * backslash escapes, or a dollar body between two copies of its delimiter.
  */
module SqlGrammar {

  /** The character classes of the host language, kept abstract but for what the proofs need. */
  datatype CharacterClasses = CharacterClasses(spaces: set<char>, letters: set<char>, alphanumerics: set<char>)

  predicate IsSymbol(c: char) {
    c == '\'' || c == '\"' || c == '$' || c == '\\' || c == '_'
  }

  predicate WellFormed(a: CharacterClasses) {
    && ' ' in a.spaces && 'E' in a.letters
    && a.letters <= a.alphanumerics
    && '$' !in a.alphanumerics
    && (forall c :: c in a.spaces ==> c !in a.alphanumerics && !IsSymbol(c))
  }

  type Alphabet = a: CharacterClasses | WellFormed(a) witness CharacterClasses({' '}, {'E'}, {'E'})

  // ---- Between two quotes ----

  /** What follows an opening quote, closing quote included. */
  datatype Inside = Closed | Char(c: char, rest: Inside) | Twice(rest: Inside) | Escape(c: char, rest: Inside)

  function RenderInside(i: Inside, quote: char): (s: string)
    ensures s != ""
  {
    match i
    case Closed => [quote]
    case Char(c, rest) => [c] + RenderInside(rest, quote)
    case Twice(rest) => [quote, quote] + RenderInside(rest, quote)
    case Escape(c, rest) => ['\\', c] + RenderInside(rest, quote)
  }

  /** Quotes inside are doubled or, where a backslash escapes, escaped. */
  predicate FaithfulInside(i: Inside, quote: char, escapes: bool) {
    match i
    case Closed => true
    case Char(c, rest) => c != quote && (escapes ==> c != '\\') && FaithfulInside(rest, quote, escapes)
    case Twice(rest) => FaithfulInside(rest, quote, escapes)
    case Escape(_, rest) => escapes && FaithfulInside(rest, quote, escapes)
  }

  /** A closing quote that another one follows is not a closing quote. */
  predicate Doubles(quote: char, rest: string) {
    rest != "" && rest[0] == quote
  }

  // ---- Dollar bodies ----

  predicate IsTagChar(a: Alphabet, c: char) {
    c in a.alphanumerics || c == '_'
  }

  predicate IsTag(a: Alphabet, tag: string) {
    tag != "" ==>
      (tag[0] in a.letters || tag[0] == '_') && forall i :: 1 <= i < |tag| ==> IsTagChar(a, tag[i])
  }

  function Delimiter(tag: string): string {
    "$" + tag + "$"
  }

  predicate StandsAt(d: string, u: string, k: nat) {
    k + |d| <= |u| && u[k..k + |d|] == d
  }

  predicate FirstAt(d: string, u: string, k: nat) {
    StandsAt(d, u, k) && forall j: nat :: j < k ==> !StandsAt(d, u, j)
  }

  // ---- Quoted tokens ----

  datatype Quoted =
    | Constant(inside: Inside)
    | Name(inside: Inside)
    | Escaping(inside: Inside)
    | DollarBody(tag: string, body: string)

  function RenderQuoted(q: Quoted): (s: string)
    ensures |s| >= 2
  {
    match q
    case Constant(inside) => "'" + RenderInside(inside, '\'')
    case Name(inside) => "\"" + RenderInside(inside, '\"')
    case Escaping(inside) => "E'" + RenderInside(inside, '\'')
    case DollarBody(tag, body) => Delimiter(tag) + body + Delimiter(tag)
  }

  ghost predicate FaithfulQuoted(a: Alphabet, q: Quoted) {
    match q
    case Constant(inside) => FaithfulInside(inside, '\'', false)
    case Name(inside) => FaithfulInside(inside, '\"', false)
    case Escaping(inside) => FaithfulInside(inside, '\'', true)
    case DollarBody(tag, body) => IsTag(a, tag) && FirstAt(Delimiter(tag), body + Delimiter(tag), |body|)
  }

  /** The next character would make the token go on. */
  predicate Continues(q: Quoted, rest: string) {
    match q
    case Name(_) => Doubles('\"', rest)
    case DollarBody(_, _) => false
    case _ => Doubles('\'', rest)
  }

  /** A complete quoted token starts the text. */
  ghost predicate Starts(a: Alphabet, q: Quoted, u: string) {
    && FaithfulQuoted(a, q) && RenderQuoted(q) <= u
    && !Continues(q, u[|RenderQuoted(q)|..])
  }

  ghost predicate Unquoted(a: Alphabet, u: string) {
    forall q :: !Starts(a, q, u)
  }

  // ---- Whole texts ----

  datatype Item = Literal(quoted: Quoted) | Blank(c: char) | Sign(c: char)

  function RenderItem(item: Item): (s: string)
    ensures s != ""
  {
    match item
    case Literal(quoted) => RenderQuoted(quoted)
    case Blank(c) => [c]
    case Sign(c) => [c]
  }

  /** `item` is what the text starts with: a quoted token wherever one starts, one character elsewhere. */
  ghost predicate Leads(a: Alphabet, item: Item, u: string) {
    match item
    case Literal(quoted) => Starts(a, quoted, u)
    case Blank(c) => c in a.spaces && [c] <= u && Unquoted(a, u)
    case Sign(c) => c !in a.spaces && [c] <= u && Unquoted(a, u)
  }

  ghost predicate Reads(a: Alphabet, u: string, items: seq<Item>)
    decreases items
  {
    if items == [] then u == ""
    else
      && Leads(a, items[0], u) && RenderItem(items[0]) <= u
      && Reads(a, u[|RenderItem(items[0])|..], items[1..])
  }

  /** Every item verbatim but for the blanks: a run of them between two others becomes one space. */
  function Collapsed(items: seq<Item>, started: bool, gap: bool): string {
    if items == [] then ""
    else if items[0].Blank? then Collapsed(items[1..], started, true)
    else
      var separator := if started && gap then " " else "";
      separator + RenderItem(items[0]) + Collapsed(items[1..], true, false)
  }
}
