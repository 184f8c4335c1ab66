/** The scanner that cuts brace-balanced JSON candidates out of a text.
  *
  * `BraceGrammar` says without the scanner what the blocks of a text are. The main result is that
  * the scanner returns exactly the blocks of every text, in order; before it, `IsSpan` says in terms
  * of the scanner's depth where a returned block lies. Further results: scanning a returned block
  * alone returns that block, and a concatenation splits wherever the scanner is back in its initial
  * state.
  */
module BraceScanner {
  import opened BraceGrammar
  import opened TextSearch
  import opened Wrappers

  datatype Scan = Scan(start: Option<nat>, depth: nat, inString: bool, escaped: bool)

  const INITIAL := Scan(None, 0, false, false)

  datatype Span = Span(start: nat, end: nat)

  /** One character: the next state, and the span that the character completes. */
  function Advanced(s: Scan, c: char, index: nat): (Scan, Option<Span>) {
    if s.inString then
      if s.escaped then (s.(escaped := false), None)
      else if c == '\\' then (s.(escaped := true), None)
      else if c == '\"' then (s.(inString := false), None)
      else (s, None)
    else if c == '\"' then (s.(inString := true), None)
    else if c == '{' then (s.(start := if s.depth == 0 then Some(index) else s.start, depth := s.depth + 1), None)
    else if c == '}' && s.depth > 0 then
      if s.depth == 1 && s.start.Some? then (s.(start := None, depth := 0), Some(Span(s.start.value, index + 1)))
      else (s.(depth := s.depth - 1), None)
    else (s, None)
  }

  /** The state before character `i`. */
  function StateAt(source: string, i: nat): Scan
    requires i <= |source|
  {
    if i == 0 then INITIAL else Advanced(StateAt(source, i - 1), source[i - 1], i - 1).0
  }

  function DepthAt(source: string, i: nat): nat
    requires i <= |source|
  {
    StateAt(source, i).depth
  }

  /** The spans that the first `i` characters complete. */
  function SpansUpTo(source: string, i: nat): seq<Span>
    requires i <= |source|
  {
    if i == 0 then []
    else
      var span := Advanced(StateAt(source, i - 1), source[i - 1], i - 1).1;
      SpansUpTo(source, i - 1) + (if span.Some? then [span.value] else [])
  }

  class JsonScanState {
    var start: Option<nat>
    var depth: nat
    var inString: bool
    var escaped: bool

    constructor ()
      ensures View() == INITIAL
    {
      start, depth, inString, escaped := None, 0, false, false;
    }

    function View(): Scan
      reads this
    {
      Scan(start, depth, inString, escaped)
    }

    method AdvanceJsonScan(c: char, index: nat) returns (span: Option<Span>)
      modifies this
      ensures (View(), span) == Advanced(old(View()), c, index)
    {
      if inString {
        if escaped {
          escaped := false;
        } else if c == '\\' {
          escaped := true;
        } else if c == '\"' {
          inString := false;
        }
        return None;
      }
      if c == '\"' {
        inString := true;
        return None;
      }
      if c == '{' {
        if depth == 0 {
          start := Some(index);
        }
        depth := depth + 1;
        return None;
      }
      if c == '}' && depth > 0 {
        depth := depth - 1;
        if depth == 0 && start.Some? {
          span := Some(Span(start.value, index + 1));
          start := None;
          return;
        }
      }
      return None;
    }
  }

  predicate Fits(source: string, span: Span) {
    span.start < span.end <= |source|
  }

  function Cut(source: string, span: Span): string {
    if Fits(source, span) then source[span.start..span.end] else ""
  }

  function Blocks(source: string, spans: seq<Span>): (r: seq<string>)
    ensures |r| == |spans| && forall k :: 0 <= k < |r| ==> r[k] == Cut(source, spans[k])
  {
    seq(|spans|, k requires 0 <= k < |spans| => Cut(source, spans[k]))
  }

  function Extracted(source: string): seq<string> {
    Blocks(source, SpansUpTo(source, |source|))
  }

  method ExtractBalancedJsonObjects(source: string) returns (blocks: seq<string>)
    ensures blocks == Extracted(source)
  {
    var state := new JsonScanState();
    blocks := [];
    for i := 0 to |source|
      invariant state.View() == StateAt(source, i)
      invariant blocks == Blocks(source, SpansUpTo(source, i))
    {
      StartIsBehind(source, i);
      var span := state.AdvanceJsonScan(source[i], i);
      if span.Some? {
        assert Fits(source, span.value);
        blocks := blocks + [source[span.value.start..span.value.end]];
      }
    }
  }

  // ---- What a span is ----

  /** An opening brace that the scanner meets at depth zero, outside strings. */
  predicate Outermost(source: string, i: nat)
    requires i < |source|
  {
    source[i] == '{' && DepthAt(source, i) == 0 && !StateAt(source, i).inString
  }

  predicate IsSpan(source: string, span: Span) {
    && Fits(source, span)
    && Outermost(source, span.start)
    && DepthAt(source, span.end) == 0
    && (forall k :: span.start < k < span.end ==> DepthAt(source, k) > 0)
  }

  /** The recorded start is the outermost brace still open, and only strings hold escapes. */
  predicate StartOk(source: string, n: nat)
    requires n <= |source|
  {
    var s := StateAt(source, n);
    && (s.start.Some? <==> s.depth > 0)
    && (s.escaped ==> s.inString)
    && (s.start.Some? ==>
          && s.start.value < n && Outermost(source, s.start.value)
          && (forall k :: s.start.value < k <= n ==> DepthAt(source, k) > 0))
  }

  lemma {:induction false} StartIsBehind(source: string, n: nat)
    requires n <= |source|
    ensures StartOk(source, n)
  {
    if n > 0 {
      StartIsBehind(source, n - 1);
    }
  }

  /** A start stays recorded while the depth stays positive. */
  lemma {:induction false} StartStays(source: string, i: nat, n: nat)
    requires i < n <= |source| && Outermost(source, i)
    requires forall k :: i < k < n ==> DepthAt(source, k) > 0
    ensures DepthAt(source, n) > 0 ==> StateAt(source, n).start == Some(i)
    ensures
      DepthAt(source, n) == 0 ==>
        Advanced(StateAt(source, n - 1), source[n - 1], n - 1).1 == Some(Span(i, n)) && source[n - 1] == '}'
  {
    StartIsBehind(source, n - 1);
    if n > i + 1 {
      StartStays(source, i, n - 1);
    }
  }

  /** The scanner returns exactly the spans. */
  lemma {:induction false} ReturnsExactlyTheSpans(source: string, n: nat, span: Span)
    requires n <= |source|
    ensures span in SpansUpTo(source, n) <==> IsSpan(source, span) && span.end <= n
  {
    if n > 0 {
      ReturnsExactlyTheSpans(source, n - 1, span);
      StartIsBehind(source, n - 1);
      if IsSpan(source, span) && span.end == n {
        StartStays(source, span.start, n);
      }
    }
  }

  predicate OrderedSpans(spans: seq<Span>) {
    forall a, b :: 0 <= a < b < |spans| ==> spans[a].end <= spans[b].start
  }

  function Completed(source: string, i: nat): Option<Span>
    requires i < |source|
  {
    Advanced(StateAt(source, i), source[i], i).1
  }

  function AsList(span: Option<Span>): seq<Span> {
    if span.Some? then [span.value] else []
  }

  lemma ScanStep(source: string, n: nat)
    requires 0 < n <= |source|
    ensures StateAt(source, n) == Advanced(StateAt(source, n - 1), source[n - 1], n - 1).0
    ensures SpansUpTo(source, n) == SpansUpTo(source, n - 1) + AsList(Completed(source, n - 1))
  {
  }

  /** They come in order and do not overlap. */
  lemma {:induction false} SpansAreOrdered(source: string, n: nat)
    requires n <= |source|
    ensures OrderedSpans(SpansUpTo(source, n))
  {
    if n > 0 {
      SpansAreOrdered(source, n - 1);
      CompletedIsLater(source, n - 1);
      ScanStep(source, n);
    }
  }

  lemma {:induction false} CompletedIsLater(source: string, n: nat)
    requires n < |source|
    ensures Completed(source, n).Some? ==>
      forall span :: span in SpansUpTo(source, n) ==> span.end <= Completed(source, n).value.start
  {
    StartIsBehind(source, n);
    forall span | span in SpansUpTo(source, n)
      ensures Completed(source, n).Some? ==> span.end <= Completed(source, n).value.start
    {
      ReturnsExactlyTheSpans(source, n, span);
    }
  }

  // ---- Scanning pieces ----

  function ShiftedState(s: Scan, offset: nat): Scan {
    s.(start := if s.start.None? then None else Some(s.start.value + offset))
  }

  function ShiftedSpans(spans: seq<Span>, offset: nat): (r: seq<Span>)
    ensures |r| == |spans| && forall k :: 0 <= k < |r| ==> r[k] == Span(spans[k].start + offset, spans[k].end + offset)
  {
    seq(|spans|, k requires 0 <= k < |spans| => Span(spans[k].start + offset, spans[k].end + offset))
  }

  lemma {:induction false} PrefixScansAlike(a: string, b: string, n: nat)
    requires n <= |a|
    ensures StateAt(a + b, n) == StateAt(a, n) && SpansUpTo(a + b, n) == SpansUpTo(a, n)
  {
    if n > 0 {
      PrefixScansAlike(a, b, n - 1);
    }
  }

  function ShiftedSpan(span: Span, offset: nat): Span {
    Span(span.start + offset, span.end + offset)
  }

  lemma AdvancedShifts(s: Scan, c: char, index: nat, offset: nat)
    ensures
      var (t, span) := Advanced(s, c, index);
      Advanced(ShiftedState(s, offset), c, index + offset) ==
        (ShiftedState(t, offset), if span.None? then None else Some(ShiftedSpan(span.value, offset)))
  {
  }

  lemma {:induction false} RestStateAlone(a: string, b: string, n: nat)
    requires StateAt(a, |a|) == INITIAL && n <= |b|
    ensures StateAt(a + b, |a| + n) == ShiftedState(StateAt(b, n), |a|)
  {
    hide StateAt, SpansUpTo, Advanced;
    if n == 0 {
      PrefixScansAlike(a, b, |a|);
      StartOfScan(b);
    } else {
      RestStateAlone(a, b, n - 1);
      assert (a + b)[|a| + n - 1] == b[n - 1];
      ScanStep(a + b, |a| + n);
      ScanStep(b, n);
      AdvancedShifts(StateAt(b, n - 1), b[n - 1], n - 1, |a|);
    }
  }

  lemma CompletedShifts(a: string, b: string, n: nat)
    requires n < |b| && StateAt(a + b, |a| + n) == ShiftedState(StateAt(b, n), |a|)
    ensures
      var span := Completed(b, n);
      Completed(a + b, |a| + n) == if span.None? then None else Some(ShiftedSpan(span.value, |a|))
  {
    assert (a + b)[|a| + n] == b[n];
    AdvancedShifts(StateAt(b, n), b[n], n, |a|);
    hide StateAt, Advanced;
  }

  lemma {:induction false} StartOfScan(source: string)
    ensures StateAt(source, 0) == INITIAL && SpansUpTo(source, 0) == []
  {
  }

  /** From a point where the scanner is back in its initial state, it scans the rest as if alone. */
  lemma {:induction false} RestScansAlone(a: string, b: string, n: nat)
    requires StateAt(a, |a|) == INITIAL && n <= |b|
    ensures StateAt(a + b, |a| + n) == ShiftedState(StateAt(b, n), |a|)
    ensures SpansUpTo(a + b, |a| + n) == SpansUpTo(a, |a|) + ShiftedSpans(SpansUpTo(b, n), |a|)
  {
    hide StateAt, SpansUpTo, Advanced;
    RestStateAlone(a, b, n);
    if n == 0 {
      PrefixScansAlike(a, b, |a|);
      StartOfScan(b);
    } else {
      RestStateAlone(a, b, n - 1);
      CompletedShifts(a, b, n - 1);
      RestScansAlone(a, b, n - 1);
      ScanStep(a + b, |a| + n);
      ScanStep(b, n);
      ShiftedAppend(SpansUpTo(a, |a|), SpansUpTo(b, n - 1), Completed(b, n - 1), |a|);
    }
  }

  lemma ShiftedAppend(x: seq<Span>, y: seq<Span>, span: Option<Span>, offset: nat)
    ensures
      x + ShiftedSpans(y + AsList(span), offset) ==
      x + ShiftedSpans(y, offset) + (if span.None? then [] else [ShiftedSpan(span.value, offset)])
  {
    if span.Some? {
      assert ShiftedSpans(y + [span.value], offset) == ShiftedSpans(y, offset) + [ShiftedSpan(span.value, offset)];
    } else {
      assert y + [] == y;
    }
  }

  /** Every completed span lies inside its text. */
  lemma {:induction false} SpansFit(source: string)
    ensures forall span :: span in SpansUpTo(source, |source|) ==> Fits(source, span)
  {
    forall span | span in SpansUpTo(source, |source|)
      ensures Fits(source, span)
    {
      ReturnsExactlyTheSpans(source, |source|, span);
    }
  }

  /** A concatenation splits wherever the scanner is back in its initial state. */
  lemma {:induction false} ConcatenationSplits(a: string, b: string)
    requires StateAt(a, |a|) == INITIAL
    ensures Extracted(a + b) == Extracted(a) + Extracted(b)
  {
    hide SpansUpTo, StateAt, Blocks, Cut, ShiftedSpans, Fits;
    RestScansAlone(a, b, |b|);
    SpansFit(a);
    SpansFit(b);
    CutsConcatenate(a, b, SpansUpTo(a, |a|), SpansUpTo(b, |b|), SpansUpTo(a + b, |a + b|));
  }

  lemma CutLeft(a: string, b: string, span: Span)
    requires Fits(a, span)
    ensures Cut(a + b, span) == Cut(a, span)
  {
  }

  lemma CutRight(a: string, b: string, span: Span)
    requires Fits(b, span)
    ensures Cut(a + b, ShiftedSpan(span, |a|)) == Cut(b, span)
  {
    assert (a + b)[span.start + |a|..span.end + |a|] == b[span.start..span.end];
  }

  lemma CutsConcatenate(a: string, b: string, x: seq<Span>, y: seq<Span>, spans: seq<Span>)
    requires spans == x + ShiftedSpans(y, |a|)
    requires forall span :: span in x ==> Fits(a, span)
    requires forall span :: span in y ==> Fits(b, span)
    ensures Blocks(a + b, spans) == Blocks(a, x) + Blocks(b, y)
  {
    hide Cut, Fits;
    forall k | 0 <= k < |spans|
      ensures Cut(a + b, spans[k]) == if k < |x| then Cut(a, x[k]) else Cut(b, y[k - |x|])
    {
      if k < |x| {
        CutLeft(a, b, x[k]);
      } else {
        assert spans[k] == ShiftedSpan(y[k - |x|], |a|);
        CutRight(a, b, y[k - |x|]);
      }
    }
  }

  /** Scanning a returned block alone returns exactly that block. */
  lemma {:induction false} BlockScansAlone(source: string, span: Span)
    requires IsSpan(source, span)
    ensures Extracted(source[span.start..span.end]) == [source[span.start..span.end]]
  {
    var a, block, rest := source[..span.start], source[span.start..span.end], source[span.end..];
    assert source == a + (block + rest);
    BackToInitial(source, span);
    BlockIsOneSpan(a, block, rest, span);
    var spans := SpansUpTo(block, |block|);
    ReturnsExactlyTheSpans(block, |block|, Span(0, |block|));
    SpansAreOrdered(block, |block|);
    SpansFit(block);
    hide SpansUpTo, StateAt;
    WholeIsOnly(block, spans);
    assert Cut(block, Span(0, |block|)) == block;
  }

  lemma {:induction false} BackToInitial(source: string, span: Span)
    requires IsSpan(source, span)
    ensures StateAt(source[..span.start], span.start) == INITIAL
  {
    StartIsBehind(source, span.start);
    assert source[..span.start] + source[span.start..] == source;
    PrefixScansAlike(source[..span.start], source[span.start..], span.start);
  }

  lemma {:induction false} BlockIsOneSpan(a: string, block: string, rest: string, span: Span)
    requires IsSpan(a + (block + rest), span) && span == Span(|a|, |a| + |block|) && StateAt(a, |a|) == INITIAL
    ensures IsSpan(block, Span(0, |block|))
  {
    hide StateAt, SpansUpTo;
    var source := a + (block + rest);
    forall k: nat | k <= |block|
      ensures DepthAt(block, k) == DepthAt(source, |a| + k)
    {
      RestScansAlone(a, block + rest, k);
      PrefixScansAlike(block, rest, k);
    }
    InitialIsInitial(block);
    assert block[0] == source[|a|];
    forall k | 0 < k < |block|
      ensures DepthAt(block, k) > 0
    {
      assert DepthAt(source, |a| + k) > 0;
    }
    assert DepthAt(block, |block|) == DepthAt(source, |a| + |block|);
  }

  lemma {:induction false} InitialIsInitial(source: string)
    ensures StateAt(source, 0) == INITIAL
  {
  }

  lemma WholeIsOnly(block: string, spans: seq<Span>)
    requires Span(0, |block|) in spans && OrderedSpans(spans)
    requires forall span :: span in spans ==> Fits(block, span)
    ensures spans == [Span(0, |block|)]
  {
    var k :| 0 <= k < |spans| && spans[k] == Span(0, |block|);
    var last := |spans| - 1;
    assert spans[0] in spans && spans[last] in spans;
    assert Fits(block, spans[0]) && Fits(block, spans[last]);
    assert k == 0;
    assert last == 0;
  }

  // ---- The scanner against the grammar ----

  /** What of the state decides how the depth goes on. */
  datatype Mode = Mode(depth: nat, inString: bool, escaped: bool)

  /** Just behind an opening brace at depth zero. */
  const INSIDE := Mode(1, false, false)

  function ModeOf(s: Scan): Mode {
    Mode(s.depth, s.inString, s.escaped)
  }

  function ModeAt(source: string, n: nat): Mode
    requires n <= |source|
  {
    ModeOf(StateAt(source, n))
  }

  function Stepped(m: Mode, c: char): Mode {
    ModeOf(Advanced(Scan(None, m.depth, m.inString, m.escaped), c, 0).0)
  }

  lemma ModeStep(source: string, n: nat)
    requires n < |source|
    ensures ModeAt(source, n + 1) == Stepped(ModeAt(source, n), source[n])
  {
    ScanStep(source, n + 1);
    hide StateAt;
  }

  /** How many characters it takes until the depth is zero. */
  function Closing(u: string, m: Mode): (n: Option<nat>)
    ensures n.Some? ==> n.value <= |u|
    decreases |u|
  {
    if m.depth == 0 then Some(0) else if u == "" then None else Plus(1, Closing(u[1..], Stepped(m, u[0])))
  }

  /** The scan of a text from position `k` closes at `j` exactly when the depth is zero there first. */
  lemma {:induction false} ClosesAt(source: string, k: nat, j: nat)
    requires k <= j <= |source|
    ensures
      Closing(source[k..], ModeAt(source, k)) == Some(j - k) <==>
      DepthAt(source, j) == 0 && forall m :: k <= m < j ==> DepthAt(source, m) > 0
    decreases |source| - k
  {
    hide Stepped, Advanced;
    var u := source[k..];
    if DepthAt(source, k) == 0 {
      assert Closing(u, ModeAt(source, k)) == Some(0);
    } else if k < |source| {
      assert u[0] == source[k] && u[1..] == source[k + 1..];
      ModeStep(source, k);
      if k < j {
        ClosesAt(source, k + 1, j);
        assert (forall m :: k <= m < j ==> DepthAt(source, m) > 0) <==>
               (forall m :: k + 1 <= m < j ==> DepthAt(source, m) > 0);
      }
    }
  }

  lemma OutermostOpens(source: string, i: nat)
    requires i < |source| && Outermost(source, i) && StartOk(source, i)
    ensures ModeAt(source, i + 1) == INSIDE
  {
    ModeStep(source, i);
    hide StateAt;
  }

  /** At an outermost brace, the span is where the scan of the inside closes. */
  lemma SpanIsClosing(source: string, i: nat, j: nat)
    requires i < j <= |source| && Outermost(source, i)
    ensures ModeAt(source, i + 1) == INSIDE
    ensures IsSpan(source, Span(i, j)) <==> Closing(source[i + 1..], INSIDE) == Some(j - i - 1)
  {
    hide Advanced;
    StartIsBehind(source, i);
    OutermostOpens(source, i);
    ClosesAt(source, i + 1, j);
  }

  lemma {:induction false} ClosingStep(c: char, u: string, m: Mode)
    requires m.depth > 0
    ensures Closing([c] + u, m) == Plus(1, Closing(u, Stepped(m, c)))
  {
    assert ([c] + u)[1..] == u;
  }

  /** A string literal is skipped whole, whatever it contains. */
  lemma {:induction false} LiteralIsSkipped(l: Literal, x: string, depth: nat)
    requires FaithfulLiteral(l)
    ensures
      Closing(RenderLiteral(l) + x, Mode(depth + 1, true, false)) ==
        Plus(|RenderLiteral(l)|, Closing(x, Mode(depth + 1, false, false)))
    decreases l
  {
    hide Closing;
    match l
    case Closed =>
      ClosingStep('\"', x, Mode(depth + 1, true, false));
    case Char(c, rest) =>
      ClosingStep(c, RenderLiteral(rest) + x, Mode(depth + 1, true, false));
      LiteralIsSkipped(rest, x, depth);
      assert RenderLiteral(l) + x == [c] + (RenderLiteral(rest) + x);
    case Escape(c, rest) =>
      var y := RenderLiteral(rest) + x;
      ClosingStep('\\', [c] + y, Mode(depth + 1, true, false));
      ClosingStep(c, y, Mode(depth + 1, true, true));
      LiteralIsSkipped(rest, x, depth);
      assert RenderLiteral(l) + x == ['\\'] + ([c] + y);
  }

  lemma Reassociates(p: string, q: string, r: string, x: string)
    ensures (p + (q + r)) + x == p + (q + (r + x))
    ensures (p + q) + x == p + (q + x)
  {
  }

  lemma {:induction false} BodyText(b: Body, x: string)
    ensures b.End? ==> RenderBody(b) + x == ['}'] + x && |RenderBody(b)| == 1
    ensures b.Plain? ==>
      RenderBody(b) + x == [b.c] + (RenderBody(b.rest) + x) && |RenderBody(b)| == 1 + |RenderBody(b.rest)|
    ensures b.Quote? ==>
      && RenderBody(b) + x == ['\"'] + (RenderLiteral(b.literal) + (RenderBody(b.rest) + x))
      && |RenderBody(b)| == 1 + |RenderLiteral(b.literal)| + |RenderBody(b.rest)|
    ensures b.Nested? ==>
      && RenderBody(b) + x == ['{'] + (RenderBody(b.inner) + (RenderBody(b.rest) + x))
      && |RenderBody(b)| == 1 + |RenderBody(b.inner)| + |RenderBody(b.rest)|
  {
    hide RenderLiteral;
    match b
    case End =>
    case Plain(c, rest) => Reassociates([c], RenderBody(rest), "", x);
    case Quote(literal, rest) => Reassociates("\"", RenderLiteral(literal), RenderBody(rest), x);
    case Nested(inner, rest) => Reassociates("{", RenderBody(inner), RenderBody(rest), x);
  }

  /** A body closes exactly one level. */
  lemma {:induction false} BodyClosesOneLevel(b: Body, x: string, depth: nat)
    requires FaithfulBody(b)
    ensures
      Closing(RenderBody(b) + x, Mode(depth + 1, false, false)) ==
        Plus(|RenderBody(b)|, Closing(x, Mode(depth, false, false)))
    decreases b
  {
    hide Closing, RenderBody, RenderLiteral, FaithfulLiteral;
    var m := Mode(depth + 1, false, false);
    BodyText(b, x);
    match b
    case End =>
      ClosingStep('}', x, m);
    case Plain(c, rest) =>
      ClosingStep(c, RenderBody(rest) + x, m);
      BodyClosesOneLevel(rest, x, depth);
    case Quote(literal, rest) =>
      var y := RenderBody(rest) + x;
      ClosingStep('\"', RenderLiteral(literal) + y, m);
      LiteralIsSkipped(literal, y, depth);
      BodyClosesOneLevel(rest, x, depth);
    case Nested(inner, rest) =>
      var y := RenderBody(rest) + x;
      ClosingStep('{', RenderBody(inner) + y, m);
      BodyClosesOneLevel(inner, y, depth + 1);
      BodyClosesOneLevel(rest, x, depth);
  }

  lemma {:induction false} ReadLiteral(u: string, depth: nat) returns (l: Literal)
    requires Closing(u, Mode(depth + 1, true, false)).Some?
    ensures FaithfulLiteral(l) && RenderLiteral(l) <= u
    decreases |u|
  {
    var m := Mode(depth + 1, true, false);
    assert u != "";
    if u[0] == '\"' {
      l := Closed;
    } else if u[0] == '\\' {
      assert Closing(u[1..], Mode(depth + 1, true, true)).Some?;
      assert u[1..] != "" && u[1..][1..] == u[2..];
      var rest := ReadLiteral(u[2..], depth);
      l := Escape(u[1], rest);
      PrefixJoins(u[..2], RenderLiteral(rest), u);
    } else {
      var rest := ReadLiteral(u[1..], depth);
      l := Char(u[0], rest);
      PrefixJoins(u[..1], RenderLiteral(rest), u);
    }
  }

  lemma PrefixJoins(p: string, q: string, u: string)
    requires p <= u && q <= u[|p|..]
    ensures p + q <= u
  {
    assert u == p + u[|p|..];
  }

  /** Where the scan closes, it has read a body. */
  lemma {:induction false} ReadBody(u: string, depth: nat) returns (b: Body)
    requires Closing(u, Mode(depth + 1, false, false)).Some?
    ensures FaithfulBody(b) && RenderBody(b) <= u
    decreases |u|
  {
    var m := Mode(depth + 1, false, false);
    assert u != "" && Closing(u[1..], Stepped(m, u[0])).Some?;
    hide Closing, RenderBody, RenderLiteral, FaithfulLiteral;
    if u[0] == '}' {
      b := End;
      BodyText(b, "");
    } else if u[0] == '{' {
      var inner := ReadBody(u[1..], depth + 1);
      var v := u[1..][|RenderBody(inner)|..];
      assert u[1..] == RenderBody(inner) + v;
      BodyClosesOneLevel(inner, v, depth + 1);
      var rest := ReadBody(v, depth);
      b := Nested(inner, rest);
      PrefixJoins(RenderBody(inner), RenderBody(rest), u[1..]);
      BodyRenders(b, u);
    } else if u[0] == '\"' {
      var literal := ReadLiteral(u[1..], depth);
      var v := u[1..][|RenderLiteral(literal)|..];
      assert u[1..] == RenderLiteral(literal) + v;
      LiteralIsSkipped(literal, v, depth);
      var rest := ReadBody(v, depth);
      b := Quote(literal, rest);
      PrefixJoins(RenderLiteral(literal), RenderBody(rest), u[1..]);
      BodyRenders(b, u);
    } else {
      var rest := ReadBody(u[1..], depth);
      b := Plain(u[0], rest);
      BodyRenders(b, u);
    }
  }

  lemma {:induction false} BodyRenders(b: Body, u: string)
    requires u != ""
    requires
      match b
      case End => false
      case Plain(c, rest) => u[0] == c && RenderBody(rest) <= u[1..]
      case Quote(literal, rest) => u[0] == '\"' && RenderLiteral(literal) + RenderBody(rest) <= u[1..]
      case Nested(inner, rest) => u[0] == '{' && RenderBody(inner) + RenderBody(rest) <= u[1..]
    ensures RenderBody(b) <= u
  {
    hide RenderLiteral;
    assert u[..1] == [u[0]];
    match b
    case Plain(_, rest) => PrefixJoins(u[..1], RenderBody(rest), u);
    case Quote(literal, rest) => PrefixJoins(u[..1], RenderLiteral(literal) + RenderBody(rest), u);
    case Nested(inner, rest) => PrefixJoins(u[..1], RenderBody(inner) + RenderBody(rest), u);
  }

  /** From inside a brace the scan closes exactly at the end of a body. */
  lemma {:induction false} ClosesExactlyAtBody(u: string, n: nat)
    requires n <= |u|
    ensures Closing(u, INSIDE) == Some(n) <==> exists b :: FaithfulBody(b) && RenderBody(b) == u[..n]
  {
    hide Closing, RenderBody, FaithfulBody;
    forall b | FaithfulBody(b) && RenderBody(b) <= u
      ensures Closing(u, INSIDE) == Some(|RenderBody(b)|)
    {
      var x := u[|RenderBody(b)|..];
      assert u == RenderBody(b) + x;
      BodyClosesOneLevel(b, x, 0);
      ClosedAlready(x);
    }
    if Closing(u, INSIDE) == Some(n) {
      var b := ReadBody(u, 0);
      assert RenderBody(b) == u[..n];
    }
  }

  lemma {:induction false} ClosedAlready(x: string)
    ensures Closing(x, Mode(0, false, false)) == Some(0)
  {
  }

  /** At a brace met outside strings at depth zero, a span is exactly a block of the grammar. */
  lemma {:induction false} SpansAreExactlyTheBlocks(source: string, span: Span)
    requires Fits(source, span) && Outermost(source, span.start)
    ensures
      IsSpan(source, span) <==> exists b :: FaithfulBody(b) && Block(b) == source[span.start..span.end]
  {
    hide Closing, RenderBody, FaithfulBody, Outermost, IsSpan;
    var i, j := span.start, span.end;
    SpanIsClosing(source, i, j);
    ClosesExactlyAtBody(source[i + 1..], j - i - 1);
    assert source[i..j][1..] == source[i + 1..][..j - i - 1] == source[i + 1..j];
    assert source[i] == '{' by {
      OutermostIsBrace(source, i);
    }
    forall b
      ensures Block(b) == source[i..j] <==> RenderBody(b) == source[i + 1..j]
    {
      assert Block(b)[1..] == RenderBody(b);
      assert source[i..j] == "{" + source[i + 1..j];
    }
  }

  lemma OutermostIsBrace(source: string, i: nat)
    requires i < |source| && Outermost(source, i)
    ensures source[i] == '{'
  {
  }

  // ---- The scanner returns the blocks of the text ----

  lemma {:induction false} SpanEndsInitial(source: string, span: Span)
    requires IsSpan(source, span)
    ensures StateAt(source, span.end) == INITIAL
  {
    StartStays(source, span.start, span.end);
    StartIsBehind(source, span.end - 1);
    ScanStep(source, span.end);
  }

  lemma SomeMember(spans: seq<Span>)
    ensures spans == [] || exists span :: span in spans
  {
    assert spans != [] ==> spans[0] in spans;
  }

  lemma TextBehind(p: string, q: string, x: string)
    ensures (p + q + x)[|p|..] == q + x && (p + q + x)[..|p|] == p
  {
  }

  lemma {:induction false} LiteralText(l: Literal, x: string)
    ensures l.Closed? ==> RenderLiteral(l) == "\""
    ensures l.Char? ==>
      && (RenderLiteral(l) + x)[..1] == [l.c] && (RenderLiteral(l) + x)[1..] == RenderLiteral(l.rest) + x
      && |RenderLiteral(l)| == 1 + |RenderLiteral(l.rest)|
    ensures l.Escape? ==>
      && (RenderLiteral(l) + x)[..2] == ['\\', l.c] && (RenderLiteral(l) + x)[2..] == RenderLiteral(l.rest) + x
      && |RenderLiteral(l)| == 2 + |RenderLiteral(l.rest)|
  {
    match l
    case Closed =>
    case Char(c, rest) => TextBehind([c], RenderLiteral(rest), x);
    case Escape(c, rest) => TextBehind(['\\', c], RenderLiteral(rest), x);
  }

  /** Inside a string nothing but its end matters. */
  lemma {:induction false} LiteralIsSilent(source: string, k: nat, l: Literal, x: string)
    requires k <= |source| && source[k..] == RenderLiteral(l) + x && FaithfulLiteral(l)
    requires StateAt(source, k).inString && !StateAt(source, k).escaped
    ensures k + |RenderLiteral(l)| <= |source|
    ensures StateAt(source, k + |RenderLiteral(l)|) == StateAt(source, k).(inString := false)
    ensures SpansUpTo(source, k + |RenderLiteral(l)|) == SpansUpTo(source, k)
    decreases l
  {
    hide RenderLiteral;
    LiteralText(l, x);
    var u := source[k..];
    assert source[k] == u[0] && u[0] == u[..1][0] && source[k + 1..] == u[1..];
    ScanStep(source, k + 1);
    hide StateAt, SpansUpTo;
    match l
    case Closed =>
    case Char(_, rest) =>
      LiteralIsSilent(source, k + 1, rest, x);
    case Escape(_, rest) =>
      assert u[0] == u[..2][0] && source[k + 2..] == u[2..];
      ScanStep(source, k + 2);
      LiteralIsSilent(source, k + 2, rest, x);
  }

  lemma {:induction false} TextItemScans(l: Literal)
    requires FaithfulLiteral(l)
    ensures
      var t := RenderItem(Text(l));
      StateAt(t, |t|) == INITIAL && SpansUpTo(t, |t|) == []
  {
    var t := RenderItem(Text(l));
    assert t[0] == '\"' && t[1..] == RenderLiteral(l) + "";
    ScanStep(t, 1);
    StartOfScan(t);
    hide StateAt, SpansUpTo;
    LiteralIsSilent(t, 1, l, "");
  }

  lemma {:induction false} StrayItemScans(c: char)
    requires FaithfulItem(Stray(c))
    ensures StateAt([c], 1) == INITIAL && SpansUpTo([c], 1) == []
  {
    StartOfScan([c]);
    ScanStep([c], 1);
    hide StateAt, SpansUpTo;
  }

  lemma {:induction false} ObjectItemScans(b: Body)
    requires FaithfulBody(b)
    ensures
      var t := Block(b);
      StateAt(t, |t|) == INITIAL && Extracted(t) == [t]
  {
    var t := Block(b);
    var whole := Span(0, |t|);
    assert t[0] == '{' && t[0..|t|] == t;
    assert Outermost(t, 0);
    hide StateAt, SpansUpTo, RenderBody, IsSpan;
    SpansAreExactlyTheBlocks(t, whole);
    BlockScansAlone(t, whole);
    SpanEndsInitial(t, whole);
  }

  lemma {:induction false} ItemScans(item: Item)
    requires FaithfulItem(item)
    ensures
      var t := RenderItem(item);
      StateAt(t, |t|) == INITIAL && Extracted(t) == if item.Object? then [t] else []
  {
    hide StateAt, SpansUpTo;
    match item
    case Stray(c) => StrayItemScans(c);
    case Text(literal) => TextItemScans(literal);
    case Object(body) => ObjectItemScans(body);
  }

  /** A string that is never closed yields nothing. */
  lemma {:induction false} OpenStringIsSilent(source: string, k: nat)
    requires k <= |source| && NoLiteral(source[k..])
    requires StateAt(source, k).inString && !StateAt(source, k).escaped
    ensures SpansUpTo(source, |source|) == SpansUpTo(source, k)
    decreases |source| - k
  {
    if k < |source| {
      var u := source[k..];
      ScanStep(source, k + 1);
      hide StateAt, SpansUpTo;
      assert u[0] == source[k] && u[1..] == source[k + 1..];
      OpenStringShrinks(u);
      if source[k] != '\\' {
        OpenStringIsSilent(source, k + 1);
      } else if k + 1 < |source| {
        assert u[2..] == source[k + 2..];
        ScanStep(source, k + 2);
        OpenStringIsSilent(source, k + 2);
      }
    }
  }

  lemma OpenStringShrinks(u: string)
    requires u != "" && NoLiteral(u)
    ensures u[0] != '\"'
    ensures u[0] != '\\' ==> NoLiteral(u[1..])
    ensures u[0] == '\\' && |u| > 1 ==> NoLiteral(u[2..])
  {
    LongerLiterals(u, Closed);
    assert FaithfulLiteral(Closed);
    forall l | FaithfulLiteral(l)
      ensures u[0] != '\\' ==> !(RenderLiteral(l) <= u[1..])
      ensures u[0] == '\\' && |u| > 1 ==> !(RenderLiteral(l) <= u[2..])
    {
      LongerLiterals(u, l);
      assert u[0] != '\\' ==> FaithfulLiteral(Char(u[0], l));
      assert |u| > 1 ==> FaithfulLiteral(Escape(u[1], l));
    }
  }

  lemma {:induction false} LongerLiterals(u: string, l: Literal)
    requires u != ""
    ensures u[0] == '\"' ==> RenderLiteral(Closed) <= u
    ensures RenderLiteral(l) <= u[1..] ==> RenderLiteral(Char(u[0], l)) <= u
    ensures u[0] == '\\' && |u| > 1 && RenderLiteral(l) <= u[2..] ==> RenderLiteral(Escape(u[1], l)) <= u
  {
    assert u[..1] == [u[0]];
    if RenderLiteral(l) <= u[1..] {
      PrefixJoins(u[..1], RenderLiteral(l), u);
    }
    if u[0] == '\\' && |u| > 1 && RenderLiteral(l) <= u[2..] {
      PrefixJoins(u[..2], RenderLiteral(l), u);
    }
  }

  lemma {:induction false} StaysOpen(source: string, k: nat, j: nat)
    requires k <= j <= |source| && Closing(source[k..], ModeAt(source, k)).None?
    ensures DepthAt(source, j) > 0
    decreases j - k
  {
    hide Stepped, Advanced;
    if k < j {
      ModeStep(source, k);
      assert source[k..][0] == source[k] && source[k..][1..] == source[k + 1..];
      StaysOpen(source, k + 1, j);
    }
  }

  /** A block that is never closed yields nothing, and neither does anything inside it. */
  lemma {:induction false} UnclosedHasNoSpan(source: string, span: Span)
    requires source != "" && source[0] == '{' && NoBody(source[1..])
    ensures !IsSpan(source, span)
  {
    hide StateAt, Advanced, Closing;
    StartOfScan(source);
    assert Outermost(source, 0) && StartOk(source, 0);
    OutermostOpens(source, 0);
    if Closing(source[1..], INSIDE).Some? {
      var b := ReadBody(source[1..], 0);
    } else if Fits(source, span) {
      StaysOpen(source, 1, span.end);
    }
  }

  /** An outermost brace starts a span exactly when a body of the grammar follows it. */
  lemma {:induction false} SpanExistsExactlyWhenClosed(source: string, i: nat)
    requires i < |source| && Outermost(source, i)
    ensures (exists j: nat :: IsSpan(source, Span(i, j))) <==> !NoBody(source[i + 1..])
  {
    hide IsSpan, RenderBody, FaithfulBody, Outermost;
    if j: nat :| IsSpan(source, Span(i, j)) {
      assert Fits(source, Span(i, j)) by {
        SpanFits(source, Span(i, j));
      }
      SpansAreExactlyTheBlocks(source, Span(i, j));
      var b :| FaithfulBody(b) && Block(b) == source[i..j];
      assert RenderBody(b) == Block(b)[1..] == source[i..j][1..] == source[i + 1..j];
      assert RenderBody(b) <= source[i + 1..];
    }
    if b :| FaithfulBody(b) && RenderBody(b) <= source[i + 1..] {
      var j := i + 1 + |RenderBody(b)|;
      OutermostIsBrace(source, i);
      BlockCut(source, i, |RenderBody(b)|);
      assert RenderBody(b) == source[i + 1..][..|RenderBody(b)|] && Block(b) == source[i..j];
      SpansAreExactlyTheBlocks(source, Span(i, j));
    }
  }

  lemma BlockCut(source: string, i: nat, n: nat)
    requires i + 1 + n <= |source| && source[i] == '{'
    ensures source[i..i + 1 + n] == "{" + source[i + 1..][..n]
  {
  }

  lemma SpanFits(source: string, span: Span)
    requires IsSpan(source, span)
    ensures Fits(source, span)
  {
  }

  lemma {:induction false} OpenRestIsSilent(rest: string)
    requires Open(rest)
    ensures Extracted(rest) == []
  {
    StartOfScan(rest);
    hide StateAt, SpansUpTo, NoLiteral, NoBody;
    if rest != "" && rest[0] == '\"' {
      ScanStep(rest, 1);
      OpenStringIsSilent(rest, 1);
    } else if rest != "" {
      forall span
        ensures span !in SpansUpTo(rest, |rest|)
      {
        UnclosedHasNoSpan(rest, span);
        ReturnsExactlyTheSpans(rest, |rest|, span);
      }
      SomeMember(SpansUpTo(rest, |rest|));
    }
  }

  /** The scanner returns exactly the blocks of the text, in order: braces in strings, escaped quotes,
    * stray closing braces and everything behind an unclosed brace or quote yield nothing. */
  lemma {:induction false} ReturnsExactlyTheBlocks(source: string, items: seq<Item>, rest: string)
    requires Decomposes(source, items, rest)
    ensures Extracted(source) == Objects(items)
    decreases |items|
  {
    hide StateAt, Extracted, Decomposes, RenderItem, Open, FaithfulItem;
    DecomposesFirst(source, items, rest);
    if items == [] {
      OpenRestIsSilent(source);
    } else {
      var t := RenderItem(items[0]);
      var more := source[|t|..];
      ItemScans(items[0]);
      ConcatenationSplits(t, more);
      assert source == t + more;
      ReturnsExactlyTheBlocks(more, items[1..], rest);
      ObjectIsItsBlock(items[0]);
    }
  }

  lemma ObjectIsItsBlock(item: Item)
    ensures item.Object? ==> RenderItem(item) == Block(item.body)
  {
  }
}
