/** UTF-8 as RFC 3629, section 3 defines it, with the strict refusal of surrogates.
  *
  * A text is a sequence of code points, surrogates included. Encoding is exact: the decoder accepts
  * the encodings of texts and nothing else, so different texts have different bytes.
  */
module Utf8 {
  import opened Wrappers

  type Byte = b: nat | b < 256

  type Bytes = seq<Byte>

  type CodePoint = c: nat | c < 0x11_0000

  type Text = seq<CodePoint>

  predicate Surrogate(c: CodePoint) {
    0xD800 <= c < 0xE000
  }

  /** The bytes of one code point; strict encoding raises on a surrogate. */
  function EncodePoint(c: CodePoint): (r: Option<Bytes>)
    ensures r.None? <==> Surrogate(c)
    ensures r.Some? ==> 0 < |r.value| <= 4
  {
    if c < 0x80 then Some([c])
    else if c < 0x800 then Some([0xC0 + c / 64, 0x80 + c % 64])
    else if Surrogate(c) then None
    else if c < 0x1_0000 then Some([0xE0 + c / 4096, 0x80 + c / 64 % 64, 0x80 + c % 64])
    else Some([0xF0 + c / 0x4_0000, 0x80 + c / 4096 % 64, 0x80 + c / 64 % 64, 0x80 + c % 64])
  }

  function Encode(t: Text): Option<Bytes> {
    if t == [] then Some([])
    else if EncodePoint(t[0]).None? || Encode(t[1..]).None? then None
    else Some(EncodePoint(t[0]).value + Encode(t[1..]).value)
  }

  /** The number of bytes that the leading byte announces. */
  function Announced(b: Byte): (n: nat)
    ensures 0 < n <= 4
  {
    if b < 0xC0 then 1 else if b < 0xE0 then 2 else if b < 0xF0 then 3 else 4
  }

  /** What a byte carries besides its marker. */
  function Bits(b: Byte, marker: int): int {
    b as int - marker
  }

  /** The number that the bits of one announced group spell. */
  function Payload(b: Bytes): int
    requires 0 < |b| <= 4
  {
    match |b|
    case 1 => b[0]
    case 2 => Bits(b[0], 0xC0) * 64 + Bits(b[1], 0x80)
    case 3 => Bits(b[0], 0xE0) * 4096 + Bits(b[1], 0x80) * 64 + Bits(b[2], 0x80)
    case _ => Bits(b[0], 0xF0) * 0x4_0000 + Bits(b[1], 0x80) * 4096 + Bits(b[2], 0x80) * 64 + Bits(b[3], 0x80)
  }

  /** A group spells a code point only if that is how the code point is written, which rules out
    * overlong forms, surrogates and stray bytes. */
  function Spelled(b: Bytes): (r: Option<CodePoint>)
    requires 0 < |b| <= 4
    ensures r.Some? ==> EncodePoint(r.value) == Some(b)
  {
    var c := Payload(b);
    if 0 <= c < 0x11_0000 && EncodePoint(c) == Some(b) then Some(c) else None
  }

  function Decode(b: Bytes): Option<Text> {
    if b == [] then Some([])
    else
      var n := Announced(b[0]);
      if |b| < n || Spelled(b[..n]).None? then None
      else
        var rest := Decode(b[n..]);
        if rest.None? then None else Some([Spelled(b[..n]).value] + rest.value)
  }

  /** The leading byte of a code point announces its length, and its payload is the code point. */
  lemma PointIsSpelled(c: CodePoint)
    requires !Surrogate(c)
    ensures
      var b := EncodePoint(c).value;
      Announced(b[0]) == |b| && Spelled(b) == Some(c)
  {
    var high, low := c / 64, c % 64;
    assert c == 64 * high + low;
    assert high / 64 == c / 4096 && high == 64 * (high / 64) + high % 64;
    assert c / 4096 / 64 == c / 0x4_0000 && c / 4096 == 64 * (c / 4096 / 64) + c / 4096 % 64;
    assert Payload(EncodePoint(c).value) == c;
  }

  predicate Continuation(b: Byte) {
    0x80 <= b < 0xC0
  }

  /** The table of the standard: which bytes write a code point, by their leading byte. */
  predicate Writes(b: Bytes, c: CodePoint) {
    || (|b| == 1 && b[0] < 0x80 && c == b[0])
    || (|b| == 2 && 0xC2 <= b[0] < 0xE0 && Continuation(b[1]) && c + 0x3080 == (b[0] as int) * 0x40 + b[1])
    || (|b| == 3 && 0xE0 <= b[0] < 0xF0 && Continuation(b[1]) && Continuation(b[2])
        && c >= 0x800 && !(0xD800 <= c < 0xE000)
        && c + 0xE2080 == (b[0] as int) * 0x1000 + (b[1] as int) * 0x40 + b[2])
    || (|b| == 4 && 0xF0 <= b[0] < 0xF5 && Continuation(b[1]) && Continuation(b[2]) && Continuation(b[3])
        && c >= 0x1_0000
        && c + 0x3C8_2080 == (b[0] as int) * 0x4_0000 + (b[1] as int) * 0x1000 + (b[2] as int) * 0x40 + b[3])
  }

  lemma EncodedIsWritten(c: CodePoint)
    requires !Surrogate(c)
    ensures Writes(EncodePoint(c).value, c)
  {
    var high, low := c / 64, c % 64;
    assert c == 64 * high + low;
    assert high / 64 == c / 4096 && high == 64 * (high / 64) + high % 64;
    assert c / 4096 / 64 == c / 0x4_0000 && c / 4096 == 64 * (c / 4096 / 64) + c / 4096 % 64;
  }

  /** Encoding follows the table. */
  lemma EncodesByTheTable(c: CodePoint, b: Bytes)
    ensures EncodePoint(c) == Some(b) <==> Writes(b, c)
  {
    if !Surrogate(c) {
      EncodedIsWritten(c);
    }
    if Writes(b, c) {
      WritesOnce(b, EncodePoint(c).value, c);
    }
  }

  lemma LastGroup(x: int, y: Byte, u: int, v: Byte)
    requires 0x40 * x + y == 0x40 * u + v && Continuation(y) && Continuation(v)
    ensures x == u && y == v
  {
  }

  /** The length of a group is fixed by its code point, and so is each byte in turn. */
  lemma WritesOnce(b: Bytes, d: Bytes, c: CodePoint)
    requires Writes(b, c) && Writes(d, c)
    ensures b == d
  {
    assert |b| == |d|;
    match |b|
    case 1 =>
    case 2 => LastGroup(b[0], b[1], d[0], d[1]);
    case 3 =>
      LastGroup(0x40 * (b[0] as int) + b[1], b[2], 0x40 * (d[0] as int) + d[1], d[2]);
      LastGroup(b[0], b[1], d[0], d[1]);
    case _ =>
      LastGroup(0x1000 * (b[0] as int) + 0x40 * (b[1] as int) + b[2], b[3],
                0x1000 * (d[0] as int) + 0x40 * (d[1] as int) + d[2], d[3]);
      LastGroup(0x40 * (b[0] as int) + b[1], b[2], 0x40 * (d[0] as int) + d[1], d[2]);
      LastGroup(b[0], b[1], d[0], d[1]);
  }

  /** The decoder accepts exactly the encodings, and gives back what was encoded. */
  lemma {:induction false} DecodesExactly(b: Bytes, t: Text)
    ensures Decode(b) == Some(t) <==> Encode(t) == Some(b)
    decreases |b|
  {
    hide EncodePoint, Spelled, Announced;
    if b != [] {
      var n := Announced(b[0]);
      if t != [] && Decode(b) == Some(t) {
        DecodesExactly(b[n..], t[1..]);
        assert t == [t[0]] + t[1..] && b == b[..n] + b[n..];
      }
      if t != [] && Encode(t) == Some(b) {
        PointIsSpelled(t[0]);
        var first, rest := EncodePoint(t[0]).value, Encode(t[1..]).value;
        assert b == first + rest && b[0] == first[0];
        assert b[..n] == first && b[n..] == rest;
        DecodesExactly(rest, t[1..]);
        assert t == [t[0]] + t[1..];
      }
    }
  }

  /** Different texts have different bytes, and a text has bytes exactly when it has no surrogate. */
  lemma {:induction false} EncodingIsInjective(t: Text, u: Text)
    ensures Encode(t).Some? && Encode(t) == Encode(u) ==> t == u
    ensures Encode(t).Some? <==> forall i :: 0 <= i < |t| ==> !Surrogate(t[i])
  {
    if Encode(t).Some? {
      DecodesExactly(Encode(t).value, t);
      DecodesExactly(Encode(t).value, u);
    }
    EncodableExactly(t);
  }

  lemma {:induction false} EncodableExactly(t: Text)
    ensures Encode(t).Some? <==> forall i :: 0 <= i < |t| ==> !Surrogate(t[i])
  {
    if t != [] {
      EncodableExactly(t[1..]);
      assert forall i :: 0 <= i < |t[1..]| ==> t[1..][i] == t[i + 1];
    }
  }
}
