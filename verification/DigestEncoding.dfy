/** The byte strings that are hashed for provider statements and for target fingerprints.
  *
  * A decoder recovers exactly what was encoded, and it accepts nothing else, so different inputs
  * have different preimages. Statements are given by their UTF-8 bytes; identity values are texts
  * that are found canonical, normalised and encoded.
  */
module DigestEncoding {
  import opened Utf8
  import opened Wrappers

  /** One past the largest number that fits the eight-byte prefix. */
  const LIMIT: nat := 0x1_0000_0000_0000_0000

  function Ascii(s: string): (r: Bytes)
    requires forall i :: 0 <= i < |s| ==> s[i] as int < 128
    ensures |r| == |s| && forall i :: 0 <= i < |r| ==> r[i] == s[i] as int
  {
    seq(|s|, i requires 0 <= i < |s| => s[i] as int)
  }

  // ---- Eight-byte big-endian numbers ----

  function Power(k: nat): (p: nat)
    ensures p > 0
  {
    if k == 0 then 1 else 256 * Power(k - 1)
  }

  function BigEndian(n: nat, k: nat): (r: Bytes)
    ensures |r| == k
  {
    if k == 0 then [] else BigEndian(n / 256, k - 1) + [n % 256]
  }

  function Value(b: Bytes): nat {
    if b == [] then 0 else 256 * Value(b[..|b| - 1]) + b[|b| - 1]
  }

  lemma {:induction false} ValueOfBigEndian(n: nat, k: nat)
    requires n < Power(k)
    ensures Value(BigEndian(n, k)) == n
  {
    if k > 0 {
      ValueOfBigEndian(n / 256, k - 1);
      assert BigEndian(n, k)[..k - 1] == BigEndian(n / 256, k - 1);
    }
  }

  lemma {:induction false} BigEndianOfValue(b: Bytes)
    ensures BigEndian(Value(b), |b|) == b
    ensures Value(b) < Power(|b|)
  {
    if b != [] {
      var front, last := b[..|b| - 1], b[|b| - 1];
      BigEndianOfValue(front);
      assert (256 * Value(front) + last) / 256 == Value(front);
      assert b == front + [last];
    }
  }

  lemma {:induction false} EightBytesLimit()
    ensures Power(8) == LIMIT
  {
    assert Power(1) == 256 && Power(2) == 0x1_0000 && Power(3) == 0x100_0000;
    assert Power(4) == 0x1_0000_0000 && Power(5) == 0x100_0000_0000;
    assert Power(6) == 0x1_0000_0000_0000 && Power(7) == 0x100_0000_0000_0000;
  }

  /** The packed number; None where packing raises because eight bytes do not hold it. */
  function Packed(n: nat): (r: Option<Bytes>)
    ensures r.Some? ==> |r.value| == 8
  {
    if n < LIMIT then Some(BigEndian(n, 8)) else None
  }

  // ---- Encoding ----

  function Joined(a: Option<Bytes>, b: Option<Bytes>): Option<Bytes> {
    if a.Some? && b.Some? then Some(a.value + b.value) else None
  }

  function Item(item: Bytes): Option<Bytes> {
    Joined(Packed(|item|), Some(item))
  }

  /** Every item with its length in front; the last item is the last thing written. */
  function Items(items: seq<Bytes>): Option<Bytes> {
    if items == [] then Some([]) else Joined(Item(items[0]), Items(items[1..]))
  }

  const PROVIDER_ALGORITHM := Ascii("fardb-provider-statements-v1")

  const FINGERPRINT_ALGORITHM := Ascii("fardb-target-fingerprint-v1")

  /** The algorithm name and a zero byte. */
  function Header(algorithm: Bytes): Bytes {
    algorithm + [0]
  }

  function ProviderPreimage(statements: seq<Bytes>): Option<Bytes> {
    Joined(Some(Header(PROVIDER_ALGORITHM)), Joined(Packed(|statements|), Items(statements)))
  }

  /** The three canonical identity values, without a count. */
  function FingerprintPreimage(adapter: Bytes, authority: Bytes, database: Bytes): Option<Bytes> {
    Joined(Some(Header(FINGERPRINT_ALGORITHM)), Items([adapter, authority, database]))
  }

  lemma JoinedTwice(a: Option<Bytes>, b: Option<Bytes>, c: Option<Bytes>)
    ensures Joined(Joined(a, b), c) == Joined(a, Joined(b, c))
  {
    if a.Some? && b.Some? && c.Some? {
      assert a.value + b.value + c.value == a.value + (b.value + c.value);
    }
  }

  lemma {:induction false} ItemsStep(items: seq<Bytes>, i: nat)
    requires i < |items|
    ensures Items(items[i..]) == Joined(Joined(Packed(|items[i]|), Some(items[i])), Items(items[i + 1..]))
  {
    assert items[i..][1..] == items[i + 1..];
  }

  /** Feeds every item with its length; `fed` is what the hash has received before. */
  method FeedItems(fed: Bytes, items: seq<Bytes>) returns (r: Option<Bytes>)
    ensures r == Joined(Some(fed), Items(items))
  {
    var digest := fed;
    assert items[0..] == items;
    for i := 0 to |items|
      invariant Joined(Some(digest), Items(items[i..])) == Joined(Some(fed), Items(items))
    {
      ItemsStep(items, i);
      var length := Packed(|items[i]|);
      JoinedTwice(Some(digest), Joined(length, Some(items[i])), Items(items[i + 1..]));
      JoinedTwice(Some(digest), length, Some(items[i]));
      if length.None? {
        return None;
      }
      digest := digest + length.value;
      digest := digest + items[i];
    }
    assert digest + [] == digest;
    return Some(digest);
  }

  /** The bytes hashed by `provider_statements_digest`. */
  method ProviderStatementsDigest(statements: seq<Bytes>) returns (r: Option<Bytes>)
    ensures r == ProviderPreimage(statements)
  {
    var digest := PROVIDER_ALGORITHM;
    digest := digest + [0];
    var count := Packed(|statements|);
    JoinedTwice(Some(digest), count, Items(statements));
    if count.None? {
      return None;
    }
    digest := digest + count.value;
    r := FeedItems(digest, statements);
  }

  // ---- Canonical identities ----

  /** What Python's Unicode database supplies. */
  datatype Unicode = Unicode(whitespace: set<CodePoint>, control: set<CodePoint>, nfc: Text -> Text)

  datatype Input = Str(text: Text) | NotText

  datatype FingerprintError = TargetIdentity | TooLong

  /** Not empty, and unchanged by stripping. */
  predicate Stripped(u: Unicode, t: Text) {
    t != [] && t[0] !in u.whitespace && t[|t| - 1] !in u.whitespace
  }

  predicate Acceptable(u: Unicode, v: Input) {
    && v.Str? && Stripped(u, v.text) && (forall i :: 0 <= i < |v.text| ==> v.text[i] !in u.control)
    && Stripped(u, u.nfc(v.text)) && forall i :: 0 <= i < |u.nfc(v.text)| ==> !Surrogate(u.nfc(v.text)[i])
  }

  /** The normalised text of an acceptable input and its bytes; None is the identity error. */
  method CanonicalIdentityValue(u: Unicode, v: Input) returns (r: Option<(Text, Bytes)>)
    ensures r.Some? <==> Acceptable(u, v)
    ensures r.Some? ==> r.value.0 == u.nfc(v.text) && Encode(u.nfc(v.text)) == Some(r.value.1)
  {
    if v.NotText? || !Stripped(u, v.text) {
      return None;
    }
    if exists i :: 0 <= i < |v.text| && v.text[i] in u.control {
      return None;
    }
    var normalized := u.nfc(v.text);
    if !Stripped(u, normalized) {
      return None;
    }
    var encoded := Encode(normalized);
    EncodableExactly(normalized);
    return if encoded.None? then None else Some((normalized, encoded.value));
  }

  /** The bytes of the normalised text of an acceptable input. */
  function CanonicalBytes(u: Unicode, v: Input): (r: Bytes)
    requires Acceptable(u, v)
    ensures Encode(u.nfc(v.text)) == Some(r)
  {
    EncodableExactly(u.nfc(v.text));
    Encode(u.nfc(v.text)).value
  }

  /** The preimage of a fingerprint, or the error that is raised instead. */
  function Fingerprint(u: Unicode, adapter: Input, authority: Input, database: Input): Result<Bytes, FingerprintError> {
    if !Acceptable(u, adapter) || !Acceptable(u, authority) || !Acceptable(u, database) then Err(TargetIdentity)
    else
      var preimage := FingerprintPreimage(
        CanonicalBytes(u, adapter), CanonicalBytes(u, authority), CanonicalBytes(u, database));
      if preimage.None? then Err(TooLong) else Ok(preimage.value)
  }

  /** The name, a zero byte, and the UTF-8 bytes of the three texts in this order, each behind its length. */
  ghost predicate FingerprintOf(b: Bytes, adapter: Text, authority: Text, database: Text) {
    var h := |"fardb-target-fingerprint-v1"| + 1;
    && |b| >= h && HeadedBy(b, "fardb-target-fingerprint-v1")
    && exists x, y, z ::
         Encode(adapter) == Some(x) && Encode(authority) == Some(y) && Encode(database) == Some(z)
         && LaidOut(b[h..], [x, y, z])
  }

  /** The bytes hashed by `target_fingerprint`. */
  method TargetFingerprint(u: Unicode, adapter: Input, authority: Input, database: Input)
    returns (r: Result<Bytes, FingerprintError>)
    ensures r == Fingerprint(u, adapter, authority, database)
    ensures r == Err(TargetIdentity) <==>
      !(Acceptable(u, adapter) && Acceptable(u, authority) && Acceptable(u, database))
    ensures r.Ok? ==> FingerprintOf(r.value, u.nfc(adapter.text), u.nfc(authority.text), u.nfc(database.text))
  {
    if Fingerprint(u, adapter, authority, database).Ok? {
      FingerprintLayout(CanonicalBytes(u, adapter), CanonicalBytes(u, authority), CanonicalBytes(u, database));
    }
    var first := CanonicalIdentityValue(u, adapter);
    if first.None? {
      return Err(TargetIdentity);
    }
    var second := CanonicalIdentityValue(u, authority);
    if second.None? {
      return Err(TargetIdentity);
    }
    var third := CanonicalIdentityValue(u, database);
    if third.None? {
      return Err(TargetIdentity);
    }
    hide Acceptable, Items;
    var digest := FINGERPRINT_ALGORITHM;
    digest := digest + [0];
    var fed := FeedItems(digest, [first.value.1, second.value.1, third.value.1]);
    return if fed.None? then Err(TooLong) else Ok(fed.value);
  }

  // ---- Decoding ----

  /** Exactly `n` items that take up all of `b`. */
  function DecodeItems(b: Bytes, n: nat): Option<seq<Bytes>> {
    if n == 0 then if b == [] then Some([]) else None
    else if |b| < 8 then None
    else
      var end := 8 + Value(b[..8]);
      if |b| < end then None
      else
        var rest := DecodeItems(b[end..], n - 1);
        if rest.None? then None else Some([b[8..end]] + rest.value)
  }

  function DecodeProvider(b: Bytes): Option<seq<Bytes>> {
    var h := |Header(PROVIDER_ALGORITHM)|;
    if |b| < h + 8 || b[..h] != Header(PROVIDER_ALGORITHM) then None
    else DecodeItems(b[h + 8..], Value(b[h..h + 8]))
  }

  function DecodeFingerprint(b: Bytes): Option<seq<Bytes>> {
    var h := |Header(FINGERPRINT_ALGORITHM)|;
    if |b| < h || b[..h] != Header(FINGERPRINT_ALGORITHM) then None else DecodeItems(b[h..], 3)
  }

  lemma {:induction false} PackedValue(n: nat)
    ensures Packed(n).Some? ==> Value(Packed(n).value) == n
  {
    EightBytesLimit();
    hide Power;
    if n < LIMIT {
      ValueOfBigEndian(n, 8);
    }
  }

  lemma {:induction false} ValuePacked(b: Bytes)
    requires |b| == 8
    ensures Packed(Value(b)) == Some(b)
  {
    EightBytesLimit();
    hide Power;
    BigEndianOfValue(b);
  }

  /** The decoder accepts exactly the encodings, and gives back what was encoded. */
  lemma {:induction false} DecodesExactlyItems(b: Bytes, n: nat, items: seq<Bytes>)
    ensures DecodeItems(b, n) == Some(items) <==> |items| == n && Items(items) == Some(b)
    decreases n
  {
    hide BigEndian, Value;
    if n == 0 {
      NoItems(items);
    } else if items == [] {
      assert Items(items) == Some([]);
    } else {
      if DecodeItems(b, n) == Some(items) {
        var end := 8 + Value(b[..8]);
        ValuePacked(b[..8]);
        DecodesExactlyItems(b[end..], n - 1, items[1..]);
        assert b == b[..8] + b[8..end] + b[end..];
        assert items[1..] == DecodeItems(b[end..], n - 1).value;
      }
      if |items| == n && Items(items) == Some(b) {
        EncodedDecodes(b, n, items);
        DecodesExactlyItems(Items(items[1..]).value, n - 1, items[1..]);
        assert items == [items[0]] + items[1..];
      }
    }
  }

  lemma {:induction false} NoItems(items: seq<Bytes>)
    ensures items == [] ==> Items(items) == Some([])
  {
  }

  /** How an encoded list starts. */
  lemma {:induction false} EncodedDecodes(b: Bytes, n: nat, items: seq<Bytes>)
    requires n > 0 && |items| == n && Items(items) == Some(b)
    ensures
      var end := 8 + |items[0]|;
      && |b| >= end && Value(b[..8]) == |items[0]| && b[8..end] == items[0]
      && Items(items[1..]) == Some(b[end..])
  {
    hide BigEndian, Value;
    PackedValue(|items[0]|);
    var p, rest := Packed(|items[0]|).value, Items(items[1..]).value;
    assert b == p + items[0] + rest;
    assert b[..8] == p && b[8..8 + |items[0]|] == items[0] && b[8 + |items[0]|..] == rest;
  }

  /** A provider preimage decodes to the statements it was made of, and nothing else decodes. */
  lemma {:induction false} ProviderDecodesExactly(b: Bytes, statements: seq<Bytes>)
    ensures DecodeProvider(b) == Some(statements) <==> ProviderPreimage(statements) == Some(b)
  {
    hide BigEndian, Value, Items, DecodeItems, Header;
    var header := Header(PROVIDER_ALGORITHM);
    var h := |header|;
    if DecodeProvider(b) == Some(statements) {
      DecodesExactlyItems(b[h + 8..], Value(b[h..h + 8]), statements);
      ValuePacked(b[h..h + 8]);
      assert b == b[..h] + (b[h..h + 8] + b[h + 8..]);
    }
    if ProviderPreimage(statements) == Some(b) {
      PackedValue(|statements|);
      var count, rest := Packed(|statements|).value, Items(statements).value;
      assert b == header + (count + rest);
      assert b[..h] == header && b[h..h + 8] == count && b[h + 8..] == rest;
      DecodesExactlyItems(rest, |statements|, statements);
    }
  }

  lemma FingerprintDecodesExactly(b: Bytes, values: seq<Bytes>)
    requires |values| == 3
    ensures DecodeFingerprint(b) == Some(values) <==> FingerprintPreimage(values[0], values[1], values[2]) == Some(b)
  {
    hide BigEndian, Value, Items, DecodeItems, Header;
    var header := Header(FINGERPRINT_ALGORITHM);
    var h := |header|;
    assert values == [values[0], values[1], values[2]];
    if DecodeFingerprint(b) == Some(values) {
      DecodesExactlyItems(b[h..], 3, values);
      assert b == b[..h] + b[h..];
    }
    if FingerprintPreimage(values[0], values[1], values[2]) == Some(b) {
      var rest := Items(values).value;
      assert b == header + rest;
      assert b[..h] == header && b[h..] == rest;
      DecodesExactlyItems(rest, 3, values);
    }
  }

  /** Different statement lists have different preimages, and none is a fingerprint preimage. */
  lemma {:induction false} PreimagesAreDistinct(
    x: seq<Bytes>, y: seq<Bytes>, adapter: Bytes, authority: Bytes, database: Bytes)
    ensures ProviderPreimage(x).Some? && ProviderPreimage(x) == ProviderPreimage(y) ==> x == y
    ensures ProviderPreimage(x).Some? ==> ProviderPreimage(x) != FingerprintPreimage(adapter, authority, database)
  {
    hide Items, DecodeProvider;
    if ProviderPreimage(x).Some? {
      ProviderDecodesExactly(ProviderPreimage(x).value, x);
      ProviderDecodesExactly(ProviderPreimage(x).value, y);
      var values := [adapter, authority, database];
      if FingerprintPreimage(adapter, authority, database).Some? {
        assert FingerprintPreimage(adapter, authority, database).value[6] == 't' as int;
        assert ProviderPreimage(x).value[6] == 'p' as int;
      }
    }
  }

  // ---- Layout ----

  /** The most significant byte comes first. */
  lemma {:induction false} MostSignificantFirst(n: nat, k: nat, i: nat)
    requires i < k && n < Power(k)
    ensures BigEndian(n, k)[i] == n / Power(k - 1 - i) % 256
  {
    if i == k - 1 {
      assert Power(0) == 1;
    } else {
      MostSignificantFirst(n / 256, k - 1, i);
      DivideTwice(n, Power(k - 2 - i));
    }
  }

  lemma DivideTwice(n: nat, p: nat)
    requires p > 0
    ensures n / 256 / p == n / (256 * p)
  {
    var q, r := n / (256 * p), n % (256 * p);
    assert n == 256 * (q * p) + r;
    var s := r / 256;
    assert n / 256 == q * p + s && s < p;
    QuotientIs(n / 256, p, q, s);
  }

  lemma QuotientIs(m: nat, p: nat, q: nat, s: nat)
    requires p > 0 && s < p && m == q * p + s
    ensures m / p == q
  {
    var d, t := m / p, m % p;
    assert m == d * p + t && (q + 1) * p == q * p + p && (d + 1) * p == d * p + p;
    if d > q {
      Multiples(q + 1, d, p);
    } else if d < q {
      Multiples(d + 1, q, p);
    }
  }

  lemma Multiples(x: nat, y: nat, p: nat)
    requires x <= y
    ensures x * p <= y * p
  {
    assert y * p == x * p + (y - x) * p;
  }

  /** The eight bytes of a length, most significant first. */
  predicate IsLength(b: Bytes, n: nat) {
    && |b| == 8 && n < 0x1_0000_0000_0000_0000
    && b[0] == n / 0x100_0000_0000_0000 % 256 && b[1] == n / 0x1_0000_0000_0000 % 256
    && b[2] == n / 0x100_0000_0000 % 256 && b[3] == n / 0x1_0000_0000 % 256
    && b[4] == n / 0x100_0000 % 256 && b[5] == n / 0x1_0000 % 256
    && b[6] == n / 0x100 % 256 && b[7] == n % 256
  }

  lemma {:induction false} PackedIsLength(n: nat)
    ensures Packed(n).Some? <==> n < 0x1_0000_0000_0000_0000
    ensures Packed(n).Some? ==> IsLength(Packed(n).value, n)
  {
    EightBytesLimit();
    hide BigEndian;
    if n < LIMIT {
      assert Power(0) == 1 && Power(1) == 0x100 && Power(2) == 0x1_0000 && Power(3) == 0x100_0000;
      assert Power(4) == 0x1_0000_0000 && Power(5) == 0x100_0000_0000;
      assert Power(6) == 0x1_0000_0000_0000 && Power(7) == 0x100_0000_0000_0000;
      hide Power;
      forall i: nat | i < 8
        ensures BigEndian(n, 8)[i] == n / Power(7 - i) % 256
      {
        MostSignificantFirst(n, 8, i);
      }
      var b := BigEndian(n, 8);
      assert b[0] == n / Power(7) % 256 && b[1] == n / Power(6) % 256 && b[2] == n / Power(5) % 256;
      assert b[3] == n / Power(4) % 256 && b[4] == n / Power(3) % 256 && b[5] == n / Power(2) % 256;
      assert b[6] == n / Power(1) % 256 && b[7] == n / Power(0) % 256;
    }
  }

  /** Items laid out one after the other, each behind the eight bytes of its length. */
  ghost predicate LaidOut(b: Bytes, items: seq<Bytes>) {
    if items == [] then b == []
    else
      var end := 8 + |items[0]|;
      |b| >= end && IsLength(b[..8], |items[0]|) && b[8..end] == items[0] && LaidOut(b[end..], items[1..])
  }

  lemma {:induction false} ItemsAreLaidOut(items: seq<Bytes>)
    ensures Items(items).Some? ==> LaidOut(Items(items).value, items)
  {
    hide IsLength;
    if items != [] && Items(items).Some? {
      ItemsAreLaidOut(items[1..]);
      EncodedDecodes(Items(items).value, |items|, items);
      PackedIsLength(|items[0]|);
      var p, rest := Packed(|items[0]|).value, Items(items[1..]).value;
      assert Items(items).value == p + items[0] + rest;
      assert Items(items).value[..8] == p;
    }
  }

  /** The codes of these characters and then a zero byte. */
  predicate HeadedBy(b: Bytes, name: string) {
    && |b| > |name| && b[|name|] == 0
    && forall i :: 0 <= i < |name| ==> b[i] as int == name[i] as int
  }

  /** A provider preimage is its name, a zero byte, the count of the statements and the statements. */
  lemma {:induction false} ProviderLayout(statements: seq<Bytes>)
    ensures ProviderPreimage(statements).Some? ==>
      var b := ProviderPreimage(statements).value;
      var h := |"fardb-provider-statements-v1"| + 1;
      && |b| >= h + 8 && HeadedBy(b, "fardb-provider-statements-v1")
      && IsLength(b[h..h + 8], |statements|) && LaidOut(b[h + 8..], statements)
  {
    hide IsLength, LaidOut;
    if ProviderPreimage(statements).Some? {
      PackedIsLength(|statements|);
      ItemsAreLaidOut(statements);
      hide Items, Packed;
      var name, count, rest := Header(PROVIDER_ALGORITHM), Packed(|statements|).value, Items(statements).value;
      var b := ProviderPreimage(statements).value;
      assert b == name + (count + rest);
      assert b[|name|..|name| + 8] == count && b[|name| + 8..] == rest;
      assert b[..|name|] == name;
    }
  }

  /** A fingerprint preimage is its name, a zero byte and the three values in this order. */
  lemma {:induction false} FingerprintLayout(adapter: Bytes, authority: Bytes, database: Bytes)
    ensures FingerprintPreimage(adapter, authority, database).Some? ==>
      var b := FingerprintPreimage(adapter, authority, database).value;
      var h := |"fardb-target-fingerprint-v1"| + 1;
      |b| >= h && HeadedBy(b, "fardb-target-fingerprint-v1") && LaidOut(b[h..], [adapter, authority, database])
  {
    hide LaidOut;
    if FingerprintPreimage(adapter, authority, database).Some? {
      ItemsAreLaidOut([adapter, authority, database]);
      hide Items;
      var name, rest := Header(FINGERPRINT_ALGORITHM), Items([adapter, authority, database]).value;
      var b := FingerprintPreimage(adapter, authority, database).value;
      assert b == name + rest;
      assert b[..|name|] == name && b[|name|..] == rest;
    }
  }

  /** Different identities have different preimages. */
  lemma FingerprintsAreDistinct(x: seq<Bytes>, y: seq<Bytes>)
    requires |x| == 3 && |y| == 3
    ensures
      var preimage := FingerprintPreimage(x[0], x[1], x[2]);
      preimage.Some? && preimage == FingerprintPreimage(y[0], y[1], y[2]) ==> x == y
  {
    hide Items, DecodeFingerprint;
    if FingerprintPreimage(x[0], x[1], x[2]).Some? {
      FingerprintDecodesExactly(FingerprintPreimage(x[0], x[1], x[2]).value, x);
      FingerprintDecodesExactly(FingerprintPreimage(x[0], x[1], x[2]).value, y);
    }
  }

  /** Two accepted identities have the same preimage exactly when their normalised texts agree. */
  lemma FingerprintsIdentify(u: Unicode, x: seq<Input>, y: seq<Input>)
    requires |x| == 3 && |y| == 3
    requires Fingerprint(u, x[0], x[1], x[2]).Ok? && Fingerprint(u, y[0], y[1], y[2]).Ok?
    ensures
      Fingerprint(u, x[0], x[1], x[2]) == Fingerprint(u, y[0], y[1], y[2]) <==>
      forall i :: 0 <= i < 3 ==> u.nfc(x[i].text) == u.nfc(y[i].text)
  {
    hide Stripped, FingerprintPreimage, Encode;
    var a := [CanonicalBytes(u, x[0]), CanonicalBytes(u, x[1]), CanonicalBytes(u, x[2])];
    var b := [CanonicalBytes(u, y[0]), CanonicalBytes(u, y[1]), CanonicalBytes(u, y[2])];
    FingerprintsAreDistinct(a, b);
    forall i | 0 <= i < 3
      ensures a[i] == b[i] <==> u.nfc(x[i].text) == u.nfc(y[i].text)
    {
      EncodingIsInjective(u.nfc(x[i].text), u.nfc(y[i].text));
    }
  }

  /** Different lists of statement texts have different preimages. */
  lemma {:induction false} StatementTextsAreDistinct(x: seq<Text>, y: seq<Text>, bytes: seq<Bytes>, others: seq<Bytes>)
    requires |bytes| == |x| && forall i :: 0 <= i < |x| ==> Encode(x[i]) == Some(bytes[i])
    requires |others| == |y| && forall i :: 0 <= i < |y| ==> Encode(y[i]) == Some(others[i])
    ensures ProviderPreimage(bytes).Some? && ProviderPreimage(bytes) == ProviderPreimage(others) ==> x == y
  {
    hide ProviderPreimage;
    PreimagesAreDistinct(bytes, others, [], [], []);
    if bytes == others {
      forall i | 0 <= i < |x|
        ensures x[i] == y[i]
      {
        EncodingIsInjective(x[i], y[i]);
      }
    }
  }

  /** No encoding exists exactly when some length does not fit its prefix. */
  lemma {:induction false} ItemsFitExactly(items: seq<Bytes>)
    ensures Items(items).Some? <==> forall i :: 0 <= i < |items| ==> |items[i]| < LIMIT
  {
    if items != [] {
      ItemsFitExactly(items[1..]);
      assert forall i :: 0 <= i < |items[1..]| ==> items[1..][i] == items[i + 1];
    }
  }
}
