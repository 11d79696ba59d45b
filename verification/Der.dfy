/** The part of DER (X.690) that an ECDSA-Sig-Value uses: tag, definite length,
    INTEGER and a SEQUENCE of two INTEGERs (section 2.2.3 of RFC 3279). */
module Der {
  import opened ByteStrings
  import opened Arithmetic
  import opened BigEndian

  const INTEGER: byte := 0x02
  const SEQUENCE: byte := 0x30

  datatype DerError = Truncated | WrongTag | BadLength | BadInteger

  /** What a decoder reads: both numbers, the bytes that follow them inside the
      SEQUENCE, and the bytes that follow the SEQUENCE. */
  datatype Decoded = Decoded(r: int, s: int, extra: Bytes, rest: Bytes)

  // ---- lengths: sections 8.1.3 and 10.1 of X.690 ----

  /** The long form has at most 126 length octets. */
  predicate Encodable(n: nat) {
    |MinBytes(n)| <= 126
  }

  function EncodeLength(n: nat): Bytes
    requires Encodable(n)
  {
    if n < 128 then [n] else [128 + |MinBytes(n)|] + MinBytes(n)
  }

  /** Rejects the indefinite form, the reserved first octet and every length
      that is not in its shortest form. */
  function DecodeLength(s: Bytes): Result<(nat, Bytes), DerError> {
    if s == [] then Err(Truncated)
    else if s[0] < 128 then Ok((s[0], s[1..]))
    else
      var k := s[0] - 128;
      if k == 0 || k == 127 then Err(BadLength)
      else if |s| < 1 + k then Err(Truncated)
      else if s[1] == 0 || Value(s[1..1 + k]) < 128 then Err(BadLength)
      else Ok((Value(s[1..1 + k]), s[1 + k..]))
  }

  lemma LengthRoundTrip(n: nat, rest: Bytes)
    requires Encodable(n)
    ensures DecodeLength(EncodeLength(n) + rest) == Ok((n, rest))
  {
    var s := EncodeLength(n) + rest;
    if n < 128 {
      assert s[1..] == rest;
    } else {
      ValueOfMinBytes(n);
      assert s[1..1 + |MinBytes(n)|] == MinBytes(n);
      assert s[1 + |MinBytes(n)|..] == rest;
    }
  }

  lemma LengthUnique(s: Bytes)
    requires DecodeLength(s).Ok?
    ensures var (n, rest) := DecodeLength(s).value;
            Encodable(n) && s == EncodeLength(n) + rest
  {
    var (n, rest) := DecodeLength(s).value;
    if s[0] >= 128 {
      MinBytesOfValue(s[1..1 + (s[0] - 128)]);
    } else {
      WidthIff(n, 1);
    }
  }

  // ---- one element ----

  function Element(tag: byte, content: Bytes): Bytes
    requires Encodable(|content|)
  {
    [tag] + EncodeLength(|content|) + content
  }

  function ParseElement(tag: byte, s: Bytes): Result<(Bytes, Bytes), DerError> {
    if s == [] then Err(Truncated)
    else if s[0] != tag then Err(WrongTag)
    else match DecodeLength(s[1..])
      case Err(e) => Err(e)
      case Ok((n, rest)) => if |rest| < n then Err(Truncated) else Ok((rest[..n], rest[n..]))
  }

  lemma ElementRoundTrip(tag: byte, content: Bytes, rest: Bytes)
    requires Encodable(|content|)
    ensures ParseElement(tag, Element(tag, content) + rest) == Ok((content, rest))
  {
    var s := Element(tag, content) + rest;
    assert s[1..] == EncodeLength(|content|) + (content + rest);
    LengthRoundTrip(|content|, content + rest);
  }

  lemma ElementUnique(tag: byte, s: Bytes)
    requires ParseElement(tag, s).Ok?
    ensures var (content, rest) := ParseElement(tag, s).value;
            Encodable(|content|) && s == Element(tag, content) + rest
  {
    LengthUnique(s[1..]);
  }

  // ---- INTEGER: section 8.3 of X.690 ----

  /** Two's complement, with a zero octet in front when the top bit is set. */
  function IntegerContent(n: nat): Bytes {
    var m := MinBytes(n);
    if m == [] || m[0] >= 128 then [0] + m else m
  }

  predicate MinimalContent(c: Bytes) {
    && c != []
    && (|c| > 1 ==> !(c[0] == 0 && c[1] < 128) && !(c[0] == 255 && c[1] >= 128))
  }

  function SignedValue(c: Bytes): int
    requires c != []
  {
    if c[0] < 128 then Value(c) else Value(c) - Pow256(|c|)
  }

  function ParseInteger(s: Bytes): Result<(int, Bytes), DerError> {
    match ParseElement(INTEGER, s)
    case Err(e) => Err(e)
    case Ok((c, rest)) => if MinimalContent(c) then Ok((SignedValue(c), rest)) else Err(BadInteger)
  }

  lemma IntegerRoundTrip(n: nat)
    ensures MinimalContent(IntegerContent(n)) && SignedValue(IntegerContent(n)) == n
  {
    ValueOfMinBytes(n);
    ValueBehindZeros(1, MinBytes(n));
    assert Zeros(1) == [0];
  }

  lemma IntegerReadsBack(n: nat, rest: Bytes)
    requires Encodable(|IntegerContent(n)|)
    ensures ParseInteger(Element(INTEGER, IntegerContent(n)) + rest) == Ok((n, rest))
  {
    IntegerRoundTrip(n);
    ElementRoundTrip(INTEGER, IntegerContent(n), rest);
  }

  /** A minimal content octet string is the only encoding of its value; the
      value is negative exactly when the first octet has its top bit set. */
  lemma IntegerUnique(c: Bytes)
    requires MinimalContent(c)
    ensures SignedValue(c) < 0 <==> c[0] >= 128
    ensures SignedValue(c) >= 0 ==> c == IntegerContent(SignedValue(c))
  {
    FixedWidthOfValue(c);
    if c[0] == 0 {
      assert c == Zeros(1) + c[1..];
      ValueBehindZeros(1, c[1..]);
      MinBytesOfValue(c[1..]);
    } else {
      MinBytesOfValue(c);
    }
  }

  // ---- SEQUENCE { r INTEGER, s INTEGER } ----

  function Body(r: nat, s: nat): Bytes
    requires Encodable(|IntegerContent(r)|) && Encodable(|IntegerContent(s)|)
  {
    Element(INTEGER, IntegerContent(r)) + Element(INTEGER, IntegerContent(s))
  }

  predicate Marshalable(r: nat, s: nat) {
    && Encodable(|IntegerContent(r)|)
    && Encodable(|IntegerContent(s)|)
    && Encodable(|Body(r, s)|)
  }

  /** `asn1.Marshal` of a pair of non-negative integers. */
  function Marshal(r: nat, s: nat): Bytes
    requires Marshalable(r, s)
  {
    Element(SEQUENCE, Body(r, s))
  }

  /** The encoding written out: section 2.2.3 of RFC 3279 in the octets of X.690, for
      numbers of up to 126 bytes, which covers every curve. */
  lemma MarshalWrittenOut(r: nat, s: nat)
    requires |IntegerContent(r)| < 128 && |IntegerContent(s)| < 128
    ensures var a, b := IntegerContent(r), IntegerContent(s);
            var body := [0x02, |a|] + a + [0x02, |b|] + b;
            var n := |body|;
            var length := if n < 128 then [n] else if n < 256 then [0x81, n] else [0x82, n / 256, n % 256];
            Marshalable(r, s) && Marshal(r, s) == [0x30] + length + body
  {
    var a, b := IntegerContent(r), IntegerContent(s);
    var body := [0x02, |a|] + a + [0x02, |b|] + b;
    ShortLength(|a|);
    ShortLength(|b|);
    ShortLength(|body|);
    assert Element(INTEGER, a) == [0x02, |a|] + a && Element(INTEGER, b) == [0x02, |b|] + b;
    assert Body(r, s) == body;
  }

  lemma ShortLength(n: nat)
    requires n < 0x1_0000
    ensures Encodable(n)
    ensures EncodeLength(n) == if n < 128 then [n] else if n < 256 then [0x81, n] else [0x82, n / 256, n % 256]
  {
    if n >= 256 {
      assert MinBytes(n) == MinBytes(n / 256) + [n % 256];
      assert MinBytes(n / 256) == MinBytes(0) + [n / 256];
    } else if n > 0 {
      assert MinBytes(n) == MinBytes(0) + [n];
    }
  }

  /** `asn1.Unmarshal` into a pair of integers: bytes after the second INTEGER
      but still inside the SEQUENCE are tolerated. */
  function Unmarshal(der: Bytes): Result<Decoded, DerError> {
    match ParseElement(SEQUENCE, der)
    case Err(e) => Err(e)
    case Ok((body, rest)) =>
      match ParseInteger(body)
      case Err(e) => Err(e)
      case Ok((r, body')) =>
        match ParseInteger(body')
        case Err(e) => Err(e)
        case Ok((s, extra)) => Ok(Decoded(r, s, extra, rest))
  }

  lemma UnmarshalInSteps(der: Bytes, body: Bytes, r: int, body': Bytes, s: int, extra: Bytes)
    requires ParseElement(SEQUENCE, der) == Ok((body, []))
    requires ParseInteger(body) == Ok((r, body')) && ParseInteger(body') == Ok((s, extra))
    ensures Unmarshal(der) == Ok(Decoded(r, s, extra, []))
  {
  }

  lemma BodyReadsBack(r: nat, s: nat, extra: Bytes)
    requires Encodable(|IntegerContent(r)|) && Encodable(|IntegerContent(s)|)
    ensures ParseInteger(Body(r, s) + extra) == Ok((r, Element(INTEGER, IntegerContent(s)) + extra))
    ensures ParseInteger(Element(INTEGER, IntegerContent(s)) + extra) == Ok((s, extra))
  {
    var er, es := Element(INTEGER, IntegerContent(r)), Element(INTEGER, IntegerContent(s));
    assert Body(r, s) + extra == er + (es + extra);
    IntegerReadsBack(r, es + extra);
    IntegerReadsBack(s, extra);
  }

  lemma MarshalRoundTrip(r: nat, s: nat)
    requires Marshalable(r, s)
    ensures Unmarshal(Marshal(r, s)) == Ok(Decoded(r, s, [], []))
  {
    var es := Element(INTEGER, IntegerContent(s));
    ElementRoundTrip(SEQUENCE, Body(r, s), []);
    assert Marshal(r, s) + [] == Marshal(r, s) && es + [] == es && Body(r, s) + [] == Body(r, s);
    BodyReadsBack(r, s, []);
    UnmarshalInSteps(Marshal(r, s), Body(r, s), r, es, s, []);
  }

  /** DER is canonical: an accepted string without anything beyond the two
      non-negative INTEGERs is the encoding of what was read. */
  lemma MarshalUnique(der: Bytes)
    requires Unmarshal(der).Ok?
    requires var d := Unmarshal(der).value; d.r >= 0 && d.s >= 0 && d.extra == [] && d.rest == []
    ensures var d := Unmarshal(der).value; Marshalable(d.r, d.s) && Marshal(d.r, d.s) == der
  {
    var d := Unmarshal(der).value;
    ElementUnique(SEQUENCE, der);
    var body := ParseElement(SEQUENCE, der).value.0;
    IntegerElementUnique(body);
    IntegerElementUnique(ParseInteger(body).value.1);
    assert body == Body(d.r, d.s);
    assert der == Element(SEQUENCE, body);
  }

  lemma IntegerElementUnique(s: Bytes)
    requires ParseInteger(s).Ok? && ParseInteger(s).value.0 >= 0
    ensures var (n, rest) := ParseInteger(s).value;
            Encodable(|IntegerContent(n)|) && s == Element(INTEGER, IntegerContent(n)) + rest
  {
    ElementUnique(INTEGER, s);
    IntegerUnique(ParseElement(INTEGER, s).value.0);
  }

  /** Everything a Go slice can hold has an encodable length. */
  lemma EncodableLengths(n: nat)
    requires n < 0x1_0000_0000_0000_0000
    ensures Encodable(n) && |EncodeLength(n)| <= 9
  {
    assert Pow256(8) == 0x1_0000_0000_0000_0000;
    WidthIff(n, 8);
  }
}
