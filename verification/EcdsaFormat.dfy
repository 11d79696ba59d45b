/** ECDSA signatures in OpenSSL's DER form and in the fixed-width IEEE P1363
    form, and the conversions between them. */
module EcdsaFormat {
  import opened ByteStrings
  import opened Arithmetic
  import opened BigEndian
  import Der

  datatype FormatError =
    | NotASignature(cause: Der.DerError)
    | TrailingBytes(n: nat)
    | NegativeComponent
    | TooWide
    | WrongLength
    | NotEncodable

  /** The byte width of r and s for a curve order of the given bit length. */
  function CoordinateLen(bits: nat): nat {
    (bits + 7) / 8
  }

  /** Every integer below 2^bits fits, and one byte less would not do. */
  lemma {:induction false} CoordinateLenIsExact(bits: nat)
    ensures Pow2(bits) <= Pow256(CoordinateLen(bits))
    ensures bits > 0 ==> Pow256(CoordinateLen(bits) - 1) < Pow2(bits)
  {
    if bits > 8 {
      CoordinateLenIsExact(bits - 8);
      assert Pow2(bits) == 4 * Pow2(bits - 2) && Pow2(bits - 2) == 4 * Pow2(bits - 4);
      assert Pow2(bits - 4) == 4 * Pow2(bits - 6) && Pow2(bits - 6) == 4 * Pow2(bits - 8);
      assert CoordinateLen(bits) == CoordinateLen(bits - 8) + 1;
    } else if bits > 0 {
      assert CoordinateLen(bits) == 1;
      Pow2Monotone(bits, 8);
      assert Pow2(8) == 256;
      assert Pow256(1) == 256;
      assert Pow2(bits) == 2 * Pow2(bits - 1);
    }
  }

  // ---- DER to P1363 ----

  function ToP1363(der: Bytes, coord: nat): Result<Bytes, FormatError> {
    match Der.Unmarshal(der)
    case Err(e) => Err(NotASignature(e))
    case Ok(d) =>
      if d.rest != [] then Err(TrailingBytes(|d.rest|))
      else if d.r < 0 || d.s < 0 then Err(NegativeComponent)
      else if d.r >= Pow256(coord) || d.s >= Pow256(coord) then Err(TooWide)
      else Ok(FixedWidth(d.r, coord) + FixedWidth(d.s, coord))
  }

  /** Go's `copy(dst[at:], src)`. */
  method CopyInto(dst: array<byte>, at: nat, src: Bytes)
    requires at + |src| <= dst.Length
    modifies dst
    ensures dst[..] == old(dst[..at]) + src + old(dst[at + |src|..])
  {
    var i := 0;
    while i < |src|
      invariant 0 <= i <= |src|
      invariant dst[..at + i] == old(dst[..at]) + src[..i]
      invariant dst[at + i..] == old(dst[at + i..])
    {
      dst[at + i] := src[i];
      i := i + 1;
    }
    assert dst[..] == dst[..at + |src|] + dst[at + |src|..];
  }

  /** `derToP1363`: both halves are copied right-aligned into a zeroed buffer. */
  method DerToP1363(der: Bytes, coord: nat) returns (r: Result<Bytes, FormatError>)
    ensures r == ToP1363(der, coord)
  {
    var decoded := Der.Unmarshal(der);
    if decoded.Err? {
      return Err(NotASignature(decoded.error));
    }
    var v := decoded.value;
    if |v.rest| != 0 {
      return Err(TrailingBytes(|v.rest|));
    }
    if v.r < 0 || v.s < 0 {
      return Err(NegativeComponent);
    }
    var rb, sb := MinBytes(v.r), MinBytes(v.s);
    WidthIff(v.r, coord);
    WidthIff(v.s, coord);
    if |rb| > coord || |sb| > coord {
      return Err(TooWide);
    }
    var out := RightAligned(rb, sb, coord);
    r := Ok(out);
  }

  /** Both numbers copied to the right end of their half of a zeroed buffer. */
  method RightAligned(rb: Bytes, sb: Bytes, coord: nat) returns (halves: Bytes)
    requires |rb| <= coord && |sb| <= coord
    ensures halves == (Zeros(coord - |rb|) + rb) + (Zeros(coord - |sb|) + sb)
  {
    var out := new byte[2 * coord](_ => 0);
    CopyInto(out, coord - |rb|, rb);
    assert out[..] == (Zeros(coord - |rb|) + rb) + Zeros(coord);
    CopyInto(out, 2 * coord - |sb|, sb);
    halves := out[..];
  }

  // ---- P1363 to DER ----

  function P1363ToDer(raw: Bytes, coord: nat): Result<Bytes, FormatError> {
    if |raw| != 2 * coord then Err(WrongLength)
    else
      var r, s := Value(raw[..coord]), Value(raw[coord..]);
      if Der.Marshalable(r, s) then Ok(Der.Marshal(r, s)) else Err(NotEncodable)
  }

  // ---- the two conversions undo each other ----

  lemma ReadsBack(r: nat, s: nat, coord: nat)
    requires Der.Marshalable(r, s)
    ensures ToP1363(Der.Marshal(r, s), coord)
              == if r < Pow256(coord) && s < Pow256(coord)
                 then Ok(FixedWidth(r, coord) + FixedWidth(s, coord))
                 else Err(TooWide)
  {
    Der.MarshalRoundTrip(r, s);
  }

  /** From the canonical encoding of (r, s) and back. */
  lemma CanonicalRoundTrip(r: nat, s: nat, coord: nat)
    requires Der.Marshalable(r, s)
    ensures var raw := ToP1363(Der.Marshal(r, s), coord);
            && (raw.Ok? <==> r < Pow256(coord) && s < Pow256(coord))
            && (raw.Ok? ==>
                  && |raw.value| == 2 * coord
                  && Value(raw.value[..coord]) == r
                  && Value(raw.value[coord..]) == s
                  && P1363ToDer(raw.value, coord) == Ok(Der.Marshal(r, s)))
  {
    ReadsBack(r, s, coord);
    if r < Pow256(coord) && s < Pow256(coord) {
      var raw := ToP1363(Der.Marshal(r, s), coord).value;
      assert raw[..coord] == FixedWidth(r, coord);
      assert raw[coord..] == FixedWidth(s, coord);
    }
  }

  /** From fixed width and back: nothing is lost, whatever the bytes are. */
  lemma RawRoundTrip(raw: Bytes, coord: nat)
    requires P1363ToDer(raw, coord).Ok?
    ensures ToP1363(P1363ToDer(raw, coord).value, coord) == Ok(raw)
  {
    var r, s := Value(raw[..coord]), Value(raw[coord..]);
    FixedWidthOfValue(raw[..coord]);
    FixedWidthOfValue(raw[coord..]);
    CanonicalRoundTrip(r, s, coord);
    SameHalves(raw, ToP1363(Der.Marshal(r, s), coord).value, coord);
  }

  lemma SameHalves(a: Bytes, b: Bytes, coord: nat)
    requires |a| == |b| == 2 * coord
    requires Value(a[..coord]) == Value(b[..coord]) && Value(a[coord..]) == Value(b[coord..])
    ensures a == b
  {
    ValueIsInjective(a[..coord], b[..coord]);
    ValueIsInjective(a[coord..], b[coord..]);
    assert a == a[..coord] + a[coord..] && b == b[..coord] + b[coord..];
  }

  /** The conversion succeeds for every string of the right length that a Go
      slice can hold. */
  lemma RawAlwaysConverts(raw: Bytes, coord: nat)
    requires |raw| == 2 * coord < 0x4000_0000_0000_0000
    ensures P1363ToDer(raw, coord).Ok?
  {
    var r, s := Value(raw[..coord]), Value(raw[coord..]);
    IntegerContentWidth(raw[..coord]);
    IntegerContentWidth(raw[coord..]);
    Der.EncodableLengths(|Der.IntegerContent(r)|);
    Der.EncodableLengths(|Der.IntegerContent(s)|);
    Der.EncodableLengths(|Der.Body(r, s)|);
  }

  lemma IntegerContentWidth(half: Bytes)
    ensures |Der.IntegerContent(Value(half))| <= |half| + 1
  {
    ZerosThenMinBytes(half);
  }

  /** Two different fixed-width signatures never become the same DER string. */
  lemma RawConversionIsInjective(a: Bytes, b: Bytes, coord: nat)
    requires P1363ToDer(a, coord).Ok? && P1363ToDer(a, coord) == P1363ToDer(b, coord)
    ensures a == b
  {
    RawRoundTrip(a, coord);
    RawRoundTrip(b, coord);
  }

  predicate Encodes(der: Bytes, r: nat, s: nat, extra: Bytes) {
    && Der.Encodable(|Der.IntegerContent(r)|)
    && Der.Encodable(|Der.IntegerContent(s)|)
    && Der.Encodable(|Der.Body(r, s) + extra|)
    && der == Der.Element(Der.SEQUENCE, Der.Body(r, s) + extra)
  }

  lemma AcceptedShape(der: Bytes)
    requires Der.Unmarshal(der).Ok?
    requires var d := Der.Unmarshal(der).value; d.rest == [] && d.r >= 0 && d.s >= 0
    ensures var d := Der.Unmarshal(der).value; Encodes(der, d.r, d.s, d.extra)
  {
    var d := Der.Unmarshal(der).value;
    Der.ElementUnique(Der.SEQUENCE, der);
    var body := Der.ParseElement(Der.SEQUENCE, der).value.0;
    Der.IntegerElementUnique(body);
    Der.IntegerElementUnique(Der.ParseInteger(body).value.1);
    assert body == Der.Body(d.r, d.s) + d.extra;
  }

  /** Whatever `derToP1363` accepts re-encodes to the canonical form of the pair
      it read, and to the very same bytes exactly when the SEQUENCE held nothing
      after its second INTEGER. */
  lemma AcceptedReencodes(der: Bytes, coord: nat)
    requires ToP1363(der, coord).Ok?
    ensures var d := Der.Unmarshal(der).value;
            && d.r >= 0 && d.s >= 0 && Der.Marshalable(d.r, d.s)
            && P1363ToDer(ToP1363(der, coord).value, coord) == Ok(Der.Marshal(d.r, d.s))
            && (Der.Marshal(d.r, d.s) == der <==> d.extra == [])
  {
    var d := Der.Unmarshal(der).value;
    AcceptedShape(der);
    EncodableMonotone(|Der.Body(d.r, d.s)|, |Der.Body(d.r, d.s) + d.extra|);
    CanonicalRoundTrip(d.r, d.s, coord);
    Der.MarshalRoundTrip(d.r, d.s);
    if d.extra == [] {
      Der.MarshalUnique(der);
    }
  }

  /** The strings `derToP1363` accepts, described without a parser: a SEQUENCE
      that starts with the INTEGERs of two numbers that both fit. */
  lemma AcceptsExactly(der: Bytes, coord: nat)
    ensures ToP1363(der, coord).Ok? <==>
              exists r: nat, s: nat, extra: Bytes ::
                Encodes(der, r, s, extra) && r < Pow256(coord) && s < Pow256(coord)
  {
    if ToP1363(der, coord).Ok? {
      AcceptedShape(der);
    }
    forall r: nat, s: nat, extra: Bytes | Encodes(der, r, s, extra)
      ensures Der.Unmarshal(der) == Ok(Der.Decoded(r, s, extra, []))
    {
      EncodedReadsBack(der, r, s, extra);
    }
  }

  lemma EncodedReadsBack(der: Bytes, r: nat, s: nat, extra: Bytes)
    requires Encodes(der, r, s, extra)
    ensures Der.Unmarshal(der) == Ok(Der.Decoded(r, s, extra, []))
  {
    var body, es := Der.Body(r, s) + extra, Der.Element(Der.INTEGER, Der.IntegerContent(s));
    assert Der.ParseElement(Der.SEQUENCE, der) == Ok((body, [])) by {
      Der.ElementRoundTrip(Der.SEQUENCE, body, []);
      assert der + [] == der;
    }
    Der.BodyReadsBack(r, s, extra);
    Der.UnmarshalInSteps(der, body, r, es + extra, s, extra);
  }

  lemma EncodableMonotone(m: nat, n: nat)
    requires m <= n && Der.Encodable(n)
    ensures Der.Encodable(m)
  {
    WidthIff(n, 126);
    WidthIff(m, 126);
  }

  /** The second INTEGER of an encoding starts behind the first one and behind at
      least four more bytes, and its number still follows. */
  lemma SecondTag(der: Bytes, r: nat, s: nat, extra: Bytes) returns (t: nat)
    requires Encodes(der, r, s, extra)
    ensures t >= |MinBytes(r)| + 4 && |der| >= t + 2 + |MinBytes(s)|
    ensures der[t] == Der.INTEGER
  {
    var cr, cs := Der.IntegerContent(r), Der.IntegerContent(s);
    var first := Der.Element(Der.INTEGER, cr);
    var front := [Der.SEQUENCE] + Der.EncodeLength(|Der.Body(r, s) + extra|) + first;
    var back := Der.EncodeLength(|cs|) + cs + extra;
    assert Der.Body(r, s) + extra == first + [Der.INTEGER] + back;
    assert der == front + [Der.INTEGER] + back;
    t := |front|;
  }

  /** The two forms of a signature always differ: where the fixed-width form would
      need the tag of the second INTEGER it has a padding zero. */
  lemma FormsDiffer(der: Bytes, coord: nat)
    requires ToP1363(der, coord).Ok?
    ensures ToP1363(der, coord).value != der
  {
    var raw, d := ToP1363(der, coord).value, Der.Unmarshal(der).value;
    WidthIff(d.r, coord);
    WidthIff(d.s, coord);
    AcceptedShape(der);
    var t := SecondTag(der, d.r, d.s, d.extra);
    if |MinBytes(d.r)| < coord {
      assert raw[0] == 0;
    } else if |der| == 2 * coord {
      assert raw[t] == FixedWidth(d.s, coord)[t - coord];
    }
  }

  /** Every rejection, in the order of the checks: what does not parse, what is left
      over, a negative number, and a number that is too wide. */
  lemma RejectsExactly(der: Bytes, coord: nat)
    ensures var u, r := Der.Unmarshal(der), ToP1363(der, coord);
            && (forall e :: r == Err(NotASignature(e)) <==> u == Err(e))
            && (u.Ok? ==>
                  var whole, positive := u.value.rest == [], u.value.r >= 0 && u.value.s >= 0;
                  && (forall n :: r == Err(TrailingBytes(n)) <==> !whole && n == |u.value.rest|)
                  && (r == Err(NegativeComponent) <==> whole && !positive)
                  && (r == Err(TooWide) <==>
                        whole && positive && (u.value.r >= Pow256(coord) || u.value.s >= Pow256(coord))))
            && r != Err(WrongLength) && r != Err(NotEncodable)
    ensures P1363ToDer(der, coord) == Err(WrongLength) <==> |der| != 2 * coord
  {
  }

  // ---- the format paths of Sign and Verify ----

  const P1363 := 1

  /** What `Sign` and `SignDigest` return for the signature OpenSSL produced. */
  function SignOutput(format: int, der: Bytes, bits: nat): Result<Bytes, FormatError> {
    if format == P1363 then ToP1363(der, CoordinateLen(bits)) else Ok(der)
  }

  /** What `Verify` and `VerifyDigest` hand to OpenSSL; `None` is ErrVerification. */
  function VerifyInput(format: int, sig: Bytes, bits: nat): Option<Bytes> {
    if |sig| == 0 then None
    else if format != P1363 then Some(sig)
    else match P1363ToDer(sig, CoordinateLen(bits))
      case Ok(der) => Some(der)
      case Err(_) => None
  }

  /** Under P1363 the verifier never sees the bytes it was given. */
  lemma ConversionIsAnother(sig: Bytes, bits: nat)
    ensures VerifyInput(P1363, sig, bits) != Some(sig)
  {
    var coord := CoordinateLen(bits);
    if P1363ToDer(sig, coord).Ok? {
      RawRoundTrip(sig, coord);
      FormsDiffer(P1363ToDer(sig, coord).value, coord);
    }
  }

  /** A signature over a curve of order below 2^bits reaches the verifier as
      the bytes OpenSSL signed with, in either format. */
  lemma VerifierSeesSignersBytes(format: int, r: nat, s: nat, bits: nat)
    requires Der.Marshalable(r, s)
    requires 0 < bits && r < Pow2(bits) && s < Pow2(bits)
    ensures SignOutput(format, Der.Marshal(r, s), bits).Ok?
    ensures VerifyInput(format, SignOutput(format, Der.Marshal(r, s), bits).value, bits) == Some(Der.Marshal(r, s))
  {
    CoordinateLenIsExact(bits);
    CanonicalRoundTrip(r, s, CoordinateLen(bits));
  }
}
