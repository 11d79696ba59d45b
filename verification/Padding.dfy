/** Block padding applied and removed by the wrapper itself. PKCS#7 is left to
    OpenSSL, whose rules (section 6.3 of RFC 5652) are at the end of the module. */
module Padding {
  import opened ByteStrings
  import opened Arithmetic

  datatype Scheme = PKCS7 | NoPadding | ISO7816 | X923 | Zero

  datatype PadError = NotAppliedHere | Verification

  /** Bytes from the end of a string of the given length to the end of its block,
      a whole block when it is aligned. */
  function Gap(len: nat, block: nat): (n: nat)
    requires block > 0
    ensures 1 <= n <= block
  {
    block - len % block
  }

  lemma GapReachesBoundary(len: nat, block: nat)
    requires block > 0
    ensures (len + Gap(len, block)) % block == 0
  {
    ProductIsMultiple(block, len / block + 1);
    assert len + Gap(len, block) == block * (len / block + 1);
  }

  /** It is the only distance of at most one block that does. */
  lemma GapIff(len: nat, n: nat, block: nat)
    requires block > 0 && n > 0
    ensures n == Gap(len, block) <==> (len + n) % block == 0 && n <= block
  {
    GapReachesBoundary(len, block);
    var g := Gap(len, block);
    if (len + n) % block == 0 && n <= block {
      MultipleBelow(block, (len + n) / block - (len + g) / block, n - g);
    }
  }

  /** `applyPadding`. The X9.23 length byte keeps only the low eight bits. */
  function Apply(p: Scheme, text: Bytes, block: nat): Result<Bytes, PadError>
    requires block > 0
  {
    var n := Gap(|text|, block);
    match p
    case NoPadding => Ok(text)
    case Zero => Ok(text + Zeros(if n == block then 0 else n))
    case ISO7816 => Ok(text + [0x80] + Zeros(n - 1))
    case X923 => Ok(text + Zeros(n - 1) + [n % 256])
    case PKCS7 => Err(NotAppliedHere)
  }

  predicate AllZero(s: Bytes) {
    forall i :: 0 <= i < |s| ==> s[i] == 0
  }

  /** Go's `a | b` on bytes. */
  function Or(a: byte, b: byte): (r: byte)
    ensures r == 0 <==> a == 0 && b == 0
  {
    OrBits(a, b, 8)
  }

  function OrBits(a: nat, b: nat, width: nat): (r: nat)
    requires a < Pow2(width) && b < Pow2(width)
    ensures r < Pow2(width)
    ensures r == 0 <==> a == 0 && b == 0
  {
    if width == 0 then 0
    else 2 * OrBits(a / 2, b / 2, width - 1) + (if a % 2 == 1 || b % 2 == 1 then 1 else 0)
  }

  /** What ISO 7816-4 removal returns: the text before the last non-zero byte,
      which has to be 0x80. */
  function StripIso(s: Bytes): Result<Bytes, PadError> {
    if s == [] then Err(Verification)
    else if s[|s| - 1] == 0 then StripIso(s[..|s| - 1])
    else if s[|s| - 1] == 0x80 then Ok(s[..|s| - 1])
    else Err(Verification)
  }

  function StripX923(s: Bytes, block: nat): Result<Bytes, PadError>
    requires block > 0
  {
    if s == [] || |s| % block != 0 then Err(Verification)
    else
      var n := s[|s| - 1];
      if n == 0 || n > block || n > |s| then Err(Verification)
      else if AllZero(s[|s| - n..|s| - 1]) then Ok(s[..|s| - n])
      else Err(Verification)
  }

  function Strip(p: Scheme, s: Bytes, block: nat): Result<Bytes, PadError>
    requires block > 0
  {
    match p
    case ISO7816 => StripIso(s)
    case X923 => StripX923(s, block)
    case _ => Ok(s)
  }

  /** `removePadding`: a backward scan for ISO 7816-4, an OR fold over the
      filler bytes for X9.23. */
  method Remove(p: Scheme, s: Bytes, block: nat) returns (r: Result<Bytes, PadError>)
    requires block > 0
    ensures r == Strip(p, s, block)
  {
    match p {
      case NoPadding => r := Ok(s);
      case Zero => r := Ok(s);
      case PKCS7 => r := Ok(s);
      case ISO7816 =>
        if |s| == 0 {
          return Err(Verification);
        }
        var i := |s| - 1;
        assert s[..i + 1] == s;
        while i >= 0 && s[i] == 0x00
          invariant -1 <= i < |s|
          invariant StripIso(s) == StripIso(s[..i + 1])
        {
          assert s[..i + 1][..i] == s[..i];
          i := i - 1;
        }
        if i < 0 || s[i] != 0x80 {
          return Err(Verification);
        }
        assert s[..i + 1][..i] == s[..i];
        r := Ok(s[..i]);
      case X923 =>
        if |s| == 0 || |s| % block != 0 {
          return Err(Verification);
        }
        var n := s[|s| - 1] as int;
        if n == 0 || n > block || n > |s| {
          return Err(Verification);
        }
        var acc: byte := 0;
        var filler := s[|s| - n..|s| - 1];
        var i := 0;
        while i < |filler|
          invariant 0 <= i <= |filler|
          invariant acc == 0 <==> AllZero(filler[..i])
        {
          assert filler[..i + 1] == filler[..i] + [filler[i]];
          acc := Or(acc, filler[i]);
          i := i + 1;
        }
        assert filler[..i] == filler;
        if acc != 0 {
          return Err(Verification);
        }
        r := Ok(s[..|s| - n]);
    }
  }

  // ---- shape of the padded text ----

  /** Padding keeps the text in front, and every scheme but `NoPadding` reaches
      a block boundary; zero padding adds the fewest bytes that do. */
  lemma PaddedShape(p: Scheme, text: Bytes, block: nat)
    requires block > 0 && p != PKCS7
    ensures var padded := Apply(p, text, block).value;
            && text <= padded
            && (p != NoPadding ==> |padded| % block == 0)
            && |padded| <= |text| + block
            && (p in {ISO7816, X923} ==> |padded| > |text|)
            && (p == Zero ==> padded == text + Zeros(|padded| - |text|) && |padded| < |text| + block)
  {
    GapReachesBoundary(|text|, block);
    if p == Zero && Gap(|text|, block) == block {
      GapIff(|text|, block, block);
      assert |text| % block == 0;
    }
  }

  /** What is appended, byte by byte, for the only length that reaches a boundary. */
  lemma PadsExactly(p: Scheme, text: Bytes, block: nat, out: Bytes)
    requires block > 0 && p in {ISO7816, X923}
    ensures Apply(p, text, block) == Ok(out) <==>
              var n := |out| - |text|;
              && 1 <= n <= block && |out| % block == 0
              && out == text + (if p == ISO7816 then [0x80] + Zeros(n - 1) else Zeros(n - 1) + [n % 256])
  {
    GapReachesBoundary(|text|, block);
    if |out| > |text| {
      GapToTotal(|text|, |out|, block);
    }
    if p == ISO7816 {
      assert text + [0x80] + Zeros(Gap(|text|, block) - 1) == text + ([0x80] + Zeros(Gap(|text|, block) - 1));
    } else {
      XFiller(text, Gap(|text|, block));
    }
  }

  lemma XFiller(text: Bytes, n: nat)
    requires n > 0
    ensures text + Zeros(n - 1) + [n % 256] == text + (Zeros(n - 1) + [n % 256])
  {
  }

  /** The other two schemes: nothing, or zeros up to the next boundary. */
  lemma PadsWithZeros(text: Bytes, block: nat, n: nat)
    requires block > 0
    ensures Apply(NoPadding, text, block) == Ok(text)
    ensures Apply(Zero, text, block) == Ok(text + Zeros(n)) <==> n < block && (|text| + n) % block == 0
  {
    GapReachesBoundary(|text|, block);
    GapIff(|text|, block, block);
    var g := Gap(|text|, block);
    var z := if g == block then 0 else g;
    assert Apply(Zero, text, block) == Ok(text + Zeros(z));
    assert |text + Zeros(n)| == |text| + n && |text + Zeros(z)| == |text| + z;
    if 0 < n < block {
      GapIff(|text|, n, block);
    }
  }

  // ---- ISO 7816-4 ----

  /** Removal accepts exactly the strings `out ++ 0x80 ++ zeros`; `out` is unique. */
  lemma {:induction false} IsoAcceptsExactly(s: Bytes, out: Bytes)
    ensures StripIso(s) == Ok(out) <==>
              |out| < |s| && s == out + [0x80] + Zeros(|s| - |out| - 1)
  {
    if s != [] {
      var t, last := s[..|s| - 1], s[|s| - 1];
      IsoAcceptsExactly(t, out);
      if last == 0 {
        if StripIso(s) == Ok(out) {
          assert s == t + [0] && Zeros(|s| - |out| - 1) == Zeros(|t| - |out| - 1) + [0];
        }
        if |out| < |s| && s == out + [0x80] + Zeros(|s| - |out| - 1) {
          assert s[|out|] == 0x80;
          assert t == out + [0x80] + Zeros(|t| - |out| - 1);
        }
      } else if |out| < |s| && s == out + [0x80] + Zeros(|s| - |out| - 1) {
        assert s[|t|] == (out + [0x80] + Zeros(|t| - |out|))[|t|];
        assert out == t && last == 0x80;
      }
    }
  }

  /** An accepted string is a padded text exactly when it is aligned and at most
      one block is stripped from it; nothing checks either. */
  lemma IsoImage(s: Bytes, out: Bytes, block: nat)
    requires block > 0 && StripIso(s) == Ok(out)
    ensures Apply(ISO7816, out, block) == Ok(s) <==> |s| % block == 0 && |s| - |out| <= block
  {
    IsoAcceptsExactly(s, out);
    GapToTotal(|out|, |s|, block);
    IsoFillers(out, |s| - |out|, Gap(|out|, block));
  }

  lemma GapToTotal(len: nat, total: nat, block: nat)
    requires block > 0 && total > len
    ensures total - len == Gap(len, block) <==> total % block == 0 && total - len <= block
  {
    GapIff(len, total - len, block);
  }

  lemma IsoFillers(out: Bytes, m: nat, n: nat)
    requires m > 0 && n > 0
    ensures out + [0x80] + Zeros(m - 1) == out + [0x80] + Zeros(n - 1) <==> m == n
  {
    var a, b := out + [0x80] + Zeros(m - 1), out + [0x80] + Zeros(n - 1);
    assert |a| == |out| + m && |b| == |out| + n;
  }

  // ---- X9.23 ----

  /** Removal gives the text back exactly when the filler length fits in its
      byte, which it always does for blocks of up to 255 bytes. */
  lemma X923RoundTrip(text: Bytes, block: nat)
    requires block > 0
    ensures StripX923(Apply(X923, text, block).value, block) == Ok(text) <==> Gap(|text|, block) < 256
  {
    GapReachesBoundary(|text|, block);
    var n := Gap(|text|, block);
    var s := Apply(X923, text, block).value;
    if n < 256 {
      assert s[|s| - n..|s| - 1] == Zeros(n - 1);
      assert s[..|s| - n] == text;
    }
  }

  /** Up to 255 bytes per block, removal accepts exactly the padded texts. */
  lemma X923AcceptsExactly(s: Bytes, out: Bytes, block: nat)
    requires 0 < block < 256
    ensures StripX923(s, block) == Ok(out) <==> Apply(X923, out, block) == Ok(s)
  {
    if StripX923(s, block) == Ok(out) {
      var n := s[|s| - 1];
      GapIff(|out|, n, block);
      assert s == s[..|s| - n] + s[|s| - n..|s| - 1] + [n];
      assert s[|s| - n..|s| - 1] == Zeros(n - 1);
    }
    X923RoundTrip(out, block);
  }

  /** One byte more and a whole block of filler is refused on removal. */
  lemma X923FailsAt256()
    ensures Apply(X923, [], 256).value[255] == 0
    ensures StripX923(Apply(X923, [], 256).value, 256) == Err(Verification)
  {
    X923RoundTrip([], 256);
  }

  // ---- PKCS#7, done inside OpenSSL ----

  function ApplyPkcs7(text: Bytes, block: nat): Bytes
    requires 0 < block < 256
  {
    var n: byte := Gap(|text|, block);
    text + seq(n, _ => n)
  }

  function StripPkcs7(s: Bytes, block: nat): Result<Bytes, PadError>
    requires 0 < block < 256
  {
    if s == [] || |s| % block != 0 then Err(Verification)
    else
      var n := s[|s| - 1];
      if n == 0 || n > block || n > |s| then Err(Verification)
      else if forall i :: |s| - n <= i < |s| ==> s[i] == n then Ok(s[..|s| - n])
      else Err(Verification)
  }

  lemma Pkcs7RoundTrip(text: Bytes, block: nat)
    requires 0 < block < 256
    ensures |ApplyPkcs7(text, block)| % block == 0
    ensures StripPkcs7(ApplyPkcs7(text, block), block) == Ok(text)
  {
    GapReachesBoundary(|text|, block);
    var n := Gap(|text|, block);
    var s := ApplyPkcs7(text, block);
    assert s[..|s| - n] == text;
  }

  /** Removal accepts exactly the padded texts. */
  lemma Pkcs7AcceptsExactly(s: Bytes, out: Bytes, block: nat)
    requires 0 < block < 256
    ensures StripPkcs7(s, block) == Ok(out) <==> ApplyPkcs7(out, block) == s
  {
    if StripPkcs7(s, block) == Ok(out) {
      var n := s[|s| - 1];
      GapToTotal(|out|, |s|, block);
      assert s == s[..|s| - n] + s[|s| - n..];
    }
    Pkcs7RoundTrip(out, block);
  }

  /** Section 6.3 of RFC 5652: n bytes of value n, reaching a boundary. */
  lemma Pkcs7PadsExactly(text: Bytes, block: nat, out: Bytes)
    requires 0 < block < 256
    ensures ApplyPkcs7(text, block) == out <==>
              var n := |out| - |text|;
              1 <= n <= block && |out| % block == 0 && text <= out && forall i :: |text| <= i < |out| ==> out[i] == n
  {
    GapReachesBoundary(|text|, block);
    if |out| > |text| {
      GapToTotal(|text|, |out|, block);
    }
    Pkcs7RoundTrip(text, block);
  }
}
