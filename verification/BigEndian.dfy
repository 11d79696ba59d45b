/** Base-256 arithmetic: what `big.Int.SetBytes` and `big.Int.Bytes` compute. */
module BigEndian {
  import opened ByteStrings
  import opened Arithmetic

  /** `new(big.Int).SetBytes(s)`: s read as an unsigned big-endian number. */
  function Value(s: Bytes): nat {
    if s == [] then 0 else 256 * Value(s[..|s| - 1]) + s[|s| - 1]
  }

  /** `n.Bytes()`: the shortest big-endian form, empty for zero. */
  function MinBytes(n: nat): Bytes {
    if n == 0 then [] else MinBytes(n / 256) + [n % 256]
  }

  lemma {:induction false} ValueOfMinBytes(n: nat)
    ensures Value(MinBytes(n)) == n
    ensures n > 0 ==> MinBytes(n) != [] && MinBytes(n)[0] != 0
  {
    if n > 0 {
      ValueOfMinBytes(n / 256);
      var m := MinBytes(n);
      assert m[..|m| - 1] == MinBytes(n / 256);
    }
  }

  /** Every byte string is its own minimal form behind a run of zeros. */
  lemma {:induction false} ZerosThenMinBytes(s: Bytes)
    ensures |MinBytes(Value(s))| <= |s|
    ensures s == Zeros(|s| - |MinBytes(Value(s))|) + MinBytes(Value(s))
    ensures |MinBytes(Value(s))| < |s| ==> s[0] == 0
  {
    if s != [] {
      var t := s[..|s| - 1];
      ZerosThenMinBytes(t);
      if Value(s) > 0 {
        assert MinBytes(Value(s)) == MinBytes(Value(t)) + [s[|s| - 1]];
      }
    }
  }

  lemma {:induction false} ValueBehindZeros(z: nat, s: Bytes)
    ensures Value(Zeros(z) + s) == Value(s)
  {
    var p := Zeros(z) + s;
    if s != [] {
      assert p[..|p| - 1] == Zeros(z) + s[..|s| - 1];
      ValueBehindZeros(z, s[..|s| - 1]);
    } else if z > 0 {
      assert p[..|p| - 1] == Zeros(z - 1) + s;
      ValueBehindZeros(z - 1, s);
    }
  }

  /** Without a leading zero the byte string is the minimal form of its value. */
  lemma MinBytesOfValue(s: Bytes)
    requires s != [] ==> s[0] != 0
    ensures MinBytes(Value(s)) == s
  {
    ZerosThenMinBytes(s);
  }

  /** A number fits in k bytes exactly when it is below 256^k. */
  lemma {:induction false} WidthIff(n: nat, k: nat)
    ensures |MinBytes(n)| <= k <==> n < Pow256(k)
  {
    if n > 0 && k > 0 {
      WidthIff(n / 256, k - 1);
    }
  }

  /** n left-padded with zeros to exactly `width` bytes. */
  function FixedWidth(n: nat, width: nat): (s: Bytes)
    requires n < Pow256(width)
    ensures |s| == width && Value(s) == n
  {
    WidthIff(n, width);
    ValueBehindZeros(width - |MinBytes(n)|, MinBytes(n));
    ValueOfMinBytes(n);
    Zeros(width - |MinBytes(n)|) + MinBytes(n)
  }

  /** Fixed-width forms are unique: the value of a byte string determines it. */
  lemma FixedWidthOfValue(s: Bytes)
    ensures Value(s) < Pow256(|s|) && FixedWidth(Value(s), |s|) == s
  {
    var n := Value(s);
    ZerosThenMinBytes(s);
    WidthIff(n, |s|);
    assert FixedWidth(n, |s|) == Zeros(|s| - |MinBytes(n)|) + MinBytes(n);
  }

  lemma ValueIsInjective(a: Bytes, b: Bytes)
    requires |a| == |b| && Value(a) == Value(b)
    ensures a == b
  {
    FixedWidthOfValue(a);
    FixedWidthOfValue(b);
  }
}
