/** The C heap: blocks that are allocated, written, read and freed once. */
module CHeap {
  import opened ByteStrings
  import opened Arithmetic

  /** Zero is NULL. */
  type Addr = nat

  /** No repetitions. */
  ghost predicate Distinct<T(!new)>(s: seq<T>) {
    forall i, j :: 0 <= i < j < |s| ==> s[i] != s[j]
  }

  class Heap {
    var live: map<Addr, Bytes>
    /** Every address handed out so far is below this one. */
    var top: Addr
    ghost var freed: seq<Addr>

    ghost predicate Valid()
      reads this
    {
      && top > 0
      && (forall a :: a in live ==> 0 < a < top && a !in freed)
      && (forall a :: a in freed ==> 0 < a < top)
      && Distinct(freed)
    }

    constructor ()
      ensures Valid() && live == map[] && freed == []
    {
      live, top, freed := map[], 1, [];
    }

    method Calloc(n: nat) returns (q: Addr)
      requires Valid()
      modifies this
      ensures Valid() && q != 0 && q !in old(live) && q !in freed
      ensures live == old(live)[q := Zeros(n)] && freed == old(freed)
    {
      q := top;
      live := live[q := Zeros(n)];
      top := top + 1;
    }

    /** memcpy to the start of a block. */
    method Store(q: Addr, src: Bytes)
      requires Valid() && q in live && |src| <= |live[q]|
      modifies this`live
      ensures Valid() && live == old(live)[q := src + old(live)[q][|src|..]]
    {
      live := live[q := src + live[q][|src|..]];
    }

    method Free(q: Addr)
      requires Valid() && q in live
      modifies this`live, this`freed
      ensures Valid() && live == old(live) - {q} && freed == old(freed) + [q]
    {
      live := live - {q};
      freed := freed + [q];
    }
  }

  // ---- C data ----

  /** The bytes before the first NUL: what strlen and every C reader see. */
  function CString(block: Bytes): (s: Bytes)
    ensures |s| <= |block| && s == block[..|s|]
  {
    if block == [] || block[0] == 0 then [] else [block[0]] + CString(block[1..])
  }

  /** A NUL-terminated copy reads back whole exactly when it holds no NUL. */
  lemma {:induction false} CStringOfCopy(s: Bytes)
    ensures CString(s + [0]) == CString(s)
    ensures CString(s) == s <==> 0 !in s
  {
    if s != [] {
      assert (s + [0])[1..] == s[1..] + [0];
      assert s == [s[0]] + s[1..];
      CStringOfCopy(s[1..]);
    }
  }

  /** Integers are stored little-endian. */
  function LittleEndian(n: nat, width: nat): (s: Bytes)
    ensures |s| == width
  {
    if width == 0 then [] else [n % 256] + LittleEndian(n / 256, width - 1)
  }

  function Unsigned(s: Bytes): nat {
    if s == [] then 0 else s[0] + 256 * Unsigned(s[1..])
  }

  lemma {:induction false} UnsignedOfLittleEndian(n: nat, width: nat)
    requires n < Pow256(width)
    ensures Unsigned(LittleEndian(n, width)) == n
  {
    if width > 0 {
      UnsignedOfLittleEndian(n / 256, width - 1);
    }
  }

  /** A four-byte C int in two's complement. */
  function SignedInt(s: Bytes): int {
    if Unsigned(s) >= 0x8000_0000 then Unsigned(s) - 0x1_0000_0000 else Unsigned(s)
  }

  function IntBytes(v: int): Bytes {
    LittleEndian(CInt(v) % 0x1_0000_0000, 4)
  }

  lemma IntReadsBack(v: int)
    ensures SignedInt(IntBytes(v)) == CInt(v)
  {
    assert Pow256(4) == 0x1_0000_0000;
    UnsignedOfLittleEndian(CInt(v) % 0x1_0000_0000, 4);
  }

  function UintBytes(v: nat): Bytes {
    LittleEndian(v % 0x1_0000_0000, 4)
  }

  function SizeBytes(v: int): Bytes {
    LittleEndian(v % 0x1_0000_0000_0000_0000, 8)
  }

  lemma UnsignedReadsBack(v: int)
    ensures v >= 0 ==> Unsigned(UintBytes(v)) == v % 0x1_0000_0000
    ensures Unsigned(SizeBytes(v)) == v % 0x1_0000_0000_0000_0000
  {
    assert Pow256(4) == 0x1_0000_0000;
    assert Pow256(8) == 0x1_0000_0000_0000_0000;
    if v >= 0 { UnsignedOfLittleEndian(v % 0x1_0000_0000, 4); }
    UnsignedOfLittleEndian(v % 0x1_0000_0000_0000_0000, 8);
  }
}
