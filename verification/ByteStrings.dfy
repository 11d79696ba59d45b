/** Bytes, byte strings and the result types every other module uses. */
module ByteStrings {

  type byte = x: int | 0 <= x < 256

  type Bytes = seq<byte>

  datatype Option<+T> = None | Some(value: T)

  datatype Result<+T, +E> = Ok(value: T) | Err(error: E)

  function Zeros(n: nat): (z: Bytes)
    ensures |z| == n && forall i :: 0 <= i < n ==> z[i] == 0
  {
    seq(n, _ => 0)
  }

  /** A C int holds 32 bits in two's complement; Go's `C.int(v)` keeps the low 32 bits of v. */
  function CInt(v: int): (c: int)
    ensures -0x8000_0000 <= c < 0x8000_0000
    ensures (c - v) % 0x1_0000_0000 == 0
    ensures -0x8000_0000 <= v < 0x8000_0000 ==> c == v
  {
    (v + 0x8000_0000) % 0x1_0000_0000 - 0x8000_0000
  }

  const EVP_MAX_BLOCK_LENGTH := 32

  /** The bytes a C call sees of a Go slice: its length is passed as a C int,
      and OpenSSL refuses a negative one. */
  function Seen(x: Bytes): (seen: Option<Bytes>)
    ensures seen == Some(x) <==> |x| < 0x8000_0000
    ensures seen.Some? ==> seen.value <= x
  {
    assert x[..|x|] == x;
    if CInt(|x|) < 0 then None else Some(x[..CInt(|x|)])
  }

  /** Concatenation of all chunks, in order. */
  function Concat(chunks: seq<Bytes>): Bytes {
    if chunks == [] then [] else Concat(chunks[..|chunks| - 1]) + chunks[|chunks| - 1]
  }

  /** What is not seen whole is seen without 2^32 bytes or more of it. */
  lemma SeenIsMuchShorter(x: Bytes)
    requires |x| >= 0x8000_0000 && Seen(x).Some?
    ensures |Seen(x).value| + 0x1_0000_0000 <= |x|
  {
  }
}
