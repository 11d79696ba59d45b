/** Go slices over arrays: what `append` does to the memory behind them, and when
    a caller's plaintext survives being encrypted. */
module Slices {
  import opened ByteStrings
  import B = BlockCipher

  /** `len` bytes from `off` on, with room for `cap`. */
  datatype Slice = Slice(mem: array<byte>, off: nat, len: nat, cap: nat)
  {
    predicate Valid() {
      len <= cap && off + cap <= mem.Length
    }

    function Contents(): (s: Bytes)
      requires Valid()
      reads mem
      ensures |s| == len
    {
      mem[off..off + len]
    }

    /** `append` writes n more bytes in place. */
    predicate HasRoom(n: nat)
      requires Valid()
    {
      len + n <= cap
    }
  }

  /** Memory after out was written at `at`. */
  function Written(mem: Bytes, at: nat, out: Bytes): (after: Bytes)
    requires at + |out| <= |mem|
    ensures |after| == |mem|
  {
    mem[..at] + out + mem[at + |out|..]
  }

  method AppendInPlace(dst: Slice, out: Bytes) returns (r: Slice)
    requires dst.Valid() && dst.HasRoom(|out|)
    modifies dst.mem
    ensures r == dst.(len := dst.len + |out|)
    ensures dst.mem[..] == Written(old(dst.mem[..]), dst.off + dst.len, out)
  {
    var at := dst.off + dst.len;
    forall i | 0 <= i < |out| { dst.mem[at + i] := out[i]; }
    r := dst.(len := dst.len + |out|);
  }

  /** `append(dst, out...)`. */
  method Append(dst: Slice, out: Bytes) returns (r: Slice)
    requires dst.Valid()
    modifies dst.mem
    ensures r.Valid() && r.Contents() == old(dst.Contents()) + out
    ensures dst.HasRoom(|out|) ==> r == dst.(len := dst.len + |out|)
    ensures dst.mem[..] ==
              if dst.HasRoom(|out|) then Written(old(dst.mem[..]), dst.off + dst.len, out) else old(dst.mem[..])
    ensures !dst.HasRoom(|out|) ==> fresh(r.mem)
  {
    if dst.HasRoom(|out|) {
      ghost var before := dst.mem[..];
      r := AppendInPlace(dst, out);
      WrittenBehind(before, dst.off, dst.len, out);
      assert r.Contents() == dst.mem[..][r.off..r.off + r.len];
      assert old(dst.Contents()) == before[dst.off..dst.off + dst.len];
    } else {
      var all := dst.Contents() + out;
      var mem := new byte[|all|](i requires 0 <= i < |all| => all[i]);
      assert mem[0..|all|] == all;
      r := Slice(mem, 0, |all|, |all|);
    }
  }

  lemma WrittenBehind(mem: Bytes, off: nat, len: nat, out: Bytes)
    requires off + len + |out| <= |mem|
    ensures Written(mem, off + len, out)[off..off + len + |out|] == mem[off..off + len] + out
  {
  }

  /** n bytes from `at` on meet len bytes from `off` on. */
  predicate Overlap(at: nat, n: nat, off: nat, len: nat) {
    n > 0 && len > 0 && at < off + len && off < at + n
  }

  /** A stretch of memory survives every possible output of n bytes exactly when
      it does not overlap the place the output goes to. */
  lemma SurvivesIff(mem: Bytes, at: nat, n: nat, off: nat, len: nat)
    requires at + n <= |mem| && off + len <= |mem|
    ensures (forall out: Bytes :: |out| == n ==> Written(mem, at, out)[off..off + len] == mem[off..off + len])
              <==> !Overlap(at, n, off, len)
  {
    if Overlap(at, n, off, len) {
      var i := if at < off then off else at;
      var out: Bytes := seq(n, j requires 0 <= j < n => (mem[at + j] as int + 1) % 256);
      assert Written(mem, at, out)[off..off + len][i - off] != mem[off..off + len][i - off];
    } else {
      forall out: Bytes | |out| == n
        ensures Written(mem, at, out)[off..off + len] == mem[off..off + len]
      {
        assert forall i :: off <= i < off + len ==> Written(mem, at, out)[i] == mem[i];
      }
    }
  }

  /** Where `append` puts its output, if that is in front of other slices. */
  predicate Clobbers(dst: Slice, n: nat, other: Slice)
    requires dst.Valid()
  {
    dst.mem == other.mem && dst.HasRoom(n) && Overlap(dst.off + dst.len, n, other.off, other.len)
  }

  /** `Encrypt(dst, iv, plaintext)` on the caller's slices: the result is what it is
      for values, and of the caller's memory only the room behind dst changes. */
  method Encrypt(x: B.Cipher, dst: Slice, iv: B.Iv, text: Slice, refuses: B.Call -> bool)
    returns (r: Result<Slice, B.CipherError>)
    requires x.Valid() && dst.Valid() && text.Valid()
    modifies dst.mem
    ensures r.Ok? ==> r.value.Valid() && r.value.len >= dst.len
    ensures B.EncryptOutcome(x.State(), old(dst.Contents()), iv, old(text.Contents()), refuses)
              == match r
                 case Ok(s) => Ok(s.Contents())
                 case Err(e) => Err(e)
    ensures dst.mem[..] ==
              if r.Ok? && dst.HasRoom(r.value.len - dst.len)
              then Written(old(dst.mem[..]), dst.off + dst.len, r.value.Contents()[dst.len..])
              else old(dst.mem[..])
  {
    var plain := text.Contents();
    B.EncryptAppends(x.State(), dst.Contents(), iv, plain, refuses);
    var sealed := x.Encrypt([], iv, plain, refuses);
    if sealed.Err? {
      return Err(sealed.error);
    }
    var s := Append(dst, sealed.value);
    assert s.Contents()[dst.len..] == sealed.value;
    r := Ok(s);
  }

  /** A plaintext is the same after being encrypted, whatever the ciphertext, exactly
      when the ciphertext is not appended over it: with a capacity that reaches into
      the plaintext, as that of `plaintext[:0]` does, it is. */
  lemma PlaintextSurvivesIff(dst: Slice, n: nat, text: Slice, before: Bytes)
    requires dst.Valid() && text.Valid() && |before| == dst.mem.Length
    requires dst.mem == text.mem && dst.HasRoom(n)
    ensures (forall out: Bytes :: |out| == n ==>
               var after := Written(before, dst.off + dst.len, out);
               after[text.off..text.off + text.len] == before[text.off..text.off + text.len])
              <==> !Clobbers(dst, n, text)
  {
    SurvivesIff(before, dst.off + dst.len, n, text.off, text.len);
  }

  /** Encrypting in place, `Encrypt(plaintext[:0], iv, plaintext)`, overwrites every
      plaintext that is not empty and leaves room for its ciphertext. */
  lemma InPlaceOverwrites(text: Slice, n: nat)
    requires text.Valid() && text.len > 0 && n > 0
    ensures Clobbers(text.(len := 0), n, text) <==> n <= text.cap
  {
  }
}
