/** The size test of `InitSecureHeap`. */
module SecureHeap {
  import opened ByteStrings
  import opened Arithmetic

  datatype InitError = NotPositive | NotPowerOfTwo

  /** Bitwise AND of two non-negative integers of any width. */
  function And(a: nat, b: nat): (r: nat) {
    if a == 0 || b == 0 then 0 else 2 * And(a / 2, b / 2) + if a % 2 == 1 && b % 2 == 1 then 1 else 0
  }

  ghost predicate IsPowerOfTwo(n: int) {
    exists k: nat :: n == Pow2(k)
  }

  function CheckSizes(size: int, minAlloc: int): Result<(), InitError> {
    if size <= 0 || minAlloc <= 0 then Err(NotPositive)
    else if And(size, size - 1) != 0 || And(minAlloc, minAlloc - 1) != 0 then Err(NotPowerOfTwo)
    else Ok(())
  }

  lemma {:induction false} AndWithPredecessor(n: nat)
    requires n > 0
    ensures And(n, n - 1) == 0 <==> IsPowerOfTwo(n)
  {
    if n == 1 {
      assert n == Pow2(0);
    } else if n % 2 == 1 {
      AndWithItself(n / 2);
      assert (n - 1) / 2 == n / 2;
      forall k: nat ensures n != Pow2(k) {
        if k > 0 { assert Pow2(k) == 2 * Pow2(k - 1); }
      }
    } else {
      AndWithPredecessor(n / 2);
      assert (n - 1) / 2 == n / 2 - 1;
      assert IsPowerOfTwo(n / 2) ==> IsPowerOfTwo(n) by {
        if k: nat :| n / 2 == Pow2(k) { assert n == Pow2(k + 1); }
      }
      assert IsPowerOfTwo(n) ==> IsPowerOfTwo(n / 2) by {
        if k: nat :| n == Pow2(k) { assert n / 2 == Pow2(k - 1); }
      }
    }
  }

  lemma {:induction false} AndWithItself(n: nat)
    ensures And(n, n) == n
  {
    if n > 0 {
      AndWithItself(n / 2);
    }
  }

  /** The mask test passes exactly the pairs of positive powers of two. */
  lemma AcceptsPowersOfTwo(size: int, minAlloc: int)
    ensures CheckSizes(size, minAlloc).Ok? <==> IsPowerOfTwo(size) && IsPowerOfTwo(minAlloc)
    ensures CheckSizes(size, minAlloc) == Err(NotPositive) <==> size <= 0 || minAlloc <= 0
  {
    if size > 0 { AndWithPredecessor(size); }
    if minAlloc > 0 { AndWithPredecessor(minAlloc); }
  }

  /** The documentation also asks that `size` be a multiple of `minAlloc`. No
      code checks it; an accepted pair satisfies it exactly when `minAlloc`
      does not exceed `size`. */
  lemma AcceptedSizesDivide(size: int, minAlloc: int)
    requires CheckSizes(size, minAlloc).Ok?
    ensures size % minAlloc == 0 <==> minAlloc <= size
  {
    AcceptsPowersOfTwo(size, minAlloc);
    var j: nat :| size == Pow2(j);
    var k: nat :| minAlloc == Pow2(k);
    PowersDivide(j, k);
  }

  lemma PowersDivide(j: nat, k: nat)
    ensures Pow2(j) % Pow2(k) == 0 <==> Pow2(k) <= Pow2(j)
  {
    if k <= j {
      Pow2Splits(j, k);
      Pow2Monotone(k, j);
      ProductIsMultiple(Pow2(k), Pow2(j - k));
    } else {
      Pow2Grows(j, k);
      SmallerIsItsOwnRemainder(Pow2(j), Pow2(k));
    }
  }

  lemma SmallerIsItsOwnRemainder(a: nat, m: nat)
    requires a < m
    ensures a % m == a
  {
  }

  lemma {:induction false} Pow2Splits(j: nat, k: nat)
    requires k <= j
    ensures Pow2(j) == Pow2(k) * Pow2(j - k)
  {
    if k > 0 {
      Pow2Splits(j - 1, k - 1);
    }
  }

  lemma {:induction false} Pow2Grows(j: nat, k: nat)
    requires j < k
    ensures Pow2(j) < Pow2(k)
  {
    if j < k - 1 {
      Pow2Grows(j, k - 1);
    }
  }

  /** A pair that passes the test although `size` is no multiple of `minAlloc`. */
  lemma MultipleIsNotChecked()
    ensures CheckSizes(16, 32).Ok? && 16 % 32 != 0
  {
    assert Pow2(4) == 16 && Pow2(5) == 32;
    AcceptsPowersOfTwo(16, 32);
  }
}
