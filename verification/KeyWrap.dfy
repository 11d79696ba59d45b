/** AES key wrap: the guards of `Wrap` and `Unwrap` around an opaque wrapping. */
module KeyWrap {
  import opened ByteStrings
  import Padding

  datatype WrapError = Closed | NothingToWrap | NeedsPadding | Library | Verification

  /** What AES-KW (RFC 3394) and AES-KWP (RFC 5649) are defined on. */
  predicate Wrappable(padded: bool, m: Bytes) {
    m != [] && (padded || (|m| >= 16 && |m| % 8 == 0))
  }

  function WrappedLen(padded: bool, len: nat): nat {
    if padded && len % 8 != 0 then len + Padding.Gap(len, 8) + 8 else len + 8
  }

  datatype Algorithm = Algorithm(
    padded: bool,
    wrap: (Bytes, Bytes) -> Bytes,
    unwrap: (Bytes, Bytes) -> Option<Bytes>)
  {
    ghost predicate Lawful() {
      forall kek, m {:trigger wrap(kek, m)} :: Wrappable(padded, m) ==>
        |wrap(kek, m)| == WrappedLen(padded, |m|) && unwrap(kek, wrap(kek, m)) == Some(m)
    }
  }

  function WrapOutcome(w: Option<(Algorithm, Bytes)>, m: Bytes, refused: bool): Result<Bytes, WrapError> {
    if w.None? then Err(Closed)
    else if |m| == 0 then Err(NothingToWrap)
    else if !w.value.0.padded && (|m| < 16 || |m| % 8 != 0) then Err(NeedsPadding)
    else if refused || Seen(m).None? || !Wrappable(w.value.0.padded, Seen(m).value) then Err(Library)
    else Ok(w.value.0.wrap(w.value.1, Seen(m).value))
  }

  function UnwrapOutcome(w: Option<(Algorithm, Bytes)>, c: Bytes, refused: bool): Result<Bytes, WrapError> {
    if w.None? then Err(Closed)
    else if |c| < 16 || |c| % 8 != 0 then Err(Verification)
    else if refused || Seen(c).None? then Err(Verification)
    else match w.value.0.unwrap(w.value.1, Seen(c).value)
      case Some(m) => Ok(m)
      case None => Err(Verification)
  }

  class KeyWrap {
    var cipher: Option<Algorithm>
    var kek: Bytes
    var closed: bool
    const padded: bool

    ghost predicate Valid()
      reads this
    {
      && (closed ==> cipher.None? && kek == [])
      && (!closed ==> cipher.Some? && cipher.value.padded == padded && |kek| in {16, 24, 32})
    }

    function State(): Option<(Algorithm, Bytes)>
      requires Valid()
      reads this
    {
      if closed then None else Some((cipher.value, kek))
    }

    constructor (alg: Algorithm, kek: Bytes)
      requires |kek| in {16, 24, 32}
      ensures Valid() && State() == Some((alg, kek))
    {
      this.cipher, this.kek, this.closed, this.padded := Some(alg), kek, false, alg.padded;
    }

    method Wrap(m: Bytes, refused: bool) returns (r: Result<Bytes, WrapError>)
      requires Valid()
      ensures r == WrapOutcome(State(), m, refused)
    {
      if closed {
        return Err(Closed);
      }
      if |m| == 0 {
        return Err(NothingToWrap);
      }
      if !padded && (|m| < 16 || |m| % 8 != 0) {
        return Err(NeedsPadding);
      }
      var seen := Seen(m);
      if refused || seen.None? || !Wrappable(padded, seen.value) {
        return Err(Library);
      }
      r := Ok(cipher.value.wrap(kek, seen.value));
    }

    method Unwrap(c: Bytes, refused: bool) returns (r: Result<Bytes, WrapError>)
      requires Valid()
      ensures r == UnwrapOutcome(State(), c, refused)
    {
      if closed {
        return Err(Closed);
      }
      if |c| < 16 || |c| % 8 != 0 {
        return Err(Verification);
      }
      var seen := Seen(c);
      if refused || seen.None? {
        return Err(Verification);
      }
      var m := cipher.value.unwrap(kek, seen.value);
      if m.None? {
        return Err(Verification);
      }
      r := Ok(m.value);
    }

    method Close()
      requires Valid()
      modifies this
      ensures Valid() && State() == None
    {
      if !closed {
        cipher := None;
        kek := [];
        closed := true;
      }
    }
  }

  datatype NewError = WrongKekSize | NotFetched

  function NameOf(bits: string, padded: bool): string {
    "AES-" + bits + "-WRAP" + if padded then "-PAD" else ""
  }

  /** OpenSSL's names say which algorithms pad. */
  ghost predicate NamesPadding(fetch: string -> Option<Algorithm>) {
    forall bits, padded :: fetch(NameOf(bits, padded)).Some? ==> fetch(NameOf(bits, padded)).value.padded == padded
  }

  /** `NewKeyWrap`: the KEK's length names the algorithm, and no other length does. */
  method New(fetch: string -> Option<Algorithm>, kek: Bytes, withPadding: bool) returns (r: Result<KeyWrap, NewError>)
    requires NamesPadding(fetch)
    ensures r == Err(WrongKekSize) <==> |kek| !in {16, 24, 32}
    ensures |kek| in {16, 24, 32} ==>
              var bits := if |kek| == 16 then "128" else if |kek| == 24 then "192" else "256";
              var alg := fetch(NameOf(bits, withPadding));
              && (r == Err(NotFetched) <==> alg.None?)
              && (r.Ok? ==>
                    && alg.Some? && alg.value.padded == withPadding
                    && fresh(r.value) && r.value.Valid() && r.value.State() == Some((alg.value, kek)))
  {
    var name;
    ghost var bits := if |kek| == 16 then "128" else if |kek| == 24 then "192" else "256";
    if |kek| == 16 {
      name := "AES-128-WRAP";
    } else if |kek| == 24 {
      name := "AES-192-WRAP";
    } else if |kek| == 32 {
      name := "AES-256-WRAP";
    } else {
      return Err(WrongKekSize);
    }
    if withPadding {
      name := name + "-PAD";
    }
    assert name == NameOf(bits, withPadding);
    var alg := fetch(name);
    if alg.None? {
      return Err(NotFetched);
    }
    var w := new KeyWrap(alg.value, kek);
    r := Ok(w);
  }

  /** `Unwrap`'s length guards let through everything `Wrap` produces, so key
      material comes back for every input that `Wrap` accepts, exactly as long as
      the wrapped length fits a C int. */
  lemma UnwrapUndoesWrap(alg: Algorithm, kek: Bytes, m: Bytes)
    requires alg.Lawful() && WrapOutcome(Some((alg, kek)), m, false).Ok?
    ensures var wrapped := WrapOutcome(Some((alg, kek)), m, false).value;
            UnwrapOutcome(Some((alg, kek)), wrapped, false) == Ok(m) <==> WrappedLen(alg.padded, |m|) < 0x8000_0000
  {
    var x := Seen(m).value;
    WrappedLenPassesGuards(alg.padded, |x|);
    WrappedLenPassesGuards(alg.padded, |m|);
    assert |alg.wrap(kek, x)| == WrappedLen(alg.padded, |x|);
  }

  /** The guards let through exactly what the wrapping is defined on: below 2^31
      bytes OpenSSL never turns a call down for its input, and each guard has its
      own inputs. */
  lemma GuardsAreExact(alg: Algorithm, kek: Bytes, m: Bytes)
    requires |m| < 0x8000_0000
    ensures var r := WrapOutcome(Some((alg, kek)), m, false);
            && (r.Ok? <==> Wrappable(alg.padded, m))
            && (r == Err(NothingToWrap) <==> m == [])
            && (r == Err(NeedsPadding) <==> m != [] && !alg.padded && (|m| < 16 || |m| % 8 != 0))
            && r != Err(Library)
  {
  }

  /** `Unwrap` gives key material exactly for what passes its guards and its
      integrity check, and what the check gave; everything else is the one error. */
  lemma UnwrapsExactly(alg: Algorithm, kek: Bytes, c: Bytes, refused: bool)
    ensures var r := UnwrapOutcome(Some((alg, kek)), c, refused);
            && (forall m ::
                  r == Ok(m) <==>
                    && !refused && |c| >= 16 && |c| % 8 == 0 && Seen(c).Some?
                    && alg.unwrap(kek, Seen(c).value) == Some(m))
            && (r.Err? ==> r == Err(Verification))
            && (|c| < 0x8000_0000 ==> Seen(c) == Some(c))
    ensures UnwrapOutcome(None, c, refused) == Err(Closed)
  {
  }

  /** `Wrap` gives the wrapping of the whole key material under the KEK. */
  lemma WrapsExactly(alg: Algorithm, kek: Bytes, m: Bytes, refused: bool)
    requires |m| < 0x8000_0000
    ensures forall c ::
              WrapOutcome(Some((alg, kek)), m, refused) == Ok(c) <==>
                !refused && Wrappable(alg.padded, m) && c == alg.wrap(kek, m)
    ensures WrapOutcome(Some((alg, kek)), m, true) in {Err(NothingToWrap), Err(NeedsPadding), Err(Library)}
    ensures WrapOutcome(None, m, refused) == Err(Closed)
  {
  }

  lemma WrappedLenPassesGuards(padded: bool, len: nat)
    requires len > 0 && (padded || (len >= 16 && len % 8 == 0))
    ensures WrappedLen(padded, len) % 8 == 0 && 16 <= WrappedLen(padded, len) <= len + 16
  {
    Padding.GapReachesBoundary(len, 8);
  }
}
