/** The non-AEAD symmetric cipher: padding, one Init/Update/Final cycle in a
    fresh context, and the closed handle. */
module BlockCipher {
  import opened ByteStrings
  import Arithmetic
  import Padding

  // ---- the IV ----

  /** A slice as C sees it: its bytes, and the memory behind them. */
  datatype Iv = Iv(bytes: Bytes, behind: nat -> byte)

  /** The n bytes OpenSSL reads at the address of an IV, which is all it is given.
      An empty slice is passed as NULL, which is not read. */
  function ReadIv(iv: Iv, n: nat): Bytes {
    if iv.bytes == [] then []
    else seq(n, i requires 0 <= i < n => if i < |iv.bytes| then iv.bytes[i] else iv.behind(i - |iv.bytes|))
  }

  /** Every byte that is read lies inside the slice. */
  predicate ReadsInside(len: nat, n: nat) {
    len == 0 || n <= len
  }

  /** The slice alone decides what is read exactly when the read stays inside it. */
  lemma IvReadStaysInsideIff(iv: Iv, n: nat)
    ensures (forall other: Iv :: other.bytes == iv.bytes ==> ReadIv(other, n) == ReadIv(iv, n)) <==>
            ReadsInside(|iv.bytes|, n)
  {
    if !ReadsInside(|iv.bytes|, n) {
      var other := Iv(iv.bytes, i => (iv.behind(i) + 1) % 256);
      assert ReadIv(other, n)[n - 1] != ReadIv(iv, n)[n - 1];
    }
  }

  const MAX_IV_SIZE := 1024

  /** The IV length a handle is made with: the cipher's own, or the option's. */
  function ConfiguredIv(own: nat, option: Option<int>): Option<nat> {
    match option
    case None => Some(own)
    case Some(n) => if n < 0 || n > MAX_IV_SIZE then None else Some(n)
  }

  // ---- OpenSSL's side ----

  /** A cipher mode as an opaque pair of length-preserving inverses, with the block
      size it reports, the length of IV it reads, and the lengths it takes in one
      update. A ciphertext-stealing mode reports its cipher's block size but takes
      any number of bytes. */
  datatype Mode = Mode(
    blockSize: nat,
    stealing: bool,
    ivLen: nat,
    accepts: nat -> bool,
    enc: (Bytes, Bytes, Bytes) -> Bytes,
    dec: (Bytes, Bytes, Bytes) -> Bytes)
  {
    /** What input has to be a multiple of. */
    function Unit(): nat {
      if stealing then 1 else blockSize
    }

    predicate Aligned(x: Bytes)
      requires blockSize > 0
    {
      |x| % blockSize == 0
    }

    predicate Full(x: Bytes)
      requires blockSize > 0
    {
      |x| % Unit() == 0
    }

    /** On whole units both directions keep the length and decryption undoes
        encryption. */
    ghost predicate Invertible()
      requires blockSize > 0
    {
      && (forall k, iv, x {:trigger enc(k, iv, x)} ::
            Full(x) ==> |enc(k, iv, x)| == |x| && dec(k, iv, enc(k, iv, x)) == x)
      && (forall k, iv, x {:trigger dec(k, iv, x)} :: Full(x) ==> |dec(k, iv, x)| == |x|)
    }

    /** Where a unit is a block, any length may be fed, and output does not depend
        on later input. */
    ghost predicate Blockwise()
      requires blockSize > 0 && Invertible()
    {
      && (forall n: nat {:trigger accepts(n)} :: accepts(n))
      && (forall k, iv, x, n: nat {:trigger enc(k, iv, x[..n])} ::
            Full(x) && n <= |x| && n % Unit() == 0 ==> enc(k, iv, x[..n]) == enc(k, iv, x)[..n])
      && (forall k, iv, x, n: nat {:trigger dec(k, iv, x[..n])} ::
            Full(x) && n <= |x| && n % Unit() == 0 ==> dec(k, iv, x[..n]) == dec(k, iv, x)[..n])
    }

    ghost predicate Lawful() {
      && 1 <= blockSize <= EVP_MAX_BLOCK_LENGTH
      && accepts(0)
      && Invertible()
      && (Unit() > 1 ==> Blockwise())
    }
  }

  datatype Call = NewContext | Init | SetPadding | Update | Final

  /** What one whole Init/Update/Final cycle yields for the bytes it was fed. */
  function Transform(m: Mode, key: Bytes, iv: Bytes, x: Bytes, encrypt: bool, pads: bool): Option<Bytes>
    requires 1 <= m.blockSize <= EVP_MAX_BLOCK_LENGTH
  {
    if encrypt then
      if pads then Some(m.enc(key, iv, Padding.ApplyPkcs7(x, m.blockSize)))
      else if m.Full(x) then Some(m.enc(key, iv, x))
      else None
    else if !m.Full(x) then None
    else if !pads then Some(m.dec(key, iv, x))
    else match Padding.StripPkcs7(m.dec(key, iv, x), m.blockSize)
      case Ok(text) => Some(text)
      case Err(_) => None
  }

  /** Length of the longest run of whole blocks inside n bytes. */
  function WholeBlocks(n: nat, block: nat): (w: nat)
    requires block > 0
    ensures w <= n && n - w < block && w % block == 0
  {
    MultipleOf(n / block, block);
    n / block * block
  }

  lemma MultipleOf(q: nat, block: nat)
    requires block > 0
    ensures q * block % block == 0
  {
    Arithmetic.ProductIsMultiple(block, q);
  }

  /** An EVP_CIPHER_CTX between Init and Final. Update hands out whole blocks;
      when padding is to be removed it holds the last block back for Final. */
  class Context {
    const mode: Mode
    const key: Bytes
    const iv: Bytes
    const encrypt: bool
    var padding: bool
    var input: Bytes

    constructor (mode: Mode, key: Bytes, iv: Bytes, encrypt: bool)
      ensures this.mode == mode && this.key == key && this.iv == iv && this.encrypt == encrypt
      ensures padding && input == []
    {
      this.mode, this.key, this.iv, this.encrypt := mode, key, iv, encrypt;
      padding := true;
      input := [];
    }

    predicate Pads()
      reads `padding
    {
      padding && mode.Unit() != 1
    }

    function Emitted(): (n: nat)
      requires mode.Lawful()
      reads `padding, `input
      ensures n <= |input| && n % mode.Unit() == 0
    {
      if input == [] then 0
      else WholeBlocks(if !encrypt && Pads() then |input| - 1 else |input|, mode.Unit())
    }

    function Output(): (out: Bytes)
      requires mode.Lawful()
      reads `padding, `input
      ensures |out| == Emitted()
    {
      if encrypt then mode.enc(key, iv, input[..Emitted()]) else mode.dec(key, iv, input[..Emitted()])
    }

    /** EVP_EncryptUpdate and EVP_DecryptUpdate, the first call on a context. */
    method UpdateOnce(buf: array<byte>, x: Bytes, inl: int) returns (ok: bool, n: nat)
      requires mode.Lawful() && input == []
      requires inl <= |x| && |x| <= buf.Length
      modifies this`input, buf
      ensures ok <==> inl >= 0 && mode.accepts(inl)
      ensures ok ==> input == x[..inl] && n == Emitted() && n <= buf.Length && buf[..n] == Output()
    {
      n := 0;
      ok := inl >= 0 && mode.accepts(inl);
      if ok {
        input := x[..inl];
        var out := Output();
        n := |out|;
        forall i | 0 <= i < n { buf[i] := out[i]; }
        assert buf[..n] == out;
      }
    }

    /** EVP_EncryptFinal_ex and EVP_DecryptFinal_ex. */
    method FinalBlock(buf: array<byte>, at: nat) returns (ok: bool, n: nat)
      requires mode.Lawful()
      requires at == Emitted() && at + mode.blockSize <= buf.Length
      requires buf[..at] == Output()
      modifies buf
      ensures ok <==> Transform(mode, key, iv, input, encrypt, Pads()).Some?
      ensures ok ==> at + n <= buf.Length && Transform(mode, key, iv, input, encrypt, Pads()) == Some(buf[..at + n])
    {
      n := 0;
      var whole := Transform(mode, key, iv, input, encrypt, Pads());
      ok := whole.Some?;
      if ok {
        TransformExtendsOutput();
        n := |whole.value| - at;
        forall i | 0 <= i < n { buf[at + i] := whole.value[at + i]; }
        assert buf[..at + n] == buf[..at] + buf[at..at + n];
        assert whole.value == whole.value[..at] + whole.value[at..];
        assert buf[..at + n] == whole.value;
      }
    }

    lemma TransformExtendsOutput()
      requires mode.Lawful()
      requires Transform(mode, key, iv, input, encrypt, Pads()).Some?
      ensures Output() <= Transform(mode, key, iv, input, encrypt, Pads()).value
      ensures |Transform(mode, key, iv, input, encrypt, Pads()).value| <= Emitted() + mode.Unit()
    {
      if encrypt && Pads() {
        PaddedExtendsOutput();
      } else if !encrypt && Pads() {
        assert mode.dec(key, iv, input[..Emitted()]) == mode.dec(key, iv, input)[..Emitted()];
        WholeBlocksBeforeLast(|input|, mode.blockSize);
      } else {
        AlignedWholeBlocks(|input|, mode.Unit());
        assert input[..Emitted()] == input;
      }
    }

    lemma PaddedExtendsOutput()
      requires mode.Lawful() && encrypt && Pads()
      ensures var padded := mode.enc(key, iv, Padding.ApplyPkcs7(input, mode.blockSize));
              Output() <= padded && |padded| <= Emitted() + mode.blockSize
    {
      var padded, m := Padding.ApplyPkcs7(input, mode.blockSize), Emitted();
      Padding.Pkcs7RoundTrip(input, mode.blockSize);
      assert padded[..m] == input[..m];
      assert mode.enc(key, iv, padded[..m]) == mode.enc(key, iv, padded)[..m];
      PaddedLength(|input|, m, mode.blockSize);
    }
  }

  lemma PaddedLength(len: nat, m: nat, block: nat)
    requires block > 0 && m % block == 0 && m <= len < m + block
    ensures len + Padding.Gap(len, block) == m + block
  {
    Padding.GapIff(len, m + block - len, block);
    Padding.GapIff(m, block, block);
  }

  lemma AlignedWholeBlocks(n: nat, block: nat)
    requires block > 0
    ensures n % block == 0 ==> WholeBlocks(n, block) == n
  {
  }

  lemma WholeBlocksBeforeLast(n: nat, block: nat)
    requires block > 0 && n > 0 && n % block == 0
    ensures WholeBlocks(n - 1, block) == n - block
  {
    var w := WholeBlocks(n - 1, block);
    Padding.GapIff(w, n - w, block);
    Padding.GapIff(w, block, block);
  }

  // ---- the wrapper ----

  datatype CipherError = Closed | WrongIvSize | Unaligned | Library | Verification

  /** What an open handle holds. */
  datatype Setup = Setup(mode: Mode, key: Bytes, ivLen: nat, padding: Padding.Scheme)
  {
    ghost predicate Valid() {
      mode.Lawful() && |key| > 0
    }

    predicate Stream() {
      mode.blockSize == 1
    }

    /** Whether OpenSSL pads. */
    predicate Evp() {
      padding == Padding.PKCS7 && mode.Unit() != 1
    }
  }

  /** Whether OpenSSL turns down the update with x, for its length or otherwise. */
  predicate UpdateRefused(m: Mode, x: Bytes, refuses: Call -> bool) {
    x != [] && (refuses(Update) || Seen(x).None? || !m.accepts(|Seen(x).value|))
  }

  /** Whether some call of a cycle over x is refused. */
  predicate Faulty(s: Setup, x: Bytes, refuses: Call -> bool) {
    || refuses(NewContext)
    || refuses(Init)
    || (!s.Stream() && refuses(SetPadding))
    || UpdateRefused(s.mode, x, refuses)
    || refuses(Final)
  }

  function RunOutcome(s: Setup, iv: Iv, x: Bytes, encrypt: bool, refuses: Call -> bool): Result<Bytes, CipherError>
    requires 1 <= s.mode.blockSize <= EVP_MAX_BLOCK_LENGTH
  {
    if Faulty(s, x, refuses) then Err(Library)
    else match Transform(s.mode, s.key, ReadIv(iv, s.mode.ivLen), Seen(x).value, encrypt, s.Evp())
      case Some(out) => Ok(out)
      case None => Err(Library)
  }

  /** The text after the wrapper's own padding. */
  function Padded(s: Setup, text: Bytes): Bytes
    requires s.mode.blockSize > 0
  {
    if s.Stream() || s.padding == Padding.PKCS7 then text
    else Padding.Apply(s.padding, text, s.mode.blockSize).value
  }

  function EncryptOutcome(s: Option<Setup>, dst: Bytes, iv: Iv, text: Bytes, refuses: Call -> bool)
    : Result<Bytes, CipherError>
    requires s.Some? ==> 1 <= s.value.mode.blockSize <= EVP_MAX_BLOCK_LENGTH
  {
    if s.None? then Err(Closed)
    else if |iv.bytes| != s.value.ivLen then Err(WrongIvSize)
    else if !s.value.Stream() && s.value.padding == Padding.NoPadding && !s.value.mode.Aligned(text) then Err(Unaligned)
    else match RunOutcome(s.value, iv, Padded(s.value, text), true, refuses)
      case Ok(out) => Ok(dst + out)
      case Err(e) => Err(e)
  }

  function DecryptOutcome(s: Option<Setup>, dst: Bytes, iv: Iv, text: Bytes, refuses: Call -> bool)
    : Result<Bytes, CipherError>
    requires s.Some? ==> 1 <= s.value.mode.blockSize <= EVP_MAX_BLOCK_LENGTH
  {
    if s.None? then Err(Closed)
    else if |iv.bytes| != s.value.ivLen then Err(WrongIvSize)
    else if !s.value.Stream() && !s.value.mode.Aligned(text) then Err(Verification)
    else match RunOutcome(s.value, iv, text, false, refuses)
      case Err(_) => Err(Verification)
      case Ok(out) =>
        if s.value.Stream() || s.value.padding == Padding.PKCS7 then Ok(dst + out)
        else match Padding.Strip(s.value.padding, out, s.value.mode.blockSize)
          case Ok(stripped) => Ok(dst + stripped)
          case Err(_) => Err(Verification)
  }

  /** What `EVP_CIPHER_fetch` finds; `aead` covers the modes and the flag. */
  datatype Fetched = Fetched(mode: Mode, aead: bool, keyLen: nat)

  datatype NewError = NotFetched | IsAead | WrongKeySize | IvOutOfRange | UnknownPadding

  /** The ciphertext does not depend on what it is appended to. */
  lemma EncryptAppends(s: Option<Setup>, dst: Bytes, iv: Iv, text: Bytes, refuses: Call -> bool)
    requires s.Some? ==> 1 <= s.value.mode.blockSize <= EVP_MAX_BLOCK_LENGTH
    ensures EncryptOutcome(s, dst, iv, text, refuses)
              == match EncryptOutcome(s, [], iv, text, refuses)
                 case Ok(out) => Ok(dst + out)
                 case Err(e) => Err(e)
  {
    assert forall out: Bytes :: [] + out == out;
  }

  class Cipher {
    var cipher: Option<Mode>
    var key: Bytes
    const ivLen: nat
    const blockSz: nat
    const padding: Padding.Scheme
    const stream: bool
    var closed: bool

    ghost predicate Valid()
      reads this
    {
      && (closed ==> cipher.None? && key == [])
      && (!closed ==> cipher.Some? && Setup(cipher.value, key, ivLen, padding).Valid())
      && (!closed ==> cipher.value.blockSize == blockSz)
      && stream == (blockSz == 1)
    }

    /** The open handle's contents; `None` once it is closed. */
    function State(): (s: Option<Setup>)
      requires Valid()
      reads this
      ensures s.Some? ==> s.value.Valid()
    {
      if closed then None else Some(Setup(cipher.value, key, ivLen, padding))
    }

    constructor (mode: Mode, key: Bytes, ivLen: nat, padding: Padding.Scheme)
      requires mode.Lawful() && |key| > 0
      ensures Valid() && State() == Some(Setup(mode, key, ivLen, padding))
    {
      this.cipher, this.key, this.ivLen, this.padding := Some(mode), key, ivLen, padding;
      this.blockSz, this.stream, this.closed := mode.blockSize, mode.blockSize == 1, false;
    }

    method Encrypt(dst: Bytes, iv: Iv, text: Bytes, refuses: Call -> bool) returns (r: Result<Bytes, CipherError>)
      requires Valid()
      ensures r == EncryptOutcome(State(), dst, iv, text, refuses)
    {
      if closed {
        return Err(Closed);
      }
      if |iv.bytes| != ivLen {
        return Err(WrongIvSize);
      }
      var x := text;
      if !stream && padding != Padding.PKCS7 {
        x := Padding.Apply(padding, text, blockSz).value;
      }
      if !stream && padding == Padding.NoPadding && |x| % blockSz != 0 {
        return Err(Unaligned);
      }
      var out := Run(iv, x, true, refuses);
      if out.Err? {
        return out;
      }
      r := Ok(dst + out.value);
    }

    method Decrypt(dst: Bytes, iv: Iv, text: Bytes, refuses: Call -> bool) returns (r: Result<Bytes, CipherError>)
      requires Valid()
      ensures r == DecryptOutcome(State(), dst, iv, text, refuses)
    {
      if closed {
        return Err(Closed);
      }
      if |iv.bytes| != ivLen {
        return Err(WrongIvSize);
      }
      if !stream && |text| % blockSz != 0 {
        return Err(Verification);
      }
      var out := Run(iv, text, false, refuses);
      if out.Err? {
        return Err(Verification);
      }
      if !stream && padding != Padding.PKCS7 {
        var stripped := Padding.Remove(padding, out.value, blockSz);
        if stripped.Err? {
          return Err(Verification);
        }
        return Ok(dst + stripped.value);
      }
      r := Ok(dst + out.value);
    }

    /** One Init/Update/Final cycle into a scratch buffer. */
    method Run(iv: Iv, x: Bytes, encrypt: bool, refuses: Call -> bool) returns (r: Result<Bytes, CipherError>)
      requires Valid() && !closed
      ensures r == RunOutcome(State().value, iv, x, encrypt, refuses)
    {
      if refuses(NewContext) || refuses(Init) {
        return Err(Library);
      }
      var ctx := new Context(cipher.value, key, ReadIv(iv, cipher.value.ivLen), encrypt);
      var pad := padding == Padding.PKCS7;
      if !stream {
        if refuses(SetPadding) {
          return Err(Library);
        }
        ctx.padding := pad;
      }
      r := UpdateAndFinal(ctx, x, refuses);
    }

    method UpdateAndFinal(ctx: Context, x: Bytes, refuses: Call -> bool) returns (r: Result<Bytes, CipherError>)
      requires ctx.mode.Lawful() && ctx.mode.blockSize == blockSz && ctx.input == []
      modifies ctx
      ensures var refused := UpdateRefused(ctx.mode, x, refuses) || refuses(Final);
              r == if refused then Err(Library)
                   else match Transform(ctx.mode, ctx.key, ctx.iv, Seen(x).value, ctx.encrypt, old(ctx.Pads()))
                        case Some(out) => Ok(out)
                        case None => Err(Library)
    {
      var buf := new byte[|x| + blockSz + EVP_MAX_BLOCK_LENGTH](_ => 0);
      var total, ok, n := 0, true, 0;
      if |x| > 0 {
        if refuses(Update) {
          return Err(Library);
        }
        ok, n := ctx.UpdateOnce(buf, x, CInt(|x|));
        if !ok {
          return Err(Library);
        }
        total := n;
      }
      if refuses(Final) {
        return Err(Library);
      }
      assert buf[..total] == ctx.Output();
      ok, n := ctx.FinalBlock(buf, total);
      if !ok {
        return Err(Library);
      }
      total := total + n;
      r := Ok(buf[..total]);
    }

    method Close()
      requires Valid()
      modifies this
      ensures Valid() && State() == None
    {
      if !closed {
        cipher := None;
        key := [];
        closed := true;
      }
    }
  }

  const SCHEMES := [Padding.PKCS7, Padding.NoPadding, Padding.ISO7816, Padding.X923, Padding.Zero]

  /** `NewCipher`: AEAD modes, other key sizes, IV sizes out of range and padding
      schemes that are not declared are refused, in this order. */
  method New(fetched: Option<Fetched>, key: Bytes, iv: Option<int>, padding: int) returns (r: Result<Cipher, NewError>)
    requires fetched.Some? ==> fetched.value.mode.Lawful() && fetched.value.keyLen > 0
    ensures r == Err(NotFetched) <==> fetched.None?
    ensures fetched.Some? ==>
              var f := fetched.value;
              && (r == Err(IsAead) <==> f.aead)
              && (r == Err(WrongKeySize) <==> !f.aead && |key| != f.keyLen)
              && (r == Err(IvOutOfRange) <==>
                    !f.aead && |key| == f.keyLen && iv.Some? && (iv.value < 0 || iv.value > 1024))
              && (r.Ok? <==>
                    && !f.aead && |key| == f.keyLen && 0 <= padding <= 4
                    && (iv.Some? ==> 0 <= iv.value <= 1024))
              && (r.Ok? ==>
                    && fresh(r.value) && r.value.Valid()
                    && r.value.State() == Some(Setup(f.mode, key, if iv.Some? then iv.value else f.mode.ivLen,
                                                     SCHEMES[padding])))
  {
    if fetched.None? {
      return Err(NotFetched);
    }
    var f := fetched.value;
    if f.aead {
      return Err(IsAead);
    }
    if |key| != f.keyLen {
      return Err(WrongKeySize);
    }
    var ivLen := ConfiguredIv(f.mode.ivLen, iv);
    if ivLen.None? {
      return Err(IvOutOfRange);
    }
    if padding < 0 || padding > 4 {
      return Err(UnknownPadding);
    }
    var cipher := new Cipher(f.mode, key, ivLen.value, SCHEMES[padding]);
    r := Ok(cipher);
  }

  // ---- decryption after encryption ----

  /** Without refusals encryption fails exactly for an IV of the wrong size, in
      block modes with no padding for an unaligned text, and for a length that the
      mode does not take. */
  lemma EncryptSucceedsIff(s: Setup, dst: Bytes, iv: Iv, text: Bytes)
    requires s.Valid() && |Padded(s, text)| < 0x8000_0000
    ensures EncryptOutcome(Some(s), dst, iv, text, _ => false).Ok? <==>
              && |iv.bytes| == s.ivLen
              && (s.Stream() || s.padding != Padding.NoPadding || s.mode.Aligned(text))
              && s.mode.accepts(|Padded(s, text)|)
  {
    PaddedIsAligned(s, text);
  }

  lemma PaddedIsAligned(s: Setup, text: Bytes)
    requires s.Valid()
    ensures s.Stream() || s.padding !in {Padding.PKCS7, Padding.NoPadding} ==> s.mode.Aligned(Padded(s, text))
    ensures |text| <= |Padded(s, text)| <= |text| + s.mode.blockSize
  {
    if s.padding != Padding.PKCS7 {
      Padding.PaddedShape(s.padding, text, s.mode.blockSize);
    }
  }

  /** The text with all its padding, the wrapper's or OpenSSL's. */
  function Whole(s: Setup, text: Bytes): Bytes
    requires 0 < s.mode.blockSize < 256
  {
    if s.Evp() then Padding.ApplyPkcs7(text, s.mode.blockSize) else Padded(s, text)
  }

  /** What decryption is meant to give back: with zero padding the filler stays. */
  function Restored(s: Setup, text: Bytes): Bytes
    requires s.mode.blockSize > 0
  {
    if s.padding == Padding.Zero then Padded(s, text) else text
  }

  /** The padded length fits a C int and is one that `Decrypt` lets through. */
  predicate Fits(s: Setup, text: Bytes)
    requires 0 < s.mode.blockSize < 256
  {
    |Whole(s, text)| < 0x8000_0000 && (s.Stream() || s.mode.Aligned(Whole(s, text)))
  }

  /** Only ciphertext stealing leaves a padded text unaligned: OpenSSL ignores
      PKCS#7 there, and the wrapper does not. */
  lemma UnalignedOnlyWhenStealing(s: Setup, dst: Bytes, iv: Iv, text: Bytes, refuses: Call -> bool)
    requires s.Valid() && EncryptOutcome(Some(s), dst, iv, text, refuses).Ok?
    ensures s.Stream() || s.mode.Aligned(Whole(s, text)) <==>
              !(s.mode.stealing && !s.Stream() && s.padding == Padding.PKCS7 && !s.mode.Aligned(text))
  {
    PaddedIsAligned(s, text);
    if s.Evp() {
      Padding.Pkcs7RoundTrip(text, s.mode.blockSize);
    }
  }

  /** There an unaligned text is encrypted without an error, and `Decrypt` refuses
      what came out. */
  lemma StealingIsOneWay(s: Setup, dst: Bytes, dst': Bytes, iv: Iv, iv': Iv, text: Bytes, refuses: Call -> bool)
    requires s.Valid() && s.mode.stealing && !s.Stream() && s.padding == Padding.PKCS7
    requires !s.mode.Aligned(text) && |text| < 0x8000_0000
    requires EncryptOutcome(Some(s), dst, iv, text, refuses).Ok? && iv'.bytes == iv.bytes
    ensures var out := EncryptOutcome(Some(s), dst, iv, text, refuses).value;
            DecryptOutcome(Some(s), dst', iv', out[|dst|..], _ => false) == Err(Verification)
  {
    CiphertextLength(s, dst, iv, text, refuses);
    assert Seen(text).value == text;
  }

  /** Decrypting what was encrypted gives the text back, for zero padding with the
      zeros that fill its last block, exactly when the padded length fits; provided
      that OpenSSL reads the same IV, for which it is enough that it reads inside
      the slice. */
  lemma DecryptUndoesEncrypt(s: Setup, dst: Bytes, dst': Bytes, iv: Iv, iv': Iv, text: Bytes, refuses: Call -> bool)
    requires s.Valid() && EncryptOutcome(Some(s), dst, iv, text, refuses).Ok? && iv'.bytes == iv.bytes
    ensures dst <= EncryptOutcome(Some(s), dst, iv, text, refuses).value
    ensures ReadsInside(s.ivLen, s.mode.ivLen) ==> ReadIv(iv', s.mode.ivLen) == ReadIv(iv, s.mode.ivLen)
    ensures ReadIv(iv', s.mode.ivLen) == ReadIv(iv, s.mode.ivLen) ==>
              var out := EncryptOutcome(Some(s), dst, iv, text, refuses).value;
              var back := DecryptOutcome(Some(s), dst', iv', out[|dst|..], _ => false);
              back == Ok(dst' + Restored(s, text)) <==> Fits(s, text)
  {
    IvReadStaysInsideIff(iv, s.mode.ivLen);
    if ReadIv(iv', s.mode.ivLen) == ReadIv(iv, s.mode.ivLen) {
      if Fits(s, text) {
        RestoresWhatFits(s, dst, dst', iv, iv', text, refuses);
      } else {
        LosesWhatDoesNotFit(s, dst, dst', iv, iv', text, refuses);
      }
    }
  }

  lemma RestoresWhatFits(s: Setup, dst: Bytes, dst': Bytes, iv: Iv, iv': Iv, text: Bytes, refuses: Call -> bool)
    requires s.Valid() && EncryptOutcome(Some(s), dst, iv, text, refuses).Ok? && Fits(s, text)
    requires iv'.bytes == iv.bytes && ReadIv(iv', s.mode.ivLen) == ReadIv(iv, s.mode.ivLen)
    ensures var out := EncryptOutcome(Some(s), dst, iv, text, refuses).value;
            DecryptOutcome(Some(s), dst', iv', out[|dst|..], _ => false) == Ok(dst' + Restored(s, text))
  {
    var cipherText := EncryptOutcome(Some(s), dst, iv, text, refuses).value[|dst|..];
    var read := ReadIv(iv, s.mode.ivLen);
    PaddedIsAligned(s, text);
    assert Seen(Padded(s, text)) == Some(Padded(s, text));
    if s.Evp() {
      Padding.Pkcs7RoundTrip(text, s.mode.blockSize);
      assert cipherText == s.mode.enc(s.key, read, Padding.ApplyPkcs7(text, s.mode.blockSize));
    } else {
      assert cipherText == s.mode.enc(s.key, read, Padded(s, text));
      if !s.Stream() && s.padding != Padding.PKCS7 {
        StripUndoesApply(s, text);
      }
    }
  }

  lemma StripUndoesApply(s: Setup, text: Bytes)
    requires s.Valid() && !s.Stream() && s.padding != Padding.PKCS7
    ensures Padding.Strip(s.padding, Padded(s, text), s.mode.blockSize) == Ok(Restored(s, text))
  {
    if s.padding == Padding.ISO7816 {
      Padding.IsoAcceptsExactly(Padded(s, text), text);
    } else if s.padding == Padding.X923 {
      Padding.X923RoundTrip(text, s.mode.blockSize);
    }
  }

  /** From 2^31 bytes on either the ciphertext is refused, or it is that of a text
      that is shorter by nearly 2^32 bytes. An unaligned one is refused anyway. */
  lemma LosesWhatDoesNotFit(s: Setup, dst: Bytes, dst': Bytes, iv: Iv, iv': Iv, text: Bytes, refuses: Call -> bool)
    requires s.Valid() && EncryptOutcome(Some(s), dst, iv, text, refuses).Ok? && !Fits(s, text)
    requires iv'.bytes == iv.bytes
    ensures var out := EncryptOutcome(Some(s), dst, iv, text, refuses).value;
            DecryptOutcome(Some(s), dst', iv', out[|dst|..], _ => false) != Ok(dst' + Restored(s, text))
  {
    var cipherText := EncryptOutcome(Some(s), dst, iv, text, refuses).value[|dst|..];
    if Padded(s, text) == [] {
      NothingFits(s, text);
    }
    PaddedIsAligned(s, text);
    CiphertextLength(s, dst, iv, text, refuses);
    if |Padded(s, text)| >= 0x8000_0000 {
      SeenIsMuchShorter(Padded(s, text));
      DecryptIsPrefix(s, dst', iv', cipherText);
      assert |Restored(s, text)| >= |text| > |cipherText|;
    } else {
      assert Seen(Padded(s, text)).value == Padded(s, text);
      WholeLength(s, text);
      if |cipherText| >= 0x8000_0000 {
        UnseenIsRefused(s, dst', iv', cipherText);
      } else {
        assert !s.Stream() && !s.mode.Aligned(cipherText);
      }
    }
  }

  lemma WholeLength(s: Setup, text: Bytes)
    requires s.Valid()
    ensures var x := Padded(s, text);
            |Whole(s, text)| == |x| + if s.Evp() then Padding.Gap(|x|, s.mode.blockSize) else 0
  {
  }

  lemma NothingFits(s: Setup, text: Bytes)
    requires s.Valid() && Padded(s, text) == []
    ensures Fits(s, text)
  {
    PaddedIsAligned(s, text);
    if s.Evp() {
      Padding.Pkcs7RoundTrip(text, s.mode.blockSize);
    }
  }

  lemma UnseenIsRefused(s: Setup, dst: Bytes, iv: Iv, c: Bytes)
    requires s.Valid() && 0x8000_0000 <= |c| < 0x1_0000_0000
    ensures DecryptOutcome(Some(s), dst, iv, c, _ => false).Err?
  {
    assert Seen(c).None?;
  }

  lemma CiphertextLength(s: Setup, dst: Bytes, iv: Iv, text: Bytes, refuses: Call -> bool)
    requires s.Valid() && EncryptOutcome(Some(s), dst, iv, text, refuses).Ok? && Padded(s, text) != []
    ensures Seen(Padded(s, text)).Some?
    ensures var x := Seen(Padded(s, text)).value;
            |EncryptOutcome(Some(s), dst, iv, text, refuses).value| - |dst|
              == |x| + if s.Evp() then Padding.Gap(|x|, s.mode.blockSize) else 0
  {
    var x := Seen(Padded(s, text)).value;
    if s.Evp() {
      Padding.Pkcs7RoundTrip(x, s.mode.blockSize);
    }
  }

  /** Whatever decryption returns is a prefix of what the mode makes of the
      ciphertext. */
  lemma DecryptIsPrefix(s: Setup, dst: Bytes, iv: Iv, c: Bytes)
    requires s.Valid()
    ensures var r := DecryptOutcome(Some(s), dst, iv, c, _ => false);
            r.Ok? ==>
              && Seen(c).Some? && dst <= r.value
              && r.value[|dst|..] <= s.mode.dec(s.key, ReadIv(iv, s.mode.ivLen), Seen(c).value)
              && |r.value| <= |dst| + |c|
  {
    var out := RunOutcome(s, iv, c, false, _ => false);
    if c == [] {
      assert Seen(c) == Some([]);
    }
    if out.Ok? && s.padding == Padding.ISO7816 && Padding.StripIso(out.value).Ok? {
      Padding.IsoAcceptsExactly(out.value, Padding.StripIso(out.value).value);
    }
  }

  // ---- every ciphertext, and every failure ----

  predicate CallRefused(block: nat, x: Bytes, refuses: Call -> bool) {
    || refuses(NewContext) || refuses(Init) || refuses(Final)
    || (block != 1 && refuses(SetPadding)) || (x != [] && refuses(Update))
  }

  /** The reasons for `Decrypt` to fail: the first two have an error of their own,
      all others share one. */
  lemma DecryptErrors(s: Option<Setup>, dst: Bytes, iv: Iv, c: Bytes, refuses: Call -> bool)
    requires s.Some? ==> s.value.Valid()
    ensures var r := DecryptOutcome(s, dst, iv, c, refuses);
            && (r == Err(Closed) <==> s.None?)
            && (r == Err(WrongIvSize) <==> s.Some? && |iv.bytes| != s.value.ivLen)
            && (r.Err? && s.Some? && |iv.bytes| == s.value.ivLen ==> r == Err(Verification))
            && (s.Some? && s.value.mode.blockSize != 1 && |c| % s.value.mode.blockSize != 0 ==> r.Err?)
            && (s.Some? && CallRefused(s.value.mode.blockSize, c, refuses) ==> r.Err?)
  {
  }

  /** For an IV of the right size and a ciphertext of whole blocks that the mode takes,
      and no refusals, the result is the text whose padded form the mode makes of the
      ciphertext, if there is one; every other ciphertext is refused. */
  lemma DecryptsExactly(s: Setup, dst: Bytes, iv: Iv, c: Bytes, t: Bytes)
    requires s.Valid() && Taken(s, iv, c)
    ensures var r, d := DecryptOutcome(Some(s), dst, iv, c, _ => false), Deciphered(s, iv, c);
            && (r.Err? ==> r == Err(Verification))
            && (r == Ok(dst + t) <==>
                  if s.Stream() || s.padding in {Padding.NoPadding, Padding.Zero} then t == d
                  else if s.padding == Padding.ISO7816 then |d| > |t| && d == t + [0x80] + Zeros(|d| - |t| - 1)
                  else if s.padding == Padding.X923 then Padding.Apply(Padding.X923, t, s.mode.blockSize) == Ok(d)
                  else if s.mode.stealing then t == d
                  else Padding.ApplyPkcs7(t, s.mode.blockSize) == d)
    ensures |c| < 0x8000_0000 ==> Deciphered(s, iv, c) == s.mode.dec(s.key, ReadIv(iv, s.mode.ivLen), c)
  {
    var d := Deciphered(s, iv, c);
    assert |d| == |Seen(c).value|;
    DecryptIsStrip(s, dst, iv, c);
    if !s.Stream() && s.padding == Padding.ISO7816 {
      Padding.IsoAcceptsExactly(d, t);
    } else if !s.Stream() && s.padding == Padding.X923 {
      Padding.X923AcceptsExactly(d, t, s.mode.blockSize);
    } else if s.Evp() {
      Padding.Pkcs7AcceptsExactly(d, t, s.mode.blockSize);
    }
    assert forall x: Bytes :: dst + x == dst + t ==> x == (dst + x)[|dst|..] == (dst + t)[|dst|..] == t;
  }

  /** The ciphertext passes the wrapper's checks and the mode takes what it is shown. */
  predicate Taken(s: Setup, iv: Iv, c: Bytes)
    requires s.mode.blockSize > 0
  {
    && |iv.bytes| == s.ivLen && (s.Stream() || s.mode.Aligned(c))
    && Seen(c).Some? && s.mode.Full(Seen(c).value) && s.mode.accepts(|Seen(c).value|)
  }

  function Deciphered(s: Setup, iv: Iv, c: Bytes): Bytes
    requires s.mode.blockSize > 0 && Taken(s, iv, c)
  {
    s.mode.dec(s.key, ReadIv(iv, s.mode.ivLen), Seen(c).value)
  }

  lemma DecryptIsStrip(s: Setup, dst: Bytes, iv: Iv, c: Bytes)
    requires s.Valid() && Taken(s, iv, c)
    ensures var r, d, block := DecryptOutcome(Some(s), dst, iv, c, _ => false), Deciphered(s, iv, c), s.mode.blockSize;
            var stripped := if s.Evp() then Padding.StripPkcs7(d, block)
                            else if s.Stream() || s.padding == Padding.PKCS7 then Ok(d)
                            else Padding.Strip(s.padding, d, block);
            r == match stripped case Ok(t) => Ok(dst + t) case Err(_) => Err(Verification)
  {
  }

  /** The reasons for `Encrypt` to fail, in order. */
  lemma EncryptErrors(s: Option<Setup>, dst: Bytes, iv: Iv, text: Bytes, refuses: Call -> bool)
    requires s.Some? ==> s.value.Valid()
    ensures var r := EncryptOutcome(s, dst, iv, text, refuses);
            && (r == Err(Closed) <==> s.None?)
            && (r == Err(WrongIvSize) <==> s.Some? && |iv.bytes| != s.value.ivLen)
            && (r == Err(Unaligned) <==>
                  && s.Some? && |iv.bytes| == s.value.ivLen && s.value.mode.blockSize != 1
                  && s.value.padding == Padding.NoPadding && |text| % s.value.mode.blockSize != 0)
            && (s.Some? && CallRefused(s.value.mode.blockSize, text, refuses) ==> r.Err?)
            && r != Err(Verification)
  {
    if s.Some? {
      PaddedIsAligned(s.value, text);
    }
  }

  /** Otherwise the ciphertext is that of the whole padded text under the key and
      the IV that was read. */
  lemma EncryptsExactly(s: Setup, dst: Bytes, iv: Iv, text: Bytes, refuses: Call -> bool)
    requires s.Valid() && EncryptOutcome(Some(s), dst, iv, text, refuses).Ok? && |Padded(s, text)| < 0x8000_0000
    ensures EncryptOutcome(Some(s), dst, iv, text, refuses).value
              == dst + s.mode.enc(s.key, ReadIv(iv, s.mode.ivLen), Whole(s, text))
  {
    assert Seen(Padded(s, text)) == Some(Padded(s, text));
  }

  /** Which padding the whole text has. */
  lemma WholeExactly(s: Setup, text: Bytes)
    requires s.Valid()
    ensures s.mode.blockSize == 1 ==> Whole(s, text) == text
    ensures s.mode.blockSize != 1 && s.padding != Padding.PKCS7 ==>
              Padding.Apply(s.padding, text, s.mode.blockSize) == Ok(Whole(s, text))
    ensures s.mode.blockSize != 1 && s.padding == Padding.PKCS7 ==>
              Whole(s, text) == if s.mode.stealing then text else Padding.ApplyPkcs7(text, s.mode.blockSize)
  {
  }

  // ---- which IV sizes are safe ----

  /** What a caller expects of equal IVs. */
  predicate RoundTrips(s: Setup, iv: Iv, iv': Iv, text: Bytes)
    requires 1 <= s.mode.blockSize <= EVP_MAX_BLOCK_LENGTH
  {
    var out := EncryptOutcome(Some(s), [], iv, text, _ => false);
    iv'.bytes == iv.bytes && out.Ok? && Fits(s, text) ==>
      DecryptOutcome(Some(s), [], iv', out.value, _ => false) == Ok(Restored(s, text))
  }

  /** A handle made with these sizes. */
  ghost predicate Sized(s: Setup, configured: nat, own: nat, block: nat, padding: Padding.Scheme) {
    s.Valid() && s.ivLen == configured && s.mode.ivLen == own && s.mode.blockSize == block && s.padding == padding
  }

  /** A configured IV size is safe, for every mode that reads `own` bytes, exactly
      when it is zero or at least that. */
  lemma IvSizeIsSafeIff(configured: nat, own: nat, block: nat, padding: Padding.Scheme)
    requires 1 <= block <= EVP_MAX_BLOCK_LENGTH
    ensures (forall s: Setup, iv: Iv, iv': Iv, text: Bytes ::
               Sized(s, configured, own, block, padding) ==> RoundTrips(s, iv, iv', text))
              <==> ReadsInside(configured, own)
  {
    if ReadsInside(configured, own) {
      forall s: Setup, iv: Iv, iv': Iv, text: Bytes | Sized(s, configured, own, block, padding)
        ensures RoundTrips(s, iv, iv', text)
      {
        if iv'.bytes == iv.bytes && EncryptOutcome(Some(s), [], iv, text, _ => false).Ok? {
          var out := EncryptOutcome(Some(s), [], iv, text, _ => false).value;
          DecryptUndoesEncrypt(s, [], [], iv, iv', text, _ => false);
          assert out[0..] == out && [] + Restored(s, text) == Restored(s, text);
        }
      }
    } else {
      var s, iv, iv', text := ShortIvLosesText(configured, own, block, padding);
    }
  }

  function Last(iv: Bytes): byte {
    if iv == [] then 0 else iv[|iv| - 1]
  }

  function Shifted(x: Bytes, d: nat): (y: Bytes)
    ensures |y| == |x|
  {
    seq(|x|, i requires 0 <= i < |x| => (x[i] + d) % 256)
  }

  /** A mode that adds the last byte of the IV it reads to every byte. */
  function Shifting(block: nat, own: nat): Mode {
    Mode(block, false, own, _ => true, (_, iv, x) => Shifted(x, Last(iv)), (_, iv, x) => Shifted(x, 256 - Last(iv)))
  }

  lemma ShiftingIsLawful(block: nat, own: nat)
    requires 1 <= block <= EVP_MAX_BLOCK_LENGTH
    ensures Shifting(block, own).Lawful()
  {
    var m := Shifting(block, own);
    forall k: Bytes, iv: Bytes, x: Bytes ensures |m.enc(k, iv, x)| == |x| && m.dec(k, iv, m.enc(k, iv, x)) == x {
      ShiftBack(x, Last(iv));
    }
    forall k: Bytes, iv: Bytes, x: Bytes ensures |m.dec(k, iv, x)| == |x| {
      assert m.dec(k, iv, x) == Shifted(x, 256 - Last(iv));
    }
    assert m.Invertible();
    forall k: Bytes, iv: Bytes, x: Bytes, n: nat | n <= |x|
      ensures m.enc(k, iv, x[..n]) == m.enc(k, iv, x)[..n] && m.dec(k, iv, x[..n]) == m.dec(k, iv, x)[..n]
    {
      assert m.enc(k, iv, x) == Shifted(x, Last(iv)) && m.enc(k, iv, x[..n]) == Shifted(x[..n], Last(iv));
      assert m.dec(k, iv, x) == Shifted(x, 256 - Last(iv)) && m.dec(k, iv, x[..n]) == Shifted(x[..n], 256 - Last(iv));
    }
    assert m.Blockwise();
  }

  lemma ShiftBack(x: Bytes, d: byte)
    ensures Shifted(Shifted(x, d), 256 - d) == x
  {
  }

  function ZeroIv(len: nat, behind: byte): Iv {
    Iv(Zeros(len), _ => behind)
  }

  lemma LastReadIsBehind(len: nat, behind: byte, own: nat)
    requires !ReadsInside(len, own)
    ensures Last(ReadIv(ZeroIv(len, behind), own)) == behind
  {
  }

  lemma ZerosStayZeros(s: Setup, iv: Iv)
    requires s.Valid() && s.mode.enc == Shifting(s.mode.blockSize, s.mode.ivLen).enc
    requires Last(ReadIv(iv, s.mode.ivLen)) == 0
    requires EncryptOutcome(Some(s), [], iv, Zeros(s.mode.blockSize), _ => false).Ok?
    ensures var c := EncryptOutcome(Some(s), [], iv, Zeros(s.mode.blockSize), _ => false).value;
            c != [] && c[0] == 0 && |c| < 0x8000_0000
  {
    var text := Zeros(s.mode.blockSize);
    PaddedIsAligned(s, text);
    CiphertextLength(s, [], iv, text, _ => false);
    var c := EncryptOutcome(Some(s), [], iv, text, _ => false).value;
    assert Whole(s, text)[0] == 0 by {
      if s.padding != Padding.PKCS7 {
        Padding.PaddedShape(s.padding, text, s.mode.blockSize);
      }
    }
    assert c == [] + Shifted(Whole(s, text), 0);
  }

  lemma ZeroComesBackShifted(s: Setup, iv: Iv, c: Bytes)
    requires s.Valid() && s.mode.dec == Shifting(s.mode.blockSize, s.mode.ivLen).dec
    requires Last(ReadIv(iv, s.mode.ivLen)) == 1
    requires c != [] && c[0] == 0 && |c| < 0x8000_0000
    ensures var r := DecryptOutcome(Some(s), [], iv, c, _ => false);
            r.Ok? && r.value != [] ==> r.value[0] == 255
  {
    var read := ReadIv(iv, s.mode.ivLen);
    assert s.mode.dec(s.key, read, c) == Shifted(c, 256 - Last(read));
    DecryptIsPrefix(s, [], iv, c);
    var r := DecryptOutcome(Some(s), [], iv, c, _ => false);
    assert r.Ok? ==> r.value[0..] == r.value;
  }

  /** Two equal IVs in front of different memory. */
  lemma ShortIvLosesText(configured: nat, own: nat, block: nat, padding: Padding.Scheme)
    returns (s: Setup, iv: Iv, iv': Iv, text: Bytes)
    requires 1 <= block <= EVP_MAX_BLOCK_LENGTH && !ReadsInside(configured, own)
    ensures Sized(s, configured, own, block, padding) && !RoundTrips(s, iv, iv', text)
  {
    ShiftingIsLawful(block, own);
    s := Setup(Shifting(block, own), [0], configured, padding);
    iv, iv', text := ZeroIv(configured, 0), ZeroIv(configured, 1), Zeros(block);
    LastReadIsBehind(configured, 0, own);
    LastReadIsBehind(configured, 1, own);
    AlignedTextFits(s, text);
    EncryptSucceedsIff(s, [], iv, text);
    ZerosStayZeros(s, iv);
    var c := EncryptOutcome(Some(s), [], iv, text, _ => false).value;
    ZeroComesBackShifted(s, iv', c);
    assert Restored(s, text)[0] == 0;
  }

  /** A text of one block fits, whatever the padding. */
  lemma AlignedTextFits(s: Setup, text: Bytes)
    requires s.Valid() && |text| == s.mode.blockSize && !s.mode.stealing
    ensures Fits(s, text) && |Padded(s, text)| < 0x8000_0000 && s.mode.Aligned(text)
    ensures text <= Padded(s, text)
  {
    PaddedIsAligned(s, text);
    if s.padding == Padding.PKCS7 {
      if s.Evp() {
        Padding.Pkcs7RoundTrip(text, s.mode.blockSize);
      }
    } else {
      Padding.PaddedShape(s.padding, text, s.mode.blockSize);
    }
  }

  /** The handle accepts an 8-byte IV for a mode that reads 16, such as AES-CBC. */
  lemma EightByteCbcIvIsAccepted()
    ensures ConfiguredIv(16, Some(8)) == Some(8) && !ReadsInside(8, 16)
    ensures exists s: Setup, iv: Iv, iv': Iv, text: Bytes ::
              Sized(s, 8, 16, 16, Padding.PKCS7) && !RoundTrips(s, iv, iv', text)
  {
    var s, iv, iv', text := ShortIvLosesText(8, 16, 16, Padding.PKCS7);
  }

  /** The option takes every size up to its bound, so the ones that are read past
      their end are exactly those between one and the mode's own. */
  lemma UnsafeSizesAccepted(own: nat, n: int)
    requires own <= MAX_IV_SIZE
    ensures ConfiguredIv(own, Some(n)).Some? && !ReadsInside(ConfiguredIv(own, Some(n)).value, own) <==> 0 < n < own
    ensures ConfiguredIv(own, None).Some? && ReadsInside(ConfiguredIv(own, None).value, own)
  {
  }
}
