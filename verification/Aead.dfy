/** The AEAD handle: framing of ciphertext and tag, the order of the EVP calls
    for CCM and for the other modes, and what `Open` may release. */
module Aead {
  import opened ByteStrings
  import opened Arithmetic

  // ---- construction ----

  /** `validateAEADSizes`. */
  function ValidSizes(ccm: bool, ivLen: int, tagLen: int): bool {
    if ccm then
      if ivLen < 7 || ivLen > 13 then false
      else if tagLen < 4 || tagLen > 16 || tagLen % 2 != 0 then false
      else true
    else if ivLen < 1 then false
    else if tagLen < 12 || tagLen > 16 then false
    else true
  }

  /** The size codes of the first CCM block in appendix A.2.1 of SP 800-38C:
      (t-2)/2 for a t-byte tag and q-1 for the q = 15-n octets that a nonce of n
      bytes leaves for the length, each in three bits and not zero. */
  predicate CcmFields(n: int, t: int, tagCode: int, q: int) {
    && 1 <= tagCode <= 7 && t == 2 * tagCode + 2
    && 1 <= q - 1 <= 7 && n + q == 15
  }

  lemma CcmSizesFillTheirFields(n: int, t: int)
    ensures ValidSizes(true, n, t) <==> exists tagCode, q :: CcmFields(n, t, tagCode, q)
  {
    if ValidSizes(true, n, t) {
      assert CcmFields(n, t, (t - 2) / 2, 15 - n);
    }
  }

  /** The other modes: a nonce of any length but zero, and the tag lengths in bits
      that SP 800-38D allows without restricting the use of the key. */
  lemma OtherTagSizes(n: int, t: int)
    ensures ValidSizes(false, n, t) <==> n >= 1 && 8 * t in {96, 104, 112, 120, 128}
  {
  }

  /** The same for CCM in bytes: tags of 4 to 16 bytes in steps of two, nonces of 7
      to 13 bytes. */
  lemma CcmSizes(n: int, t: int)
    ensures ValidSizes(true, n, t) <==> n in {7, 8, 9, 10, 11, 12, 13} && t in {4, 6, 8, 10, 12, 14, 16}
  {
  }

  /** The text lengths that the length field of q = 15-n octets can hold (appendix
      A.1 of SP 800-38C). The limits of the other modes are beyond a C int. */
  predicate InDomain(ccm: bool, nonceLen: nat, textLen: nat) {
    ccm && nonceLen <= 15 ==> textLen < Pow256(15 - nonceLen)
  }

  /** A nonce of at most 11 bytes leaves room for every length a C int can hold. */
  lemma ShortNoncesHoldEveryLength(ccm: bool, nonceLen: nat, textLen: nat)
    requires textLen < 0x8000_0000
    ensures InDomain(ccm, nonceLen, textLen) <==>
              !ccm || nonceLen <= 11 || nonceLen > 15 || textLen < Pow256(15 - nonceLen)
  {
    if nonceLen <= 11 {
      Pow256Grows(4, 15 - nonceLen);
      assert Pow256(4) == 0x1_0000_0000;
    }
  }

  // ---- OpenSSL's side ----

  datatype Core = Core(
    seal: (Bytes, Bytes, Bytes, Bytes, int) -> (Bytes, Bytes),
    raw: (Bytes, Bytes, Bytes) -> Bytes,
    verify: (Bytes, Bytes, Bytes, Bytes, Bytes) -> bool,
    holdBack: nat -> nat)
  {
    /** Sealing keeps the length and yields a tag of the declared length that
        verifies; the raw transform undoes it. Some modes hold bytes back until
        Final. */
    ghost predicate Lawful() {
      && (forall k, n, a, p, t: nat {:trigger seal(k, n, a, p, t)} ::
            var (c, tag) := seal(k, n, a, p, t);
            |c| == |p| && |tag| == t && verify(k, n, a, c, tag) && raw(k, n, c) == p)
      && (forall k, n, c {:trigger raw(k, n, c)} :: |raw(k, n, c)| == |c|)
      && (forall n {:trigger holdBack(n)} :: holdBack(n) <= n)
    }
  }

  /** One EVP call on a context, with the lengths it declares or transfers. */
  datatype EvpCall =
    | Init(cipher: bool, sizes: bool, keyAndIv: bool)
    | LengthHint(len: nat)
    | AadUpdate(len: nat)
    | DataUpdate(len: nat)
    | Finish
    | ReadTag

  datatype Phase = Fresh | Sized | Keyed | Hinted(len: nat) | WithAad(len: nat) | Fed | Finished | TagRead

  /** The order each mode demands; `None` is a violation. */
  function Next(ccm: bool, phase: Phase, call: EvpCall): Option<Phase> {
    match call
    case Init(cipher, sizes, keyAndIv) =>
      if ccm && phase.Fresh? && cipher && sizes && !keyAndIv then Some(Sized)
      else if ccm && phase.Sized? && !cipher && !sizes && keyAndIv then Some(Keyed)
      else if !ccm && phase.Fresh? && cipher && sizes && keyAndIv then Some(Keyed)
      else None
    case LengthHint(len) => if ccm && phase.Keyed? then Some(Hinted(len)) else None
    case AadUpdate(_) =>
      if ccm && phase.Hinted? then Some(WithAad(phase.len))
      else if !ccm && phase.Keyed? then Some(WithAad(0))
      else None
    case DataUpdate(len) =>
      if ccm && (phase.Hinted? || phase.WithAad?) && phase.len == len then Some(Fed)
      else if !ccm && (phase.Keyed? || phase.WithAad?) then Some(Fed)
      else None
    case Finish =>
      if phase.Fed? || (!ccm && (phase.Keyed? || phase.WithAad?)) then Some(Finished) else None
    case ReadTag => if phase.Finished? then Some(TagRead) else None
  }

  function PhaseAfter(ccm: bool, trace: seq<EvpCall>): Option<Phase> {
    if trace == [] then Some(Fresh)
    else match PhaseAfter(ccm, trace[..|trace| - 1])
      case None => None
      case Some(phase) => Next(ccm, phase, trace[|trace| - 1])
  }

  function Optional(call: Option<EvpCall>): seq<EvpCall> {
    if call.Some? then [call.value] else []
  }

  function AadCall(aad: Option<nat>): Option<EvpCall> {
    if aad.Some? then Some(AadUpdate(aad.value)) else None
  }

  function DataCall(data: Option<nat>): Option<EvpCall> {
    if data.Some? then Some(DataUpdate(data.value)) else None
  }

  function KeyedTrace(ccm: bool): seq<EvpCall> {
    if ccm then [Init(true, true, false), Init(false, false, true)] else [Init(true, true, true)]
  }

  function Start(ccm: bool, data: Option<nat>): seq<EvpCall>
    requires ccm ==> data.Some?
  {
    KeyedTrace(ccm) + (if ccm then [LengthHint(data.value)] else [])
  }

  /** The calls of a complete cycle: CCM always declares the length of its data
      and always transfers it, the other modes transfer what there is. */
  function Cycle(ccm: bool, aad: Option<nat>, data: Option<nat>): seq<EvpCall>
    requires ccm ==> data.Some?
  {
    Start(ccm, data) + Optional(AadCall(aad)) + Optional(DataCall(data)) + [Finish]
  }

  /** The automaton completes on these traces and on no others. */
  lemma CompleteTraces(ccm: bool, trace: seq<EvpCall>)
    ensures PhaseAfter(ccm, trace) == Some(Finished) <==>
              exists aad: Option<nat>, data: Option<nat> :: (ccm ==> data.Some?) && trace == Cycle(ccm, aad, data)
  {
    if PhaseAfter(ccm, trace) == Some(Finished) {
      var aad, data := FinishedTrace(ccm, trace);
    }
    forall aad: Option<nat>, data: Option<nat> | (ccm ==> data.Some?) && trace == Cycle(ccm, aad, data)
      ensures PhaseAfter(ccm, trace) == Some(Finished)
    {
      CycleCompletes(ccm, aad, data);
    }
  }

  lemma After(ccm: bool, trace: seq<EvpCall>, call: EvpCall)
    ensures PhaseAfter(ccm, trace + [call])
              == if PhaseAfter(ccm, trace).None? then None else Next(ccm, PhaseAfter(ccm, trace).value, call)
  {
    assert (trace + [call])[..|trace|] == trace;
  }

  lemma StartCompletes(ccm: bool, data: Option<nat>)
    requires ccm ==> data.Some?
    ensures PhaseAfter(ccm, Start(ccm, data)) == Some(if ccm then Hinted(data.value) else Keyed)
  {
    if ccm {
      var sizes := [Init(true, true, false)];
      assert sizes == [] + sizes && KeyedTrace(true) == sizes + [Init(false, false, true)];
      After(true, [], Init(true, true, false));
      After(true, sizes, Init(false, false, true));
      After(true, KeyedTrace(true), LengthHint(data.value));
    } else {
      assert Start(false, data) == [] + [Init(true, true, true)];
      After(false, [], Init(true, true, true));
    }
  }

  lemma CycleCompletes(ccm: bool, aad: Option<nat>, data: Option<nat>)
    requires ccm ==> data.Some?
    ensures PhaseAfter(ccm, Cycle(ccm, aad, data)) == Some(Finished)
  {
    var t := Start(ccm, data);
    StartCompletes(ccm, data);
    if aad.Some? {
      After(ccm, t, AadUpdate(aad.value));
      t := t + [AadUpdate(aad.value)];
    }
    if data.Some? {
      After(ccm, t, DataUpdate(data.value));
      t := t + [DataUpdate(data.value)];
    }
    After(ccm, t, Finish);
    assert t + [Finish] == Cycle(ccm, aad, data);
  }

  // Reading a trace backwards, one phase at a time.

  lemma StartedTrace(ccm: bool, trace: seq<EvpCall>)
    requires PhaseAfter(ccm, trace).Some?
    ensures PhaseAfter(ccm, trace).value == Fresh ==> trace == []
    ensures PhaseAfter(ccm, trace).value == Sized ==> trace == [Init(true, true, false)]
    ensures PhaseAfter(ccm, trace).value == Keyed ==> trace == KeyedTrace(ccm)
    ensures PhaseAfter(ccm, trace).value.Hinted? ==> ccm && trace == Start(ccm, Some(PhaseAfter(ccm, trace).value.len))
  {
    if trace != [] {
      var before := trace[..|trace| - 1];
      assert trace == before + [trace[|trace| - 1]];
      StartedTrace(ccm, before);
    }
  }

  /** The last call of a trace and the phase it was made in. */
  lemma LastCall(ccm: bool, trace: seq<EvpCall>) returns (before: seq<EvpCall>, call: EvpCall)
    requires PhaseAfter(ccm, trace).Some? && PhaseAfter(ccm, trace) != Some(Fresh)
    ensures trace == before + [call] && PhaseAfter(ccm, before).Some?
    ensures Next(ccm, PhaseAfter(ccm, before).value, call) == PhaseAfter(ccm, trace)
  {
    before, call := trace[..|trace| - 1], trace[|trace| - 1];
  }

  predicate InHeader(ccm: bool, phase: Phase) {
    phase.WithAad? || if ccm then phase.Hinted? else phase.Keyed?
  }

  /** Up to the AAD call, if there is one; `len` is what CCM was told to expect. */
  lemma HeaderTrace(ccm: bool, t: seq<EvpCall>) returns (aad: Option<nat>, len: Option<nat>)
    requires PhaseAfter(ccm, t).Some? && InHeader(ccm, PhaseAfter(ccm, t).value)
    ensures ccm ==> len == Some(PhaseAfter(ccm, t).value.len)
    ensures t == Start(ccm, len) + Optional(AadCall(aad))
  {
    len := if ccm then Some(PhaseAfter(ccm, t).value.len) else None;
    if PhaseAfter(ccm, t).value.WithAad? {
      var start, call := LastCall(ccm, t);
      aad := Some(call.len);
      StartedTrace(ccm, start);
    } else {
      aad := None;
      StartedTrace(ccm, t);
    }
  }

  /** Up to Final; CCM cannot do without the data call. */
  lemma TransferTrace(ccm: bool, t: seq<EvpCall>) returns (aad: Option<nat>, data: Option<nat>)
    requires PhaseAfter(ccm, t).Some?
    requires var phase := PhaseAfter(ccm, t).value; phase.Fed? || (!ccm && InHeader(ccm, phase))
    ensures ccm ==> data.Some?
    ensures t == Start(ccm, data) + Optional(AadCall(aad)) + Optional(DataCall(data))
  {
    if PhaseAfter(ccm, t).value.Fed? {
      var header, call := LastCall(ccm, t);
      data := Some(call.len);
      var len;
      aad, len := HeaderTrace(ccm, header);
    } else {
      data := None;
      var len;
      aad, len := HeaderTrace(ccm, t);
    }
  }

  lemma FinishedTrace(ccm: bool, trace: seq<EvpCall>) returns (aad: Option<nat>, data: Option<nat>)
    requires PhaseAfter(ccm, trace) == Some(Finished)
    ensures ccm ==> data.Some?
    ensures trace == Cycle(ccm, aad, data)
  {
    var t, call := LastCall(ccm, trace);
    aad, data := TransferTrace(ccm, t);
  }

  datatype Step = NewContext | InitSizes | InitKey | InitAll | Hint | AadStep | DataStep | FinalStep | TagStep

  /** An EVP_CIPHER_CTX of an AEAD mode. Every call is recorded before it may be
      refused, and may only be made in the phase that allows it. The exception is
      a call with a negative length, which is refused for that and has no length
      to record. */
  class Context {
    const core: Core
    const ccm: bool
    const encrypt: bool
    var phase: Phase
    ghost var trace: seq<EvpCall>
    var key: Bytes
    var nonce: Bytes
    var tagLen: nat
    var tag: Bytes
    var aad: Bytes
    var data: Bytes

    ghost predicate Valid()
      reads `phase, `trace
    {
      PhaseAfter(ccm, trace) == Some(phase)
    }

    constructor (core: Core, ccm: bool, encrypt: bool)
      ensures Valid() && phase == Fresh && trace == [] && aad == [] && data == []
      ensures this.core == core && this.ccm == ccm && this.encrypt == encrypt
    {
      this.core, this.ccm, this.encrypt := core, ccm, encrypt;
      phase, trace := Fresh, [];
      key, nonce, tagLen, tag, aad, data := [], [], 0, [], [], [];
    }

    /** A call in its turn. */
    method Issue(call: EvpCall)
      requires Valid() && Next(ccm, phase, call).Some?
      modifies this`phase, this`trace
      ensures Valid() && trace == old(trace) + [call] && Some(phase) == Next(ccm, old(phase), call)
    {
      phase := Next(ccm, phase, call).value;
      trace := trace + [call];
      assert trace[..|trace| - 1] == old(trace);
    }

    /** EVP_EncryptInit_ex2 and EVP_DecryptInit_ex2 with sizes (and, when
        decrypting, the expected tag) only. */
    method InitSizes(tagLen: nat, tag: Bytes)
      requires Valid() && Next(ccm, phase, Init(true, true, false)).Some?
      modifies this`phase, this`trace, this`tagLen, this`tag
      ensures Valid() && trace == old(trace) + [Init(true, true, false)]
      ensures Some(phase) == Next(ccm, old(phase), Init(true, true, false))
      ensures this.tagLen == tagLen && this.tag == tag
    {
      Issue(Init(true, true, false));
      this.tagLen, this.tag := tagLen, tag;
    }

    /** The key and the nonce are passed by the address of their first byte. */
    method InitKeyAndIv(key: Bytes, nonce: Bytes)
      requires Valid() && Next(ccm, phase, Init(false, false, true)).Some?
      requires |key| > 0 && |nonce| > 0
      modifies this`phase, this`trace, this`key, this`nonce
      ensures Valid() && trace == old(trace) + [Init(false, false, true)]
      ensures Some(phase) == Next(ccm, old(phase), Init(false, false, true))
      ensures this.key == key && this.nonce == nonce
    {
      Issue(Init(false, false, true));
      this.key, this.nonce := key, nonce;
    }

    method InitAll(key: Bytes, nonce: Bytes, tagLen: nat, tag: Bytes)
      requires Valid() && Next(ccm, phase, Init(true, true, true)).Some?
      requires |key| > 0 && |nonce| > 0
      modifies this`phase, this`trace, this`key, this`nonce, this`tagLen, this`tag
      ensures Valid() && trace == old(trace) + [Init(true, true, true)]
      ensures Some(phase) == Next(ccm, old(phase), Init(true, true, true))
      ensures this.key == key && this.nonce == nonce && this.tagLen == tagLen && this.tag == tag
    {
      Issue(Init(true, true, true));
      this.key, this.nonce, this.tagLen, this.tag := key, nonce, tagLen, tag;
    }

    method UpdateAad(x: Bytes)
      requires Valid() && Next(ccm, phase, AadUpdate(|x|)).Some?
      modifies this`phase, this`trace, this`aad
      ensures Valid() && trace == old(trace) + [AadUpdate(|x|)] && Some(phase) == Next(ccm, old(phase), AadUpdate(|x|))
      ensures aad == x
    {
      Issue(AadUpdate(|x|));
      aad := x;
    }

    /** Ciphertext or, when decrypting, plaintext that nothing vouches for yet. */
    function Whole(): (out: Bytes)
      requires core.Lawful()
      reads `key, `nonce, `aad, `data, `tagLen
      ensures |out| == |data|
    {
      if encrypt then core.seal(key, nonce, aad, data, tagLen).0 else core.raw(key, nonce, data)
    }

    predicate Authentic()
      reads `key, `nonce, `aad, `data, `tag
    {
      encrypt || core.verify(key, nonce, aad, data, tag)
    }

    /** Writes the next stretch of the output. */
    method Emit(buf: array<byte>, from: nat, to: nat)
      requires core.Lawful() && from <= to <= |data| && to <= buf.Length && buf[..from] == Whole()[..from]
      modifies buf
      ensures buf[..to] == Whole()[..to]
    {
      var out := Whole();
      assert forall i :: 0 <= i < from ==> buf[..from][i] == out[..from][i];
      forall i | from <= i < to { buf[i] := out[i]; }
    }

    /** The header is complete for this data. */
    predicate AwaitsData(x: Bytes)
      reads `phase
    {
      if ccm then Seen(x).Some? && Next(ccm, phase, DataUpdate(|Seen(x).value|)).Some?
      else phase.Keyed? || phase.WithAad?
    }

    /** The data update. CCM authenticates here, the other modes at Final. */
    method UpdateData(buf: array<byte>, x: Bytes) returns (ok: bool, n: nat)
      requires core.Lawful() && Valid() && data == [] && Next(ccm, phase, DataUpdate(|x|)).Some?
      requires |x| < buf.Length
      modifies this`phase, this`trace, this`data, buf
      ensures Valid() && trace == old(trace) + [DataUpdate(|x|)] && phase == Fed
      ensures data == x
      ensures ok <==> !ccm || Authentic()
      ensures ok ==> n == |x| - core.holdBack(|x|) && buf[..n] == Whole()[..n]
    {
      Issue(DataUpdate(|x|));
      data := x;
      n := 0;
      ok := !ccm || Authentic();
      if ok {
        n := |x| - core.holdBack(|x|);
        Emit(buf, 0, n);
      }
    }

    /** EVP_EncryptFinal_ex and EVP_DecryptFinal_ex write at `&buf[at]`. */
    method FinishAt(buf: array<byte>, at: nat) returns (ok: bool, n: nat)
      requires core.Lawful() && Valid() && Next(ccm, phase, Finish).Some?
      requires at < buf.Length && |data| < buf.Length
      requires at == |data| - core.holdBack(|data|) && buf[..at] == Whole()[..at]
      modifies this`phase, this`trace, buf
      ensures Valid() && trace == old(trace) + [Finish] && phase == Finished
      ensures ok <==> ccm || Authentic()
      ensures ok ==> at + n == |data| && buf[..at + n] == Whole()
    {
      Issue(Finish);
      n := 0;
      ok := ccm || Authentic();
      if ok {
        n := |data| - at;
        Emit(buf, at, |data|);
        assert Whole()[..|data|] == Whole();
      }
    }

    method GetTag() returns (t: Bytes)
      requires Valid() && phase == Finished && encrypt
      modifies this`phase, this`trace
      ensures Valid() && trace == old(trace) + [ReadTag] && phase == TagRead
      ensures t == core.seal(key, nonce, aad, data, tagLen).1
    {
      Issue(ReadTag);
      t := core.seal(key, nonce, aad, data, tagLen).1;
    }
  }

  // ---- the wrapper ----

  datatype AeadError = Closed | WrongNonceSize | Library | Verification

  predicate HeaderRefused(ccm: bool, x: Bytes, aad: Bytes, refuses: Step -> bool) {
    (ccm && (refuses(Hint) || Seen(x).None?)) || (aad != [] && (refuses(AadStep) || Seen(aad).None?))
  }

  /** Whether OpenSSL turns down the data call, for its length or otherwise. */
  predicate DataRefused(ccm: bool, nonceLen: nat, x: Bytes, refuses: Step -> bool) {
    || (x != [] && Seen(x).None?)
    || ((ccm || x != []) && (refuses(DataStep) || !InDomain(ccm, nonceLen, |Seen(x).value|)))
  }

  /** What an open handle holds. */
  datatype Setup = Setup(core: Core, key: Bytes, nonce: nat, tag: nat, ccm: bool)
  {
    ghost predicate Valid() {
      core.Lawful() && |key| > 0 && ValidSizes(ccm, nonce, tag)
    }

    predicate InitRefused(refuses: Step -> bool) {
      refuses(NewContext) || (if ccm then refuses(InitSizes) || refuses(InitKey) else refuses(InitAll))
    }

    /** Whether an update before Final is refused. */
    predicate UpdateRefused(x: Bytes, aad: Bytes, refuses: Step -> bool) {
      HeaderRefused(ccm, x, aad, refuses) || DataRefused(ccm, nonce, x, refuses)
    }
  }

  datatype Transferred = RefusedUpdate | RefusedFinal | Done(out: Bytes)

  /** The data call and Final over the bytes that were seen: CCM notices a bad
      tag in the data call, the other modes at Final. */
  function Judge(core: Core, ccm: bool, encrypt: bool, key: Bytes, nonce: Bytes, a: Bytes, x: Bytes,
                 tagLen: nat, expected: Bytes, finalRefused: bool): Transferred
  {
    var authentic := encrypt || core.verify(key, nonce, a, x, expected);
    if ccm && !authentic then RefusedUpdate
    else if finalRefused || !authentic then RefusedFinal
    else Done(if encrypt then core.seal(key, nonce, a, x, tagLen).0 else core.raw(key, nonce, x))
  }

  function TransferOutcome(s: Setup, encrypt: bool, nonce: Bytes, expected: Bytes, x: Bytes, aad: Bytes,
                           refuses: Step -> bool): Transferred
  {
    if s.UpdateRefused(x, aad, refuses) then RefusedUpdate
    else Judge(s.core, s.ccm, encrypt, s.key, nonce, Seen(aad).value, Seen(x).value, s.tag, expected,
               refuses(FinalStep))
  }

  function SealOutcome(s: Option<Setup>, dst: Bytes, nonce: Bytes, text: Bytes, aad: Bytes, refuses: Step -> bool)
    : Result<Bytes, AeadError>
  {
    if s.None? then Err(Closed)
    else if |nonce| != s.value.nonce then Err(WrongNonceSize)
    else match CoreOutcome(s.value, nonce, text, aad, refuses)
      case Some(sealed) => Ok(dst + sealed)
      case None => Err(Library)
  }

  /** Ciphertext and tag, if no call is refused. */
  function CoreOutcome(s: Setup, nonce: Bytes, text: Bytes, aad: Bytes, refuses: Step -> bool): Option<Bytes> {
    if s.InitRefused(refuses) then None else KeyedOutcome(s, nonce, text, aad, refuses)
  }

  function KeyedOutcome(s: Setup, nonce: Bytes, text: Bytes, aad: Bytes, refuses: Step -> bool): Option<Bytes> {
    var t := TransferOutcome(s, true, nonce, [], text, aad, refuses);
    if !t.Done? || refuses(TagStep) then None
    else Some(t.out + s.core.seal(s.key, nonce, Seen(aad).value, Seen(text).value, s.tag).1)
  }

  function OpenOutcome(s: Option<Setup>, dst: Bytes, nonce: Bytes, sealed: Bytes, aad: Bytes, refuses: Step -> bool)
    : Result<Bytes, AeadError>
  {
    if s.None? then Err(Closed)
    else if |nonce| != s.value.nonce then Err(WrongNonceSize)
    else if |sealed| < s.value.tag then Err(Verification)
    else BodyOutcome(s.value, dst, nonce, sealed[..|sealed| - s.value.tag], sealed[|sealed| - s.value.tag..], aad,
                     refuses)
  }

  function BodyOutcome(s: Setup, dst: Bytes, nonce: Bytes, body: Bytes, expected: Bytes, aad: Bytes,
                       refuses: Step -> bool): Result<Bytes, AeadError>
  {
    if s.InitRefused(refuses) then Err(Library)
    else match TransferOutcome(s, false, nonce, expected, body, aad, refuses)
      case RefusedUpdate => Err(if s.ccm then Verification else Library)
      case RefusedFinal => Err(Verification)
      case Done(out) => Ok(dst + out)
  }

  class Aead {
    var cipher: Option<Core>
    var key: Bytes
    const nonce: nat
    const tag: nat
    const ccm: bool
    var closed: bool

    ghost predicate Valid()
      reads this
    {
      && (closed ==> cipher.None? && key == [])
      && (!closed ==> cipher.Some? && Setup(cipher.value, key, nonce, tag, ccm).Valid())
    }

    function State(): (s: Option<Setup>)
      requires Valid()
      reads this
      ensures s.Some? ==> s.value.Valid()
    {
      if closed then None else Some(Setup(cipher.value, key, nonce, tag, ccm))
    }

    constructor (core: Core, key: Bytes, nonce: nat, tag: nat, ccm: bool)
      requires core.Lawful() && |key| > 0 && ValidSizes(ccm, nonce, tag)
      ensures Valid() && State() == Some(Setup(core, key, nonce, tag, ccm))
    {
      this.cipher, this.key, this.nonce, this.tag, this.ccm, this.closed := Some(core), key, nonce, tag, ccm, false;
    }

    /** `initEncrypt` and `initDecrypt`. */
    method InitContext(ctx: Context, nonce: Bytes, tag: Bytes, refuses: Step -> bool) returns (ok: bool)
      requires Valid() && !closed && |nonce| > 0
      requires ctx.Valid() && ctx.phase == Fresh && ctx.trace == [] && ctx.ccm == ccm
      modifies ctx`phase, ctx`trace, ctx`key, ctx`nonce, ctx`tagLen, ctx`tag
      ensures ctx.Valid()
      ensures ok <==> if ccm then !refuses(Step.InitSizes) && !refuses(InitKey) else !refuses(Step.InitAll)
      ensures ok ==> ctx.phase == Keyed && ctx.trace == KeyedTrace(ccm)
      ensures ok ==> ctx.key == key && ctx.nonce == nonce && ctx.tagLen == this.tag && ctx.tag == tag
    {
      if ccm {
        ctx.InitSizes(this.tag, tag);
        if refuses(Step.InitSizes) {
          return false;
        }
        ctx.InitKeyAndIv(key, nonce);
        ok := !refuses(InitKey);
      } else {
        ctx.InitAll(key, nonce, this.tag, tag);
        ok := !refuses(Step.InitAll);
      }
    }

    /** The length hint and the AAD call, the same for `SealErr` and `Open`. */
    static method FeedHeader(ctx: Context, x: Bytes, aad: Bytes, refuses: Step -> bool) returns (ok: bool)
      requires ctx.Valid() && ctx.phase == Keyed && ctx.aad == [] && ctx.trace == KeyedTrace(ctx.ccm)
      modifies ctx`phase, ctx`trace, ctx`aad
      ensures ctx.Valid()
      ensures ok <==> !HeaderRefused(ctx.ccm, x, aad, refuses)
      ensures ok ==> ctx.aad == Seen(aad).value
      ensures ok ==> ctx.trace == Start(ctx.ccm, DataLen(ctx.ccm, x)) + Optional(AadCall(AadLen(aad)))
      ensures ok ==> ctx.AwaitsData(x)
    {
      ok := false;
      if ctx.ccm {
        if Seen(x).None? {
          return;
        }
        ctx.Issue(LengthHint(|Seen(x).value|));
        if refuses(Hint) {
          return;
        }
      }
      if |aad| > 0 {
        if Seen(aad).None? {
          return;
        }
        ctx.UpdateAad(Seen(aad).value);
        if refuses(AadStep) {
          return;
        }
      }
      ok := true;
    }

    /** The data call: CCM makes it even when there is nothing to transfer. */
    static method FeedData(ctx: Context, x: Bytes, buf: array<byte>, refuses: Step -> bool)
      returns (ok: bool, total: nat)
      requires ctx.core.Lawful() && ctx.Valid() && ctx.data == []
      requires ctx.AwaitsData(x)
      requires buf.Length == |x| + EVP_MAX_BLOCK_LENGTH
      modifies ctx`phase, ctx`trace, ctx`data, buf
      ensures ctx.Valid()
      ensures DataRefused(ctx.ccm, |ctx.nonce|, x, refuses) ==> !ok
      ensures !DataRefused(ctx.ccm, |ctx.nonce|, x, refuses) ==>
              ctx.data == Seen(x).value && ok == (!ctx.ccm || ctx.Authentic())
      ensures ok ==> ctx.trace == old(ctx.trace) + Optional(DataCall(DataLen(ctx.ccm, x)))
      ensures ok ==> Next(ctx.ccm, ctx.phase, Finish).Some?
      ensures ok ==> total == |ctx.data| - ctx.core.holdBack(|ctx.data|) && buf[..total] == ctx.Whole()[..total]
    {
      ok, total := false, 0;
      var n := 0;
      if |x| > 0 {
        if Seen(x).None? {
          return;
        }
        if refuses(DataStep) || !InDomain(ctx.ccm, |ctx.nonce|, |Seen(x).value|) {
          ctx.Issue(DataUpdate(|Seen(x).value|));
          return;
        }
        ok, n := ctx.UpdateData(buf, Seen(x).value);
        if ok {
          total := n;
        }
      } else if ctx.ccm {
        if refuses(DataStep) || !InDomain(ctx.ccm, |ctx.nonce|, 0) {
          ctx.Issue(DataUpdate(0));
          return;
        }
        ok, n := ctx.UpdateData(buf, []);
      } else {
        ok := true;
      }
    }

    /** The data call and Final, into a scratch buffer. */
    static method TransferData(ctx: Context, x: Bytes, refuses: Step -> bool) returns (t: Transferred)
      requires ctx.core.Lawful() && ctx.Valid() && ctx.data == []
      requires ctx.AwaitsData(x)
      modifies ctx`phase, ctx`trace, ctx`data
      ensures ctx.Valid()
      ensures t == if DataRefused(ctx.ccm, |ctx.nonce|, x, refuses) then RefusedUpdate
                   else Judge(ctx.core, ctx.ccm, ctx.encrypt, ctx.key, ctx.nonce, ctx.aad, Seen(x).value, ctx.tagLen,
                              ctx.tag, refuses(FinalStep))
      ensures t.Done? ==> ctx.phase == Finished && ctx.data == Seen(x).value
      ensures t.Done? ==> ctx.trace == old(ctx.trace) + Optional(DataCall(DataLen(ctx.ccm, x))) + [Finish]
    {
      var buf := new byte[|x| + EVP_MAX_BLOCK_LENGTH](_ => 0);
      var ok, total := FeedData(ctx, x, buf, refuses);
      if !ok {
        return RefusedUpdate;
      }
      t := Finalise(ctx, buf, total, refuses);
    }

    /** Final, which writes behind what the update has written. */
    static method Finalise(ctx: Context, buf: array<byte>, written: nat, refuses: Step -> bool) returns (t: Transferred)
      requires ctx.core.Lawful() && ctx.Valid() && Next(ctx.ccm, ctx.phase, Finish).Some?
      requires written < buf.Length && |ctx.data| < buf.Length
      requires written == |ctx.data| - ctx.core.holdBack(|ctx.data|) && buf[..written] == ctx.Whole()[..written]
      modifies ctx`phase, ctx`trace, buf
      ensures ctx.Valid() && ctx.phase == Finished && ctx.trace == old(ctx.trace) + [Finish]
      ensures t == if refuses(FinalStep) || (!ctx.ccm && !ctx.Authentic()) then RefusedFinal else Done(ctx.Whole())
    {
      var ok, n := ctx.FinishAt(buf, written);
      if !ok || refuses(FinalStep) {
        return RefusedFinal;
      }
      var total := written + n;
      t := Done(buf[..total]);
    }

    /** Everything between the initialised context and the tag. */
    method Transfer(ctx: Context, x: Bytes, aad: Bytes, refuses: Step -> bool) returns (t: Transferred)
      requires Valid() && !closed
      requires ctx.Valid() && ctx.phase == Keyed && ctx.trace == KeyedTrace(ccm) && ctx.aad == [] && ctx.data == []
      requires ctx.core == cipher.value && ctx.ccm == ccm && ctx.key == key && ctx.tagLen == tag && |ctx.nonce| == nonce
      modifies ctx`phase, ctx`trace, ctx`aad, ctx`data
      ensures ctx.Valid()
      ensures t == TransferOutcome(State().value, ctx.encrypt, ctx.nonce, ctx.tag, x, aad, refuses)
      ensures t.Done? ==> ctx.aad == Seen(aad).value && ctx.data == Seen(x).value
      ensures t.Done? ==> ctx.phase == Finished && ctx.trace == Cycle(ccm, AadLen(aad), DataLen(ccm, x))
    {
      var ok := FeedHeader(ctx, x, aad, refuses);
      if !ok {
        return RefusedUpdate;
      }
      t := TransferData(ctx, x, refuses);
    }

    method SealErr(dst: Bytes, nonce: Bytes, text: Bytes, aad: Bytes, refuses: Step -> bool)
      returns (r: Result<Bytes, AeadError>, ghost trace: seq<EvpCall>)
      requires Valid()
      ensures r == SealOutcome(State(), dst, nonce, text, aad, refuses)
      ensures PhaseAfter(ccm, trace).Some?
      ensures r.Ok? ==> trace == Cycle(ccm, AadLen(aad), DataLen(ccm, text)) + [ReadTag]
    {
      trace := [];
      if closed {
        return Err(Closed), trace;
      }
      if |nonce| != this.nonce {
        return Err(WrongNonceSize), trace;
      }
      var sealed;
      sealed, trace := SealInContext(nonce, text, aad, refuses);
      r := if sealed.Some? then Ok(dst + sealed.value) else Err(Library);
    }

    /** The part of `SealErr` that works on a context. */
    method SealInContext(nonce: Bytes, text: Bytes, aad: Bytes, refuses: Step -> bool)
      returns (sealed: Option<Bytes>, ghost trace: seq<EvpCall>)
      requires Valid() && !closed && |nonce| == this.nonce
      ensures sealed == CoreOutcome(State().value, nonce, text, aad, refuses)
      ensures PhaseAfter(ccm, trace).Some?
      ensures sealed.Some? ==> trace == Cycle(ccm, AadLen(aad), DataLen(ccm, text)) + [ReadTag]
    {
      if refuses(NewContext) {
        return None, [];
      }
      var ctx := new Context(cipher.value, ccm, true);
      var ok := InitContext(ctx, nonce, [], refuses);
      if !ok {
        return None, ctx.trace;
      }
      sealed := SealKeyed(ctx, text, aad, refuses);
      trace := ctx.trace;
    }

    method SealKeyed(ctx: Context, text: Bytes, aad: Bytes, refuses: Step -> bool) returns (sealed: Option<Bytes>)
      requires Valid() && !closed
      requires ctx.Valid() && ctx.phase == Keyed && ctx.trace == KeyedTrace(ccm) && ctx.aad == [] && ctx.data == []
      requires ctx.encrypt && ctx.tag == []
      requires ctx.core == cipher.value && ctx.ccm == ccm && ctx.key == key && ctx.tagLen == tag && |ctx.nonce| == nonce
      modifies ctx`phase, ctx`trace, ctx`aad, ctx`data
      ensures ctx.Valid()
      ensures sealed == KeyedOutcome(State().value, ctx.nonce, text, aad, refuses)
      ensures sealed.Some? ==> ctx.trace == Cycle(ccm, AadLen(aad), DataLen(ccm, text)) + [ReadTag]
    {
      var t := Transfer(ctx, text, aad, refuses);
      if !t.Done? {
        return None;
      }
      // The tag only exists after Final.
      var tag := ctx.GetTag();
      sealed := if refuses(TagStep) then None else Some(t.out + tag);
    }

    method Open(dst: Bytes, nonce: Bytes, sealed: Bytes, aad: Bytes, refuses: Step -> bool)
      returns (r: Result<Bytes, AeadError>, ghost trace: seq<EvpCall>)
      requires Valid()
      ensures r == OpenOutcome(State(), dst, nonce, sealed, aad, refuses)
      ensures PhaseAfter(ccm, trace).Some?
      ensures r.Ok? ==> |sealed| >= tag && trace == Cycle(ccm, AadLen(aad), DataLen(ccm, sealed[..|sealed| - tag]))
    {
      trace := [];
      if closed {
        return Err(Closed), trace;
      }
      if |nonce| != this.nonce {
        return Err(WrongNonceSize), trace;
      }
      if |sealed| < tag {
        return Err(Verification), trace;
      }
      r, trace := OpenInContext(dst, nonce, sealed[..|sealed| - tag], sealed[|sealed| - tag..], aad, refuses);
    }

    /** The part of `Open` that works on a context. */
    method OpenInContext(dst: Bytes, nonce: Bytes, body: Bytes, expected: Bytes, aad: Bytes, refuses: Step -> bool)
      returns (r: Result<Bytes, AeadError>, ghost trace: seq<EvpCall>)
      requires Valid() && !closed && |nonce| == this.nonce
      ensures r == BodyOutcome(State().value, dst, nonce, body, expected, aad, refuses)
      ensures PhaseAfter(ccm, trace).Some?
      ensures r.Ok? ==> trace == Cycle(ccm, AadLen(aad), DataLen(ccm, body))
    {
      if refuses(NewContext) {
        return Err(Library), [];
      }
      var ctx := new Context(cipher.value, ccm, false);
      var ok := InitContext(ctx, nonce, expected, refuses);
      if !ok {
        return Err(Library), ctx.trace;
      }
      var t := Transfer(ctx, body, aad, refuses);
      match t {
        case RefusedUpdate => r := Err(if ccm then Verification else Library);
        case RefusedFinal => r := Err(Verification);
        case Done(out) => r := Ok(dst + out);
      }
      trace := ctx.trace;
    }

    method Close()
      requires Valid()
      modifies this
      ensures Valid() && State() == None
    {
      if !closed {
        cipher := None;
        key := [];
        closed := true;
      }
    }
  }

  /** What `EVP_CIPHER_fetch` finds; `flag` is OpenSSL's own AEAD flag. */
  datatype Fetched = Fetched(core: Core, mode: CipherMode, flag: bool, keyLen: nat, ivLen: nat)

  datatype CipherMode = Gcm | Ocb | Ccm | OtherMode

  datatype NewError = NotFetched | WrongKeySize | NotAead | BadSizes

  /** `NewAEAD`: other key sizes, modes that do not authenticate, and nonce and tag
      sizes that the mode does not permit are refused, in this order. */
  method New(fetched: Option<Fetched>, key: Bytes, iv: Option<int>, tag: Option<int>)
    returns (r: Result<Aead, NewError>)
    requires fetched.Some? ==> fetched.value.core.Lawful() && fetched.value.keyLen > 0
    ensures r == Err(NotFetched) <==> fetched.None?
    ensures fetched.Some? ==>
              var f := fetched.value;
              var n, t := if iv.Some? then iv.value else f.ivLen, if tag.Some? then tag.value else 16;
              var aead := f.mode != OtherMode || f.flag;
              && (r == Err(WrongKeySize) <==> |key| != f.keyLen)
              && (r == Err(NotAead) <==> |key| == f.keyLen && !aead)
              && (r == Err(BadSizes) <==> |key| == f.keyLen && aead && !ValidSizes(f.mode == Ccm, n, t))
              && (r.Ok? ==>
                    && n >= 0 && t >= 0 && fresh(r.value) && r.value.Valid()
                    && r.value.State() == Some(Setup(f.core, key, n, t, f.mode == Ccm)))
  {
    if fetched.None? {
      return Err(NotFetched);
    }
    var f := fetched.value;
    if |key| != f.keyLen {
      return Err(WrongKeySize);
    }
    if f.mode != Gcm && f.mode != Ocb && f.mode != Ccm && !f.flag {
      return Err(NotAead);
    }
    var ivLen, tagLen := f.ivLen, 16;
    if iv.Some? {
      ivLen := iv.value;
    }
    if tag.Some? {
      tagLen := tag.value;
    }
    if !ValidSizes(f.mode == Ccm, ivLen, tagLen) {
      return Err(BadSizes);
    }
    var a := new Aead(f.core, key, ivLen, tagLen, f.mode == Ccm);
    r := Ok(a);
  }

  /** The declared length of the AAD call, if there is one. */
  function AadLen(aad: Bytes): Option<nat> {
    if aad == [] || Seen(aad).None? then None else Some(|Seen(aad).value|)
  }

  /** The declared length of the data call, if there is one. */
  function DataLen(ccm: bool, x: Bytes): (n: Option<nat>)
    ensures ccm ==> n.Some?
  {
    if !ccm && (x == [] || Seen(x).None?) then None
    else Some(if Seen(x).Some? then |Seen(x).value| else 0)
  }

  /** The calls of a cycle written out, for lengths that a C int can hold. */
  lemma CyclesWrittenOut(x: Bytes, aad: Bytes)
    requires |x| < 0x8000_0000 && |aad| < 0x8000_0000
    ensures var aadCall := if aad == [] then [] else [AadUpdate(|aad|)];
            && Cycle(true, AadLen(aad), DataLen(true, x))
               == [Init(true, true, false), Init(false, false, true), LengthHint(|x|)] + aadCall
                  + [DataUpdate(|x|), Finish]
            && Cycle(false, AadLen(aad), DataLen(false, x))
               == [Init(true, true, true)] + aadCall + (if x == [] then [] else [DataUpdate(|x|)]) + [Finish]
  {
    assert Seen(x) == Some(x) && Seen(aad) == Some(aad);
  }

  // ---- opening what was sealed ----

  /** Sealing adds exactly the tag to what OpenSSL was shown of the plaintext, and
      opening gives that back: the whole plaintext exactly when its length fits a
      C int. */
  lemma OpenUndoesSeal(s: Setup, dst: Bytes, dst': Bytes, nonce: Bytes, text: Bytes, aad: Bytes, refuses: Step -> bool)
    requires s.Valid() && SealOutcome(Some(s), dst, nonce, text, aad, refuses).Ok?
    ensures Seen(text).Some?
    ensures var out := SealOutcome(Some(s), dst, nonce, text, aad, refuses).value;
            var back := OpenOutcome(Some(s), dst', nonce, out[|dst|..], aad, _ => false);
            && dst <= out
            && |out| == |dst| + |Seen(text).value| + s.tag
            && back == Ok(dst' + Seen(text).value)
            && (back == Ok(dst' + text) <==> |text| < 0x8000_0000)
  {
    SealShowsText(s, dst, nonce, text, aad, refuses);
    var x := Seen(text).value;
    var (c, tag) := s.core.seal(s.key, nonce, Seen(aad).value, x, s.tag);
    var out := SealOutcome(Some(s), dst, nonce, text, aad, refuses).value;
    assert |c| == |x| && |tag| == s.tag;
    assert out == dst + c + tag;
    SealedSplits(dst, c, tag);
    assert Seen(c) == Some(c) && s.core.raw(s.key, nonce, c) == x;
    assert s.core.verify(s.key, nonce, Seen(aad).value, c, tag);
    assert OpenOutcome(Some(s), dst', nonce, out[|dst|..], aad, _ => false) == Ok(dst' + x);
    assert dst' + x == dst' + text ==> |x| == |text|;
  }

  lemma SealShowsText(s: Setup, dst: Bytes, nonce: Bytes, text: Bytes, aad: Bytes, refuses: Step -> bool)
    requires SealOutcome(Some(s), dst, nonce, text, aad, refuses).Ok?
    ensures Seen(text).Some? && Seen(aad).Some? && |Seen(text).value| < 0x8000_0000
  {
    if text == [] { assert Seen(text) == Some([]); }
    if aad == [] { assert Seen(aad) == Some([]); }
  }

  lemma SealedSplits(dst: Bytes, c: Bytes, tag: Bytes)
    ensures var sealed := (dst + c + tag)[|dst|..];
            |sealed| == |c| + |tag| && sealed[..|c|] == c && sealed[|c|..] == tag
  {
    assert dst + c + tag == dst + (c + tag);
  }

  /** Plaintext is released only for a body and tag that verify under the key, the
      nonce and the AAD, as far as OpenSSL was shown them; and it is that body's. */
  lemma ReleasesOnlyAuthentic(s: Setup, dst: Bytes, nonce: Bytes, sealed: Bytes, aad: Bytes, refuses: Step -> bool)
    requires OpenOutcome(Some(s), dst, nonce, sealed, aad, refuses).Ok?
    ensures |sealed| >= s.tag
    ensures var body, expected := sealed[..|sealed| - s.tag], sealed[|sealed| - s.tag..];
            && Seen(body).Some? && Seen(aad).Some?
            && s.core.verify(s.key, nonce, Seen(aad).value, Seen(body).value, expected)
            && OpenOutcome(Some(s), dst, nonce, sealed, aad, refuses)
               == Ok(dst + s.core.raw(s.key, nonce, Seen(body).value))
  {
    var body := sealed[..|sealed| - s.tag];
    if aad == [] { assert Seen(aad) == Some([]); }
    if body == [] { assert Seen(body) == Some([]); }
  }

  /** When no call is refused, everything but an authentic input of the right
      nonce size, of a length the mode is defined on, gets the one answer that
      tells nothing. */
  lemma OpensExactlyTheAuthentic(s: Setup, dst: Bytes, nonce: Bytes, sealed: Bytes, aad: Bytes)
    requires |aad| < 0x8000_0000 && |sealed| < 0x8000_0000 && |nonce| == s.nonce
    ensures |sealed| < s.tag ==> OpenOutcome(Some(s), dst, nonce, sealed, aad, _ => false) == Err(Verification)
    ensures |sealed| >= s.tag ==>
              var body, expected := sealed[..|sealed| - s.tag], sealed[|sealed| - s.tag..];
              OpenOutcome(Some(s), dst, nonce, sealed, aad, _ => false)
                == if InDomain(s.ccm, |nonce|, |body|) && s.core.verify(s.key, nonce, aad, body, expected)
                   then Ok(dst + s.core.raw(s.key, nonce, body))
                   else Err(Verification)
  {
  }

  /** An accepted AAD is authenticated as far as OpenSSL was shown it: whole exactly
      when its length fits a C int. What lies beyond could be cut off. */
  lemma AadAuthenticatedWholeIff(s: Setup, dst: Bytes, nonce: Bytes, sealed: Bytes, aad: Bytes)
    requires OpenOutcome(Some(s), dst, nonce, sealed, aad, _ => false).Ok?
    ensures |sealed| >= s.tag && Seen(sealed[..|sealed| - s.tag]).Some? && Seen(aad).Some?
    ensures var shown := Seen(aad).value;
            && s.core.verify(s.key, nonce, shown, Seen(sealed[..|sealed| - s.tag]).value, sealed[|sealed| - s.tag..])
            && (shown == aad <==> |aad| < 0x8000_0000)
            && OpenOutcome(Some(s), dst, nonce, sealed, shown, _ => false)
               == OpenOutcome(Some(s), dst, nonce, sealed, aad, _ => false)
  {
    ReleasesOnlyAuthentic(s, dst, nonce, sealed, aad, _ => false);
    var shown := Seen(aad).value;
    assert |shown| < 0x8000_0000;
    assert Seen(shown) == Some(shown);
  }

  /** The output has the documented length exactly for plaintexts whose length a
      C int can hold, whatever the AAD: a longer one is refused or only a prefix of
      it is sealed. */
  lemma SealsWholeTextIffItFitsACInt(s: Setup, dst: Bytes, nonce: Bytes, text: Bytes, aad: Bytes)
    requires s.Valid() && SealOutcome(Some(s), dst, nonce, text, aad, _ => false).Ok?
    ensures var out := SealOutcome(Some(s), dst, nonce, text, aad, _ => false).value;
            |out| == |dst| + |text| + s.tag <==> |text| < 0x8000_0000
  {
    OpenUndoesSeal(s, dst, [], nonce, text, aad, _ => false);
  }

  /** Without refusals sealing fails exactly for a wrong nonce size, for a text or
      an AAD whose length is negative as a C int, and for a text that is longer
      than the nonce of CCM leaves room for. */
  lemma SealSucceedsIff(s: Setup, dst: Bytes, nonce: Bytes, text: Bytes, aad: Bytes)
    ensures SealOutcome(Some(s), dst, nonce, text, aad, _ => false).Ok? <==>
              && |nonce| == s.nonce && CInt(|text|) >= 0 && CInt(|aad|) >= 0
              && InDomain(s.ccm, |nonce|, |Seen(text).value|)
  {
  }

  // ---- every failure ----

  /** What makes a call of `SealErr` or `Open` fail in the init calls, and what makes an
      update fail for another reason than the tag. */
  predicate InitFails(s: Setup, refuses: Step -> bool) {
    || refuses(NewContext)
    || (s.ccm && (refuses(InitSizes) || refuses(InitKey)))
    || (!s.ccm && refuses(InitAll))
  }

  predicate UpdateFails(s: Setup, x: Bytes, aad: Bytes, refuses: Step -> bool) {
    || Seen(x).None? || Seen(aad).None?
    || (s.ccm && (refuses(Hint) || refuses(DataStep) || !InDomain(true, s.nonce, |Seen(x).value|)))
    || (aad != [] && refuses(AadStep))
    || (x != [] && refuses(DataStep))
  }

  /** `SealErr` fails exactly on a closed handle, for a nonce of another size, and for
      a refused call, each with its own error. */
  lemma SealErrors(s: Option<Setup>, dst: Bytes, nonce: Bytes, text: Bytes, aad: Bytes, refuses: Step -> bool)
    ensures var r := SealOutcome(s, dst, nonce, text, aad, refuses);
            && (r == Err(Closed) <==> s.None?)
            && (r == Err(WrongNonceSize) <==> s.Some? && |nonce| != s.value.nonce)
            && (r == Err(Library) <==>
                  && s.Some? && |nonce| == s.value.nonce
                  && (InitFails(s.value, refuses) || UpdateFails(s.value, text, aad, refuses)
                      || refuses(FinalStep) || refuses(TagStep)))
            && (r.Ok? <==>
                  && s.Some? && |nonce| == s.value.nonce
                  && !InitFails(s.value, refuses) && !UpdateFails(s.value, text, aad, refuses)
                  && !refuses(FinalStep) && !refuses(TagStep))
  {
    EmptyIsSeen(text);
    EmptyIsSeen(aad);
  }

  lemma EmptyIsSeen(x: Bytes)
    ensures x == [] ==> Seen(x) == Some([])
  {
  }

  /** `Open` adds two things: what is too short for a tag is rejected before OpenSSL is
      asked, and from the first update on every failure of CCM, and every failure of
      Final, is the rejection that an unauthentic input gets. */
  lemma OpenErrors(s: Setup, dst: Bytes, nonce: Bytes, sealed: Bytes, aad: Bytes, refuses: Step -> bool)
    ensures OpenOutcome(None, dst, nonce, sealed, aad, refuses) == Err(Closed)
    ensures var r := OpenOutcome(Some(s), dst, nonce, sealed, aad, refuses);
            && (r == Err(WrongNonceSize) <==> |nonce| != s.nonce)
            && (|nonce| == s.nonce && |sealed| < s.tag ==> r == Err(Verification))
            && (|nonce| == s.nonce && |sealed| >= s.tag ==>
                  var body, expected := sealed[..|sealed| - s.tag], sealed[|sealed| - s.tag..];
                  var init, update := InitFails(s, refuses), UpdateFails(s, body, aad, refuses);
                  var authentic :=
                    !update && s.core.verify(s.key, nonce, Seen(aad).value, Seen(body).value, expected);
                  && (r == Err(Library) <==> init || (!s.ccm && update))
                  && (r == Err(Verification) <==>
                        !init && if s.ccm then update || refuses(FinalStep) || !authentic
                                 else !update && (refuses(FinalStep) || !authentic))
                  && (r.Ok? <==> !init && !update && !refuses(FinalStep) && authentic))
  {
    EmptyIsSeen(aad);
    if |sealed| >= s.tag {
      EmptyIsSeen(sealed[..|sealed| - s.tag]);
    }
  }
}
