/** Signature options: which ones a key type accepts, and what accepted ones
    make the wrapper tell OpenSSL. */
module SignOptions {
  import opened ByteStrings
  import EcdsaFormat

  const RSAPSS := 0
  const RSAPKCS1v15 := 1
  const PSS_SALT_HASH := 0
  const PSS_SALT_MAX := -1
  const SIGNATURE_DER := 0
  const MAX_CONTEXT_LENGTH := 255

  // OpenSSL's reserved salt lengths.
  const RSA_PSS_SALTLEN_DIGEST := -1
  const RSA_PSS_SALTLEN_AUTO := -2
  const RSA_PSS_SALTLEN_MAX := -3
  const RSA_PSS_SALTLEN_AUTO_DIGEST_MAX := -4

  /** The enumerations are Go integers, so any value can reach the code. */
  datatype Options = Options(
    digest: string, context: Option<Bytes>, prehash: bool,
    padding: int, saltLen: int, mgf1: string, format: int, deterministic: bool)

  const UNSET := Options("", None, false, RSAPSS, PSS_SALT_HASH, "", SIGNATURE_DER, false)

  datatype CheckError =
    | NoContext | ContextTooLong | NoPrehash | PaddingNeedsRsa | SaltNeedsRsa | SaltOutOfRange
    | NoDeterministic | Mgf1NeedsRsa | FormatNeedsEc | PssKeyCannotPkcs1

  predicate HasPrefix(s: string, p: string) {
    p <= s
  }

  predicate IsRsa(keyType: string) {
    keyType == "RSA" || keyType == "RSA-PSS"
  }

  predicate IsPostQuantum(keyType: string) {
    HasPrefix(keyType, "ML-DSA") || HasPrefix(keyType, "SLH-DSA")
  }

  /** `strings.ToUpper` on the ASCII names OpenSSL uses. */
  function ToUpper(s: string): string {
    seq(|s|, i requires 0 <= i < |s| => if 'a' <= s[i] <= 'z' then s[i] - 'a' + 'A' else s[i])
  }

  /** Algorithms that hash the message themselves and refuse streaming. */
  predicate OneShotOnly(keyType: string) {
    var t := ToUpper(keyType);
    HasPrefix(t, "ED25519") || HasPrefix(t, "ED448") || HasPrefix(t, "ML-DSA") || HasPrefix(t, "SLH-DSA")
  }

  function DefaultDigest(keyType: string, securityBits: int): string {
    if OneShotOnly(keyType) then ""
    else if securityBits >= 192 then "SHA2-384"
    else "SHA2-256"
  }

  function WithDefaults(keyType: string, securityBits: int, opts: Option<Options>): Options {
    var o := if opts.Some? then opts.value else UNSET;
    if o.digest == "" then o.(digest := DefaultDigest(keyType, securityBits)) else o
  }

  /** `checkSignOptions`. */
  function Check(keyType: string, o: Options): Result<(), CheckError> {
    var rsa, ec := IsRsa(keyType), keyType == "EC";
    var ed25519, ed448 := keyType == "ED25519", keyType == "ED448";
    var pqc := IsPostQuantum(keyType);
    if o.context.Some? && !(ed25519 || ed448 || pqc) then Err(NoContext)
    else if o.context.Some? && |o.context.value| > MAX_CONTEXT_LENGTH then Err(ContextTooLong)
    else if o.prehash && !(ed25519 || ed448) then Err(NoPrehash)
    else if o.padding != RSAPSS && !rsa then Err(PaddingNeedsRsa)
    else if o.saltLen != PSS_SALT_HASH && !rsa then Err(SaltNeedsRsa)
    else if o.saltLen < 0 && o.saltLen != PSS_SALT_MAX then Err(SaltOutOfRange)
    else if o.deterministic && !(ec || pqc) then Err(NoDeterministic)
    else if o.mgf1 != "" && !rsa then Err(Mgf1NeedsRsa)
    else if o.format != SIGNATURE_DER && !ec then Err(FormatNeedsEc)
    else if keyType == "RSA-PSS" && o.padding == RSAPKCS1v15 then Err(PssKeyCannotPkcs1)
    else Ok(())
  }

  /** Every error names an option that is set and that the key type has no use for, or
      a value that is out of its limits. */
  lemma ErrorsNameTheOption(keyType: string, o: Options)
    ensures var r := Check(keyType, o);
            var rsa, eddsa := keyType in {"RSA", "RSA-PSS"}, keyType in {"ED25519", "ED448"};
            var pqc := "ML-DSA" <= keyType || "SLH-DSA" <= keyType;
            r.Err? ==>
              match r.error
              case NoContext => o.context.Some? && !eddsa && !pqc
              case ContextTooLong => o.context.Some? && (eddsa || pqc) && |o.context.value| > 255
              case NoPrehash => o.prehash && !eddsa
              case PaddingNeedsRsa => o.padding != 0 && !rsa
              case SaltNeedsRsa => o.saltLen != 0 && !rsa
              case SaltOutOfRange => o.saltLen < -1 && rsa
              case NoDeterministic => o.deterministic && keyType != "EC" && !pqc
              case Mgf1NeedsRsa => o.mgf1 != "" && !rsa
              case FormatNeedsEc => o.format != 0 && keyType != "EC"
              case PssKeyCannotPkcs1 => o.padding == 1 && keyType == "RSA-PSS"
  {
  }

  // ---- what is told to OpenSSL ----

  datatype Param = Text(key: string, text: string) | Octets(key: string, bytes: Bytes) | Int(key: string, n: int)

  datatype Setting =
    | RsaPadding(pss: bool)
    | RsaPssSaltLen(len: int)
    | RsaMgf1(name: string)
    | Params(params: seq<Param>)

  function SaltSetting(saltLen: int): int {
    if saltLen > 0 then CInt(saltLen)
    else if saltLen == PSS_SALT_MAX then RSA_PSS_SALTLEN_MAX
    else RSA_PSS_SALTLEN_DIGEST
  }

  /** MGF1 follows the signature digest unless it is set. */
  function Mgf1(o: Options): string {
    if o.mgf1 != "" then o.mgf1 else o.digest
  }

  function ContextParam(o: Options): seq<Param> {
    if o.context.Some? then [Octets("context-string", o.context.value)] else []
  }

  function InstancePlan(instance: string, o: Options): seq<Setting> {
    [Params([Text("instance", instance)] + ContextParam(o))]
  }

  function ContextPlan(o: Options): seq<Setting> {
    if o.context.Some? then [Params(ContextParam(o))] else []
  }

  function RsaPlan(o: Options): seq<Setting> {
    if o.padding == RSAPKCS1v15 then [RsaPadding(false)]
    else [RsaPadding(true), RsaPssSaltLen(SaltSetting(o.saltLen)), RsaMgf1(Mgf1(o))]
  }

  /** The settings made on the key context, in order. */
  function Plan(keyType: string, o: Options): seq<Setting> {
    if IsRsa(keyType) then RsaPlan(o)
    else if keyType == "EC" then (if o.deterministic then [Params([Int("nonce-type", 1)])] else [])
    else if keyType == "ED25519" then
      if o.prehash then InstancePlan("Ed25519ph", o)
      else if o.context.Some? then InstancePlan("Ed25519ctx", o)
      else []
    else if keyType == "ED448" then
      if o.prehash then InstancePlan("Ed448ph", o) else ContextPlan(o)
    else if IsPostQuantum(keyType) then
      ContextPlan(o) + (if o.deterministic then [Params([Int("deterministic", 1)])] else [])
    else []
  }

  /** Index of the first setting OpenSSL refuses; the length when it refuses none. */
  function FirstRefused(refuses: Setting -> bool, plan: seq<Setting>): (n: nat)
    ensures n <= |plan|
    ensures forall i :: 0 <= i < n ==> !refuses(plan[i])
    ensures n < |plan| ==> refuses(plan[n])
  {
    if plan == [] || refuses(plan[0]) then 0 else 1 + FirstRefused(refuses, plan[1..])
  }

  lemma RefusedAt(refuses: Setting -> bool, plan: seq<Setting>, n: nat)
    requires n <= |plan| && forall i :: 0 <= i < n ==> !refuses(plan[i])
    requires n < |plan| ==> refuses(plan[n])
    ensures FirstRefused(refuses, plan) == n
  {
  }

  /** The borrowed EVP_PKEY_CTX: settings accumulate, and any may be refused. */
  class KeyContext {
    var settings: seq<Setting>
    const refuses: Setting -> bool

    constructor (refuses: Setting -> bool)
      ensures settings == [] && this.refuses == refuses
    {
      settings := [];
      this.refuses := refuses;
    }

    method Set(s: Setting) returns (ok: bool)
      modifies this
      ensures ok == !refuses(s)
      ensures settings == if ok then old(settings) + [s] else old(settings)
    {
      ok := !refuses(s);
      if ok {
        settings := settings + [s];
      }
    }

    twostate predicate Followed(plan: seq<Setting>, ok: bool)
      reads this
    {
      && settings == old(settings) + plan[..FirstRefused(refuses, plan)]
      && ok == (FirstRefused(refuses, plan) == |plan|)
    }

    method ApplyRsa(o: Options, digest: string) returns (ok: bool)
      requires digest == o.digest
      modifies this
      ensures Followed(RsaPlan(o), ok)
    {
      if o.padding == RSAPKCS1v15 {
        ok := Set(RsaPadding(false));
        return;
      }
      ghost var plan := RsaPlan(o);
      ok := Set(RsaPadding(true));
      if !ok { RefusedAt(refuses, plan, 0); return; }
      var salt;
      if o.saltLen > 0 {
        salt := CInt(o.saltLen);
      } else if o.saltLen == PSS_SALT_MAX {
        salt := RSA_PSS_SALTLEN_MAX;
      } else {
        salt := RSA_PSS_SALTLEN_DIGEST;
      }
      ok := Set(RsaPssSaltLen(salt));
      if !ok { RefusedAt(refuses, plan, 1); return; }
      var mgf1 := digest;
      if o.mgf1 != "" {
        mgf1 := o.mgf1;
      }
      ok := Set(RsaMgf1(mgf1));
      RefusedAt(refuses, plan, if ok then 3 else 2);
    }

    method ApplyContext(context: Option<Bytes>) returns (ok: bool)
      modifies this
      ensures Followed(if context.Some? then [Params([Octets("context-string", context.value)])] else [], ok)
    {
      if context.None? {
        return true;
      }
      ok := Set(Params([Octets("context-string", context.value)]));
    }

    method ApplyInstance(instance: string, o: Options) returns (ok: bool)
      modifies this
      ensures Followed(InstancePlan(instance, o), ok)
    {
      var p := [Text("instance", instance)];
      if o.context.Some? {
        p := p + [Octets("context-string", o.context.value)];
      }
      assert p == [Text("instance", instance)] + ContextParam(o);
      ok := Set(Params(p));
    }

    /** `applySignOptions` and its helpers. */
    method Apply(keyType: string, o: Options) returns (ok: bool)
      modifies this
      ensures Followed(Plan(keyType, o), ok)
    {
      if keyType == "RSA" || keyType == "RSA-PSS" {
        ok := ApplyRsa(o, o.digest);
      } else if keyType == "EC" {
        ok := true;
        if o.deterministic {
          ok := Set(Params([Int("nonce-type", 1)]));
        }
      } else if keyType == "ED25519" {
        ok := true;
        if o.prehash {
          ok := ApplyInstance("Ed25519ph", o);
        } else if o.context.Some? {
          ok := ApplyInstance("Ed25519ctx", o);
        }
      } else if keyType == "ED448" {
        if o.prehash {
          ok := ApplyInstance("Ed448ph", o);
        } else {
          ok := ApplyContext(o.context);
        }
      } else if HasPrefix(keyType, "ML-DSA") || HasPrefix(keyType, "SLH-DSA") {
        ok := ApplyContext(o.context);
        if !ok { return; }
        if o.deterministic {
          ok := Set(Params([Int("deterministic", 1)]));
        }
      } else {
        ok := true;
      }
    }
  }

  /** Everything an accepted option set does on the one-shot path: the digest
      named at init, the settings, and whether the output is converted. */
  datatype Effect = Effect(digest: string, settings: seq<Setting>, convert: bool)

  function EffectOf(keyType: string, o: Options): Effect {
    Effect(o.digest, Plan(keyType, o), o.format == EcdsaFormat.P1363)
  }

  // ---- no accepted option is dropped ----

  /** Equal requests, an unset MGF1 digest standing for the signature digest. */
  predicate SameRequest(a: Options, b: Options) {
    a.(mgf1 := Mgf1(a)) == b.(mgf1 := Mgf1(b))
  }

  /** Declared enumeration values, and no PSS setting under PKCS#1 v1.5. */
  predicate Plain(o: Options) {
    && o.padding in {RSAPSS, RSAPKCS1v15}
    && o.format in {SIGNATURE_DER, EcdsaFormat.P1363}
    && (o.padding == RSAPKCS1v15 ==> o.saltLen == PSS_SALT_HASH && Mgf1(o) == o.digest)
  }

  lemma NoSilentDrop(keyType: string, a: Options, b: Options)
    requires Check(keyType, a).Ok? && Check(keyType, b).Ok?
    requires Plain(a) && Plain(b) && a.saltLen < 0x8000_0000 && b.saltLen < 0x8000_0000
    requires EffectOf(keyType, a) == EffectOf(keyType, b)
    ensures SameRequest(a, b)
  {
    NamesAreDisjoint(keyType);
    if IsRsa(keyType) {
      if a.padding == RSAPSS && b.padding == RSAPSS {
        assert RsaPlan(a)[1] == RsaPlan(b)[1] && RsaPlan(a)[2] == RsaPlan(b)[2];
      } else {
        assert RsaPlan(a)[0] == RsaPlan(b)[0];
      }
    } else if keyType == "ED25519" || keyType == "ED448" || IsPostQuantum(keyType) {
      PlanShowsContext(keyType, a, b);
    }
  }

  lemma NamesAreDisjoint(keyType: string)
    ensures IsPostQuantum(keyType) ==> keyType[0] in {'M', 'S'}
    ensures IsPostQuantum(keyType) ==> !IsRsa(keyType) && keyType !in {"EC", "ED25519", "ED448"}
  {
    assert HasPrefix(keyType, "ML-DSA") ==> keyType[0] == "ML-DSA"[0];
    assert HasPrefix(keyType, "SLH-DSA") ==> keyType[0] == "SLH-DSA"[0];
  }

  lemma PlanShowsContext(keyType: string, a: Options, b: Options)
    requires keyType == "ED25519" || keyType == "ED448" || IsPostQuantum(keyType)
    requires Plan(keyType, a) == Plan(keyType, b)
    requires (a.prehash || b.prehash) ==> !IsPostQuantum(keyType)
    requires (a.deterministic || b.deterministic) ==> IsPostQuantum(keyType)
    ensures a.context == b.context && a.prehash == b.prehash && a.deterministic == b.deterministic
  {
    NamesAreDisjoint(keyType);
    FirstParam(keyType, a);
    FirstParam(keyType, b);
  }

  /** The first setting shows the instance and the context, the number of
      settings whether the deterministic variant was selected. */
  lemma FirstParam(keyType: string, o: Options)
    requires keyType == "ED25519" || keyType == "ED448" || IsPostQuantum(keyType)
    requires o.prehash ==> !IsPostQuantum(keyType)
    requires o.deterministic ==> IsPostQuantum(keyType)
    ensures var plan := Plan(keyType, o);
            && (o.context.Some? ==>
                  && plan != [] && plan[0].Params? && plan[0].params != []
                  && plan[0].params[|plan[0].params| - 1] == Octets("context-string", o.context.value))
            && (o.context.None? && plan != [] ==>
                  plan[0].Params? && plan[0].params != [] && !plan[0].params[|plan[0].params| - 1].Octets?)
            && |plan| == (if o.prehash || o.context.Some? then 1 else 0) + (if o.deterministic then 1 else 0)
            && (o.prehash <==>
                  plan != [] && plan[0].params[0] in {Text("instance", "Ed25519ph"), Text("instance", "Ed448ph")})
  {
    NamesAreDisjoint(keyType);
    assert "Ed25519ctx"[7] != "Ed25519ph"[7];
  }

  /** An accepted option set is indistinguishable from a different plain request
      exactly when it is not plain itself: an out-of-range padding or format
      acts as the default, and PKCS#1 v1.5 ignores the PSS settings. */
  lemma DropsExactlyWhenNotPlain(keyType: string, o: Options)
    requires Check(keyType, o).Ok? && o.saltLen < 0x8000_0000
    ensures !Plain(o) <==>
              exists p :: Check(keyType, p).Ok? && Plain(p) && p.saltLen < 0x8000_0000
                       && EffectOf(keyType, p) == EffectOf(keyType, o) && !SameRequest(p, o)
  {
    var p := o.(padding := if o.padding == RSAPKCS1v15 then RSAPKCS1v15 else RSAPSS,
                format := if o.format == EcdsaFormat.P1363 then EcdsaFormat.P1363 else SIGNATURE_DER);
    if o.padding == RSAPKCS1v15 {
      p := p.(saltLen := PSS_SALT_HASH, mgf1 := "");
    }
    assert Check(keyType, p).Ok? && Plain(p) && EffectOf(keyType, p) == EffectOf(keyType, o);
    if Plain(o) {
      forall q |
        && Check(keyType, q).Ok? && Plain(q) && q.saltLen < 0x8000_0000
        && EffectOf(keyType, q) == EffectOf(keyType, o)
        ensures SameRequest(q, o)
      {
        NoSilentDrop(keyType, q, o);
      }
    } else {
      assert !SameRequest(p, o);
    }
  }

  // ---- what the key context is configured to ----

  datatype RsaScheme = Pkcs1v15 | Pss

  /** How OpenSSL is going to sign once the settings are made. */
  datatype KeyConfig = KeyConfig(
    scheme: Option<RsaScheme>, saltLen: Option<int>, mgf1: Option<string>,
    instance: string, context: Option<Bytes>, nonceType: int, deterministic: int)

  const UNCONFIGURED := KeyConfig(None, None, None, "", None, 0, 0)

  /** What OpenSSL makes of one parameter and of one setting. */
  function WithParam(c: KeyConfig, p: Param): KeyConfig {
    match p
    case Text(key, text) => if key == "instance" then c.(instance := text) else c
    case Octets(key, bytes) => if key == "context-string" then c.(context := Some(bytes)) else c
    case Int(key, n) =>
      if key == "nonce-type" then c.(nonceType := n)
      else if key == "deterministic" then c.(deterministic := n)
      else c
  }

  function WithParams(c: KeyConfig, params: seq<Param>): KeyConfig
    decreases |params|
  {
    if params == [] then c else WithParams(WithParam(c, params[0]), params[1..])
  }

  function WithSetting(c: KeyConfig, s: Setting): KeyConfig {
    match s
    case RsaPadding(pss) => c.(scheme := Some(if pss then Pss else Pkcs1v15))
    case RsaPssSaltLen(len) => c.(saltLen := Some(len))
    case RsaMgf1(name) => c.(mgf1 := Some(name))
    case Params(params) => WithParams(c, params)
  }

  function Configured(c: KeyConfig, plan: seq<Setting>): KeyConfig
    decreases |plan|
  {
    if plan == [] then c else Configured(WithSetting(c, plan[0]), plan[1..])
  }

  predicate HashesMl(keyType: string) {
    "ML-DSA" <= keyType || "SLH-DSA" <= keyType
  }

  /** Every accepted request configures the key context to what it asks for: PSS
      unless PKCS#1 v1.5 was asked for, MGF1 with its own digest or the signature's,
      the EdDSA variant that takes the prehash or the context, and determinism where
      the key type has it. */
  lemma ConfiguresWhatWasAsked(keyType: string, o: Options)
    requires Check(keyType, o).Ok?
    ensures var c := Configured(UNCONFIGURED, Plan(keyType, o));
            var rsa, pss := keyType in {"RSA", "RSA-PSS"}, keyType in {"RSA", "RSA-PSS"} && o.padding != 1;
            && c.scheme == (if pss then Some(Pss) else if rsa then Some(Pkcs1v15) else None)
            && c.saltLen == (if !pss then None else if o.saltLen > 0 then Some(CInt(o.saltLen)) else if o.saltLen == -1
                then Some(-3) else Some(-1))
            && c.mgf1 == (if !pss then None else if o.mgf1 == "" then Some(o.digest) else Some(o.mgf1))
    ensures var c := Configured(UNCONFIGURED, Plan(keyType, o));
            && c.instance == (if keyType == "ED25519" && o.prehash then "Ed25519ph"
                              else if keyType == "ED25519" && o.context.Some? then "Ed25519ctx"
                              else if keyType == "ED448" && o.prehash then "Ed448ph"
                              else "")
            && c.context == o.context
            && c.nonceType == (if keyType == "EC" && o.deterministic then 1 else 0)
            && c.deterministic == (if HashesMl(keyType) && o.deterministic then 1 else 0)
  {
    NamesAreDisjoint(keyType);
    var plan := Plan(keyType, o);
    ShortPlan(UNCONFIGURED, plan);
    if !IsRsa(keyType) && plan != [] {
      ShortParams(UNCONFIGURED, plan[0].params);
      ShortParams(WithSetting(UNCONFIGURED, plan[0]), plan[|plan| - 1].params);
      assert "instance" != "context-string" && "nonce-type" != "deterministic";
    }
  }

  /** Plans of up to three settings, and lists of up to two parameters, written out. */
  lemma ShortPlan(c: KeyConfig, plan: seq<Setting>)
    ensures |plan| == 0 ==> Configured(c, plan) == c
    ensures |plan| == 1 ==> Configured(c, plan) == WithSetting(c, plan[0])
    ensures |plan| == 2 ==> Configured(c, plan) == WithSetting(WithSetting(c, plan[0]), plan[1])
    ensures |plan| == 3 ==> Configured(c, plan) == WithSetting(WithSetting(WithSetting(c, plan[0]), plan[1]), plan[2])
    decreases |plan|
  {
    if plan != [] {
      ShortPlan(WithSetting(c, plan[0]), plan[1..]);
    }
  }

  lemma ShortParams(c: KeyConfig, params: seq<Param>)
    ensures |params| == 0 ==> WithParams(c, params) == c
    ensures |params| == 1 ==> WithParams(c, params) == WithParam(c, params[0])
    ensures |params| == 2 ==> WithParams(c, params) == WithParam(WithParam(c, params[0]), params[1])
    decreases |params|
  {
    if params != [] {
      ShortParams(WithParam(c, params[0]), params[1..]);
    }
  }

  /** Explicit salt lengths pass through a C int: one arrives as it is exactly when
      it is below 2^31, two of them reach OpenSSL as the same number exactly when
      they agree modulo 2^32, and one is taken for a reserved value exactly when
      its low 32 bits spell that value; two of those make a verifier accept more
      than one salt length. */
  lemma SaltLengthsCollide(s: int, t: int)
    requires s > 0
    ensures SaltSetting(s) == s <==> s < 0x8000_0000
    ensures t > 0 ==> (SaltSetting(s) == SaltSetting(t) <==> (s - t) % 0x1_0000_0000 == 0)
    ensures SaltSetting(s) == RSA_PSS_SALTLEN_DIGEST <==> s % 0x1_0000_0000 == 0xFFFF_FFFF
    ensures SaltSetting(s) == RSA_PSS_SALTLEN_AUTO <==> s % 0x1_0000_0000 == 0xFFFF_FFFE
    ensures SaltSetting(s) == RSA_PSS_SALTLEN_MAX <==> s % 0x1_0000_0000 == 0xFFFF_FFFD
    ensures SaltSetting(s) == RSA_PSS_SALTLEN_AUTO_DIGEST_MAX <==> s % 0x1_0000_0000 == 0xFFFF_FFFC
    ensures SaltSetting(PSS_SALT_HASH) == RSA_PSS_SALTLEN_DIGEST && SaltSetting(PSS_SALT_MAX) == RSA_PSS_SALTLEN_MAX
  {
  }

  /** The automatic values are never asked for by the declared constants, yet a
      large enough salt length asks for them. */
  lemma AutomaticSaltIsReachable(keyType: string, o: Options)
    requires IsRsa(keyType) && o == UNSET.(saltLen := 0xFFFF_FFFE)
    ensures Check(keyType, o).Ok? && Plan(keyType, o)[1] == RsaPssSaltLen(RSA_PSS_SALTLEN_AUTO)
    ensures SaltSetting(PSS_SALT_HASH) != RSA_PSS_SALTLEN_AUTO && SaltSetting(PSS_SALT_MAX) != RSA_PSS_SALTLEN_AUTO
  {
    SaltLengthsCollide(0xFFFF_FFFE, 1);
  }

  // ---- nothing useful is rejected ----

  predicate WithinLimits(keyType: string, o: Options) {
    && (o.context.Some? ==> |o.context.value| <= 255)
    && o.saltLen >= -1
    && (o.format != 0 ==> keyType == "EC")
    && !(keyType == "RSA-PSS" && o.padding == 1)
  }

  /** The options with every field that the key type has no use for left unset. */
  function Relevant(keyType: string, o: Options): Options {
    var eddsa := keyType == "ED25519" || keyType == "ED448";
    var rsa := IsRsa(keyType);
    Options(
      o.digest,
      if eddsa || IsPostQuantum(keyType) then o.context else None,
      o.prehash && eddsa,
      if rsa then o.padding else RSAPSS,
      if rsa then o.saltLen else PSS_SALT_HASH,
      if rsa then o.mgf1 else "",
      o.format,
      o.deterministic && (keyType == "EC" || IsPostQuantum(keyType)))
  }

  /** Within the limits, an option set is rejected exactly when some field of it
      would have been dropped: unsetting those fields changes nothing that
      OpenSSL is told. */
  lemma RejectsExactlyTheDropped(keyType: string, o: Options)
    ensures Check(keyType, o).Ok? ==> WithinLimits(keyType, o)
    ensures WithinLimits(keyType, o) ==>
              && Check(keyType, Relevant(keyType, o)).Ok?
              && EffectOf(keyType, Relevant(keyType, o)) == EffectOf(keyType, o)
              && (Check(keyType, o).Ok? <==> Relevant(keyType, o) == o)
  {
  }

  // ---- key types and default digests ----

  /** The letters of `name`, in upper or lower case. */
  predicate Spells(s: string, name: string) {
    |s| == |name| && forall i :: 0 <= i < |s| ==> s[i] == name[i] || ('a' <= s[i] <= 'z' && s[i] - 'a' + 'A' == name[i])
  }

  /** Under the names OpenSSL gives its key types, these are refused streaming; names
      are compared in upper case. */
  lemma OneShotOnlyExactly(keyType: string)
    ensures forall name :: name in {"ED25519", "ED448"} && Spells(keyType, name) ==> OneShotOnly(keyType)
    ensures keyType in {"ED25519", "ED448"} || "ML-DSA" <= keyType || "SLH-DSA" <= keyType ==> OneShotOnly(keyType)
    ensures keyType in {"RSA", "RSA-PSS", "EC", "DSA", "X25519"} ==> !OneShotOnly(keyType)
    ensures OneShotOnly(keyType) && ToUpper(keyType) == keyType ==>
              "ED25519" <= keyType || "ED448" <= keyType || "ML-DSA" <= keyType || "SLH-DSA" <= keyType
  {
    assert "ED25519"[0] == "ED448"[0] == 'E' && "ML-DSA"[0] == 'M' && "SLH-DSA"[0] == 'S';
    if OneShotOnly(keyType) {
      assert ToUpper(keyType)[0] in {'E', 'M', 'S'};
    }
  }

  /** An unnamed digest scales with the key, and is left unnamed where the key type
      hashes by itself; a named one is kept, as is everything else. Without options
      everything else is unset: PSS, its salt as long as the digest, DER. */
  lemma DefaultsExactly(keyType: string, bits: int, opts: Option<Options>)
    ensures var o, asked := WithDefaults(keyType, bits, opts), if opts.Some? then opts.value else UNSET;
            && o == asked.(digest := o.digest)
            && (opts.None? ==> asked == Options("", None, false, 0, 0, "", 0, false))
            && (asked.digest != "" ==> o.digest == asked.digest)
            && (asked.digest == "" && OneShotOnly(keyType) ==> o.digest == "")
            && (asked.digest == "" && !OneShotOnly(keyType) && bits < 192 ==> o.digest == "SHA2-256")
            && (asked.digest == "" && !OneShotOnly(keyType) && bits >= 192 ==> o.digest == "SHA2-384")
  {
  }
}
