/** `SignatureCapability`: whether its structural verdict is the one that signing
    gives. */
module Capability {
  import opened ByteStrings
  import opened SignOptions
  import opened OneShot

  datatype Capability = Capability(
    keyType: string, curve: string, digest: string, format: int, prehash: bool, deterministic: bool, context: bool)

  /** What the context and the library answer when they are asked, and two things
      that the check does not ask: which available key types can sign at all, and
      which usable digests a key type signs with. */
  datatype Environment = Environment(
    keyAvailable: string -> bool,
    curveBuiltIn: string -> bool,
    curveUsable: string -> bool,
    digestAvailable: string -> bool,
    isXof: string -> bool,
    signs: string -> bool,
    signsWith: (string, string) -> bool)

  datatype CapabilityError =
    | NoKey | KeyUnavailable | CurveNeedsEc | EcNeedsCurve | CurveUnknown | CurveUnusable
    | HashesItself | DigestUnavailable | ExtendableDigest
    | Rejected(cause: CheckError)

  const PROBE_CONTEXT: Bytes := [99, 97, 112, 97, 98, 105, 108, 105, 116, 121, 45, 112, 114, 111, 98, 101]

  /** `SignatureCapability.options`. */
  function OptionsOf(s: Capability): Options {
    UNSET.(digest := s.digest, format := s.format, prehash := s.prehash, deterministic := s.deterministic,
           context := if s.context then Some(PROBE_CONTEXT) else None)
  }

  /** The key and curve rules, which are about the key rather than the options. */
  function KeyRules(env: Environment, s: Capability): Result<(), CapabilityError> {
    if s.keyType == "" then Err(NoKey)
    else if !env.keyAvailable(s.keyType) then Err(KeyUnavailable)
    else if s.curve != "" && s.keyType != "EC" then Err(CurveNeedsEc)
    else if s.keyType == "EC" && s.curve == "" then Err(EcNeedsCurve)
    else if s.curve != "" && !env.curveBuiltIn(s.curve) then Err(CurveUnknown)
    else if s.curve != "" && !env.curveUsable(s.curve) then Err(CurveUnusable)
    else Ok(())
  }

  function DigestRules(env: Environment, s: Capability): Result<(), CapabilityError> {
    if OneShotOnly(s.keyType) && s.digest != "" then Err(HashesItself)
    else if s.digest != "" && !env.digestAvailable(s.digest) then Err(DigestUnavailable)
    else if s.digest != "" && env.isXof(s.digest) then Err(ExtendableDigest)
    else Ok(())
  }

  /** `SignatureCapability.check`. */
  function CheckCapability(env: Environment, s: Capability): Result<(), CapabilityError> {
    var key, digest := KeyRules(env, s), DigestRules(env, s);
    if key.Err? then key
    else if digest.Err? then digest
    else match Check(s.keyType, OptionsOf(s))
      case Ok(_) => Ok(())
      case Err(e) => Err(Rejected(e))
  }

  /** Which keys and curves are turned down, and with which error: a key type that is
      missing or not named, a curve beside any other key type than EC, an EC key
      without a curve, and a curve that is not built in or not usable here. */
  lemma TurnsDownKeysExactly(env: Environment, s: Capability)
    ensures var r := KeyRules(env, s);
            var named := s.keyType != "" && env.keyAvailable(s.keyType);
            && (r == Err(NoKey) <==> s.keyType == "")
            && (r == Err(KeyUnavailable) <==> s.keyType != "" && !env.keyAvailable(s.keyType))
            && (r == Err(CurveNeedsEc) <==> named && s.keyType != "EC" && s.curve != "")
            && (r == Err(EcNeedsCurve) <==> named && s.keyType == "EC" && s.curve == "")
            && (r == Err(CurveUnknown) <==>
                  named && s.keyType == "EC" && s.curve != "" && !env.curveBuiltIn(s.curve))
            && (r == Err(CurveUnusable) <==>
                  named && s.keyType == "EC" && s.curve != "" && env.curveBuiltIn(s.curve) && !env.curveUsable(s.curve))
            && (r.Ok? <==>
                  && named && (s.keyType == "EC" <==> s.curve != "")
                  && (s.keyType == "EC" ==> env.curveBuiltIn(s.curve) && env.curveUsable(s.curve)))
  {
  }

  /** The same for named digests, and for the options: the first rule that is broken
      decides, keys before digests before options. */
  lemma TurnsDownExactly(env: Environment, s: Capability)
    ensures var r, key, check := CheckCapability(env, s), KeyRules(env, s), Check(s.keyType, OptionsOf(s));
            var named := key.Ok? && s.digest != "";
            var digestOk := s.digest == "" || (!OneShotOnly(s.keyType) && Usable(env, s.digest));
            && (key.Err? ==> r == key)
            && (r == Err(HashesItself) <==> named && OneShotOnly(s.keyType))
            && (r == Err(DigestUnavailable) <==>
                  named && !OneShotOnly(s.keyType) && !env.digestAvailable(s.digest))
            && (r == Err(ExtendableDigest) <==>
                  named && !OneShotOnly(s.keyType) && env.digestAvailable(s.digest) && env.isXof(s.digest))
            && (forall e :: r == Err(Rejected(e)) <==> key.Ok? && digestOk && check == Err(e))
            && (r.Ok? <==> key.Ok? && digestOk && check.Ok?)
  {
    TurnsDownKeysExactly(env, s);
  }

  /** A digest that can be a signature digest. */
  predicate Usable(env: Environment, digest: string) {
    env.digestAvailable(digest) && !env.isXof(digest)
  }

  /** OpenSSL takes what the wrapper's own rules let through for the key types that
      can sign, with no named digest where the key type hashes by itself, and with
      a usable one that suits the key type otherwise. */
  ghost predicate TakesByDigest(evp: Evp, env: Environment) {
    forall info: KeyInfo, opts: Option<Options> ::
      var o := Requested(info, opts);
      Check(info.keyType, o).Ok? ==>
        (evp.takes(info.keyType, RecipeFor(info, opts)) <==>
           env.signs(info.keyType) && Suits(env, info.keyType, o.digest))
  }

  predicate Suits(env: Environment, keyType: string, digest: string) {
    if OneShotOnly(keyType) then digest == "" else Usable(env, digest) && env.signsWith(keyType, digest)
  }

  /** Neither the wrapper's rules nor OpenSSL turn the options down. */
  predicate Accepted(evp: Evp, p: Pkey, info: KeyInfo, o: Options, msg: Bytes, nonce: nat) {
    var r := Sign(evp, p, info, Some(o), msg, nonce, false);
    r.Ok? || r.error.Malformed?
  }

  /** For a key that exists: an error means that signing is turned down, whatever
      context of permitted length the caller passes; and no error means that it is
      not, exactly for a key type that can sign, with a digest that suits it. None
      of that is asked, but whether a digest that was named is usable. */
  lemma VerdictIsThatOfSigning(env: Environment, evp: Evp, s: Capability, p: Pkey, info: KeyInfo, o: Options,
                                msg: Bytes, nonce: nat)
    requires TakesByDigest(evp, env) && KeyRules(env, s).Ok? && info.keyType == s.keyType
    requires o == Options(s.digest, o.context, s.prehash, 0, 0, "", s.format, s.deterministic)
    requires s.context <==> o.context.Some?
    requires o.context.Some? ==> |o.context.value| <= MAX_CONTEXT_LENGTH
    ensures var digest := Requested(info, Some(o)).digest;
            Accepted(evp, p, info, o, msg, nonce) <==>
              && CheckCapability(env, s).Ok?
              && env.signs(s.keyType)
              && (OneShotOnly(s.keyType) || env.signsWith(s.keyType, digest))
              && (OneShotOnly(s.keyType) || s.digest != "" || Usable(env, digest))
  {
    assert Check(s.keyType, Requested(info, Some(o))) == Check(s.keyType, OptionsOf(s));
    assert RecipeFor(info, Some(o)).digest == Requested(info, Some(o)).digest;
  }

  /** An environment in which everything is there and suits, but these key types
      cannot sign and these digests are missing. */
  function AllBut(unsigning: set<string>, missing: set<string>): Environment {
    Environment(_ => true, _ => true, _ => true, d => d !in missing, _ => false, k => k !in unsigning, (_, _) => true)
  }

  /** The library that goes with it. */
  function LibraryOf(env: Environment): Evp {
    SAMPLE.(takes := (keyType, r: Recipe) => env.signs(keyType) && Suits(env, keyType, r.digest))
  }

  lemma LibraryTakesByDigest(env: Environment)
    ensures TakesByDigest(LibraryOf(env), env)
  {
  }

  /** A key type that has no signatures passes the check. */
  lemma KemKeysPassTheCheck()
    ensures var env := AllBut({"ML-KEM-768"}, {});
            var s := Capability("ML-KEM-768", "", "", SIGNATURE_DER, false, false, false);
            && TakesByDigest(LibraryOf(env), env)
            && CheckCapability(env, s).Ok?
            && Sign(LibraryOf(env), 0, KeyInfo("ML-KEM-768", 192, 0), Some(OptionsOf(s)), [], 0, false) == Err(Library)
  {
    LibraryTakesByDigest(AllBut({"ML-KEM-768"}, {}));
    var t := ToUpper("ML-KEM-768");
    assert t[3] == 'K' && "ML-DSA"[3] == 'D' && t[0] == 'M';
    assert "ED25519"[0] == "ED448"[0] == 'E' && "SLH-DSA"[0] == 'S';
  }

  /** An unnamed digest passes even where the default one is missing. */
  lemma DefaultDigestIsNotAskedAbout()
    ensures var env := AllBut({}, {"SHA2-256"});
            var s := Capability("EC", "P-256", "", SIGNATURE_DER, false, false, false);
            && TakesByDigest(LibraryOf(env), env)
            && CheckCapability(env, s).Ok?
            && Sign(LibraryOf(env), 0, KeyInfo("EC", 128, 256), Some(OptionsOf(s)), [], 0, false) == Err(Library)
  {
    LibraryTakesByDigest(AllBut({}, {"SHA2-256"}));
    KeyTypesThatHash("EC");
  }
}
