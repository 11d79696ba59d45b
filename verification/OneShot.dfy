/** Signing and verifying in one call, over a message or over its digest. */
module OneShot {
  import opened ByteStrings
  import opened SignOptions
  import F = EcdsaFormat
  import Der
  import Arithmetic

  type Pkey = nat

  /** What the wrapper asks of a key: its type name, strength and size. */
  datatype KeyInfo = KeyInfo(keyType: string, securityBits: int, bits: nat)

  /** How a message is signed: the digest named at init and the settings made. */
  datatype Recipe = Recipe(digest: string, settings: seq<Setting>)

  /** The hash a recipe applies to the message before the key is used. */
  datatype Hash = Named(name: string) | Ed25519Prehash | Ed448Prehash

  /** OpenSSL's side. `takes` says which recipes a key type accepts, `size` what a
      digest that can be fetched produces. Signing may be randomised: `nonce`
      stands for the randomness. The last two work on a hash computed elsewhere. */
  datatype Evp = Evp(
    takes: (string, Recipe) -> bool,
    sign: (Pkey, Recipe, Bytes, nat) -> Bytes,
    verify: (Pkey, Recipe, Bytes, Bytes) -> int,
    size: string -> Option<nat>,
    hash: (Hash, Bytes) -> Bytes,
    signHashed: (Pkey, Recipe, Bytes, nat) -> Bytes,
    verifyHashed: (Pkey, Recipe, Bytes, Bytes) -> int)

  datatype SignError =
    | BadOptions(cause: CheckError)
    | WrongDigestLength
    | NoDigestForm
    | Library
    | Malformed(why: F.FormatError)
    | Verification

  function Requested(info: KeyInfo, opts: Option<Options>): Options {
    WithDefaults(info.keyType, info.securityBits, opts)
  }

  function RecipeFor(info: KeyInfo, opts: Option<Options>): Recipe {
    var o := Requested(info, opts);
    Recipe(o.digest, Plan(info.keyType, o))
  }

  function Output(info: KeyInfo, o: Options, sig: Bytes): Result<Bytes, SignError> {
    match F.SignOutput(o.format, sig, info.bits)
    case Ok(out) => Ok(out)
    case Err(e) => Err(Malformed(e))
  }

  function Judge(rc: int): Result<(), SignError> {
    if rc == 1 then Ok(()) else Err(Verification)
  }

  /** `fails`: some call fails although the recipe is one OpenSSL takes. */
  function Sign(evp: Evp, p: Pkey, info: KeyInfo, opts: Option<Options>, msg: Bytes, nonce: nat, fails: bool)
    : Result<Bytes, SignError>
  {
    var o := Requested(info, opts);
    var check := Check(info.keyType, o);
    if check.Err? then Err(BadOptions(check.error))
    else if fails || !evp.takes(info.keyType, RecipeFor(info, opts)) then Err(Library)
    else Output(info, o, evp.sign(p, RecipeFor(info, opts), msg, nonce))
  }

  function Verify(evp: Evp, p: Pkey, info: KeyInfo, opts: Option<Options>, msg: Bytes, sig: Bytes, fails: bool)
    : Result<(), SignError>
  {
    if sig == [] then Err(Verification)
    else
      var o := Requested(info, opts);
      var check := Check(info.keyType, o);
      if check.Err? then Err(BadOptions(check.error))
      else if fails || !evp.takes(info.keyType, RecipeFor(info, opts)) then Err(Library)
      else match F.VerifyInput(o.format, sig, info.bits)
        case None => Err(Verification)
        case Some(der) => Judge(evp.verify(p, RecipeFor(info, opts), msg, der))
  }

  // ---- what comes of a call ----

  /** `Sign` fails with the options error exactly for options that do not pass, with
      the library's exactly for a recipe or a call that is refused, and otherwise
      gives the library's signature, under P1363 in the other form. */
  lemma SignsExactly(evp: Evp, p: Pkey, info: KeyInfo, opts: Option<Options>, msg: Bytes, nonce: nat, fails: bool)
    ensures var r, o := Sign(evp, p, info, opts, msg, nonce, fails), Requested(info, opts);
            var check, recipe := Check(info.keyType, o), Recipe(o.digest, Plan(info.keyType, o));
            var refused, sig := fails || !evp.takes(info.keyType, recipe), evp.sign(p, recipe, msg, nonce);
            && (forall e :: r == Err(BadOptions(e)) <==> check == Err(e))
            && (r == Err(Library) <==> check.Ok? && refused)
            && (check.Ok? && !refused && o.format != 1 ==> r == Ok(sig))
            && (check.Ok? && !refused && o.format == 1 ==>
                  match F.ToP1363(sig, F.CoordinateLen(info.bits))
                  case Ok(raw) => r == Ok(raw)
                  case Err(e) => r == Err(Malformed(e)))
  {
  }

  /** `Verify` accepts exactly what the library accepts, under P1363 of the signature
      in DER form; an empty or malformed signature is rejected like a wrong one. */
  lemma VerifiesExactly(evp: Evp, p: Pkey, info: KeyInfo, opts: Option<Options>, msg: Bytes, sig: Bytes, fails: bool)
    ensures var r, o := Verify(evp, p, info, opts, msg, sig, fails), Requested(info, opts);
            var check, recipe := Check(info.keyType, o), Recipe(o.digest, Plan(info.keyType, o));
            var refused := fails || !evp.takes(info.keyType, recipe);
            && (forall e :: r == Err(BadOptions(e)) <==> sig != [] && check == Err(e))
            && (r == Err(Library) <==> sig != [] && check.Ok? && refused)
            && (r == Ok(()) <==>
                  && sig != [] && check.Ok? && !refused
                  && (o.format != 1 ==> evp.verify(p, recipe, msg, sig) == 1)
                  && (o.format == 1 ==>
                        var der := F.P1363ToDer(sig, F.CoordinateLen(info.bits));
                        der.Ok? && evp.verify(p, recipe, msg, der.value) == 1))
            && (r.Err? ==> r.error.BadOptions? || r.error in {Library, SignError.Verification})
  {
  }

  /** What OpenSSL's own signatures are: accepted by it, not empty, and for EC the
      canonical encoding of two numbers below the order of the curve. */
  ghost predicate GoodSignature(info: KeyInfo, sig: Bytes, rc: int) {
    && rc == 1 && sig != []
    && (info.keyType == "EC" ==>
          info.bits > 0 && exists r: nat, s: nat :: Integers(sig, r, s, info.bits))
  }

  predicate Integers(sig: Bytes, r: nat, s: nat, bits: nat) {
    Der.Marshalable(r, s) && sig == Der.Marshal(r, s) && r < Arithmetic.Pow2(bits) && s < Arithmetic.Pow2(bits)
  }

  /** Whatever `Sign` returns under some options, `Verify` accepts under the same
      options: for every key type, every option set that passes, both formats. */
  lemma VerifyAcceptsWhatSignReturns(evp: Evp, p: Pkey, info: KeyInfo, opts: Option<Options>, msg: Bytes, nonce: nat)
    requires var o := Requested(info, opts);
             Check(info.keyType, o).Ok? && evp.takes(info.keyType, RecipeFor(info, opts))
    requires var sig := evp.sign(p, RecipeFor(info, opts), msg, nonce);
             GoodSignature(info, sig, evp.verify(p, RecipeFor(info, opts), msg, sig))
    ensures var r := Sign(evp, p, info, opts, msg, nonce, false);
            r.Ok? && Verify(evp, p, info, opts, msg, r.value, false) == Ok(())
  {
    var o, sig := Requested(info, opts), evp.sign(p, RecipeFor(info, opts), msg, nonce);
    GoodSurvivesFormat(info, o, sig, evp.verify(p, RecipeFor(info, opts), msg, sig));
  }

  lemma GoodSurvivesFormat(info: KeyInfo, o: Options, sig: Bytes, rc: int)
    requires Check(info.keyType, o).Ok? && GoodSignature(info, sig, rc)
    ensures F.SignOutput(o.format, sig, info.bits).Ok?
    ensures var out := F.SignOutput(o.format, sig, info.bits).value;
            out != [] && F.VerifyInput(o.format, out, info.bits) == Some(sig)
  {
    if info.keyType == "EC" {
      var r: nat, s: nat :| Integers(sig, r, s, info.bits);
      F.VerifierSeesSignersBytes(o.format, r, s, info.bits);
    }
  }

  // ---- digests computed by the caller ----

  const EDDSA_PREHASH_LEN := 64

  predicate TakesDigestParam(keyType: string) {
    IsRsa(keyType) || keyType == "EC"
  }

  predicate IsEddsa(keyType: string) {
    keyType == "ED25519" || keyType == "ED448"
  }

  /** `checkDigestOptions`; `size` is what the named digest produces, if it can be
      fetched. */
  function CheckDigest(keyType: string, o: Options, n: nat, size: Option<nat>): Result<(), SignError> {
    var check := Check(keyType, o);
    if check.Err? then Err(BadOptions(check.error))
    else if TakesDigestParam(keyType) then
      if size.None? then Err(Library)
      else if n != size.value then Err(WrongDigestLength)
      else Ok(())
    else if IsEddsa(keyType) then
      if !o.prehash then Err(NoDigestForm)
      else if n != EDDSA_PREHASH_LEN then Err(WrongDigestLength)
      else Ok(())
    else Err(NoDigestForm)
  }

  /** The settings on the digest path: RSA and EC are told the digest first. */
  function DigestPlan(keyType: string, o: Options): seq<Setting> {
    (if TakesDigestParam(keyType) then [Params([Text("digest", o.digest)])] else []) + Plan(keyType, o)
  }

  function LeadingParam(plan: seq<Setting>): Option<Param> {
    if plan != [] && plan[0].Params? && plan[0].params != [] then Some(plan[0].params[0]) else None
  }

  /** How OpenSSL reads those settings: a leading digest parameter names the digest. */
  function AsRecipe(plan: seq<Setting>): Recipe {
    if LeadingParam(plan).Some? && |plan[0].params| == 1 && plan[0].params[0].Text? && plan[0].params[0].key == "digest"
    then Recipe(plan[0].params[0].text, plan[1..])
    else Recipe("", plan)
  }

  function SignDigest(evp: Evp, p: Pkey, info: KeyInfo, opts: Option<Options>, digest: Bytes, nonce: nat, fails: bool)
    : Result<Bytes, SignError>
  {
    var o := Requested(info, opts);
    var check := CheckDigest(info.keyType, o, |digest|, evp.size(o.digest));
    var recipe := AsRecipe(DigestPlan(info.keyType, o));
    if check.Err? then Err(check.error)
    else if fails || !evp.takes(info.keyType, recipe) then Err(Library)
    else Output(info, o, evp.signHashed(p, recipe, digest, nonce))
  }

  function VerifyDigest(evp: Evp, p: Pkey, info: KeyInfo, opts: Option<Options>, digest: Bytes, sig: Bytes, fails: bool)
    : Result<(), SignError>
  {
    if sig == [] then Err(Verification)
    else
      var o := Requested(info, opts);
      var check := CheckDigest(info.keyType, o, |digest|, evp.size(o.digest));
      var recipe := AsRecipe(DigestPlan(info.keyType, o));
      if check.Err? then Err(check.error)
      else if fails || !evp.takes(info.keyType, recipe) then Err(Library)
      else match F.VerifyInput(o.format, sig, info.bits)
        case None => Err(Verification)
        case Some(der) => Judge(evp.verifyHashed(p, recipe, digest, der))
  }

  // ---- which digests are checked, and how ----

  /** The key types and options for which a digest can stand for its message. */
  predicate HasDigestForm(keyType: string, o: Options) {
    TakesDigestParam(keyType) || (IsEddsa(keyType) && o.prehash)
  }

  /** Every outcome of the digest checks, for every digest length and whether or
      not the named digest can be fetched. */
  lemma DigestChecks(keyType: string, o: Options, n: nat, size: Option<nat>)
    ensures var r := CheckDigest(keyType, o, n, size);
            var named, eddsa := keyType in {"RSA", "RSA-PSS", "EC"}, keyType in {"ED25519", "ED448"};
            var ok, form := Check(keyType, o).Ok?, named || (eddsa && o.prehash);
            var len := if named then size else Some(64);
            && (r.Err? && r.error.BadOptions? <==> !ok)
            && (r == Err(NoDigestForm) <==> ok && !form)
            && (r == Err(Library) <==> ok && form && len.None?)
            && (r == Err(WrongDigestLength) <==> ok && form && len.Some? && n != len.value)
            && (r == Ok(()) <==> ok && form && len == Some(n))
  {
  }

  /** `SignDigest` gives the library's signature on the digest exactly where the checks
      pass and nothing is refused; RSA and EC are told the digest by name first. */
  lemma SignsDigestsExactly(evp: Evp, p: Pkey, info: KeyInfo, opts: Option<Options>, d: Bytes, nonce: nat, fails: bool)
    ensures var r, o := SignDigest(evp, p, info, opts, d, nonce, fails), Requested(info, opts);
            var check := CheckDigest(info.keyType, o, |d|, evp.size(o.digest));
            var named := info.keyType in {"RSA", "RSA-PSS", "EC"};
            var recipe := Recipe(if named then o.digest else "", Plan(info.keyType, o));
            var refused, sig := fails || !evp.takes(info.keyType, recipe), evp.signHashed(p, recipe, d, nonce);
            && (check.Err? ==> r == Err(check.error))
            && (check.Ok? && refused ==> r == Err(Library))
            && (check.Ok? && !refused && o.format != 1 ==> r == Ok(sig))
            && (check.Ok? && !refused && o.format == 1 ==>
                  match F.ToP1363(sig, F.CoordinateLen(info.bits))
                  case Ok(raw) => r == Ok(raw)
                  case Err(e) => r == Err(Malformed(e)))
  {
    var o := Requested(info, opts);
    DigestChecks(info.keyType, o, |d|, evp.size(o.digest));
    if HasDigestForm(info.keyType, o) {
      DigestPathSetup(info.keyType, o);
    }
  }

  /** `VerifyDigest` likewise. */
  lemma VerifiesDigestsExactly(evp: Evp, p: Pkey, info: KeyInfo, opts: Option<Options>, d: Bytes, sig: Bytes,
      fails: bool)
    ensures var r, o := VerifyDigest(evp, p, info, opts, d, sig, fails), Requested(info, opts);
            var check := CheckDigest(info.keyType, o, |d|, evp.size(o.digest));
            var named := info.keyType in {"RSA", "RSA-PSS", "EC"};
            var recipe := Recipe(if named then o.digest else "", Plan(info.keyType, o));
            var refused := fails || !evp.takes(info.keyType, recipe);
            && (sig == [] ==> r == Err(SignError.Verification))
            && (sig != [] && check.Err? ==> r == Err(check.error))
            && (sig != [] && check.Ok? && refused ==> r == Err(Library))
            && (r == Ok(()) <==>
                  && sig != [] && check.Ok? && !refused
                  && (o.format != 1 ==> evp.verifyHashed(p, recipe, d, sig) == 1)
                  && (o.format == 1 ==>
                        var der := F.P1363ToDer(sig, F.CoordinateLen(info.bits));
                        der.Ok? && evp.verifyHashed(p, recipe, d, der.value) == 1))
            && (sig != [] && check.Ok? && !refused && r.Err? ==> r == Err(SignError.Verification))
  {
    var o := Requested(info, opts);
    DigestChecks(info.keyType, o, |d|, evp.size(o.digest));
    if HasDigestForm(info.keyType, o) {
      DigestPathSetup(info.keyType, o);
    }
  }

  // ---- no accepted option is dropped, but for one ----

  /** The digest name reaches OpenSSL exactly for the key types that are told it:
      the prehash variants of EdDSA ignore it. */
  lemma DigestNameIsDroppedIff(keyType: string, o: Options, name: string)
    requires HasDigestForm(keyType, o)
    ensures DigestPlan(keyType, o.(digest := name)) == DigestPlan(keyType, o) <==> name == o.digest || IsEddsa(keyType)
  {
    if TakesDigestParam(keyType) {
      assert DigestPlan(keyType, o)[0] == Params([Text("digest", o.digest)]);
      assert DigestPlan(keyType, o.(digest := name))[0] == Params([Text("digest", name)]);
    }
  }

  /** Two accepted plain option sets that make OpenSSL do the same with a digest
      are the same request, but for the digest name where it is ignored. */
  lemma NoSilentDropOnDigests(keyType: string, a: Options, b: Options)
    requires Check(keyType, a).Ok? && Check(keyType, b).Ok? && HasDigestForm(keyType, a) && HasDigestForm(keyType, b)
    requires Plain(a) && Plain(b) && a.saltLen < 0x8000_0000 && b.saltLen < 0x8000_0000
    requires DigestPlan(keyType, a) == DigestPlan(keyType, b) && (a.format == F.P1363 <==> b.format == F.P1363)
    ensures SameRequest(if IsEddsa(keyType) then a.(digest := b.digest) else a, b)
  {
    if TakesDigestParam(keyType) {
      assert DigestPlan(keyType, a)[0] == DigestPlan(keyType, b)[0];
      assert DigestPlan(keyType, a)[1..] == Plan(keyType, a) && DigestPlan(keyType, b)[1..] == Plan(keyType, b);
      NoSilentDrop(keyType, a, b);
    } else {
      assert DigestPlan(keyType, a) == Plan(keyType, a) && DigestPlan(keyType, b) == Plan(keyType, b);
      assert Plan(keyType, a.(digest := b.digest)) == Plan(keyType, a);
      NoSilentDrop(keyType, a.(digest := b.digest), b);
    }
  }

  // ---- a digest for its message ----

  function HashOf(r: Recipe): Option<Hash> {
    if LeadingParam(r.settings) == Some(Text("instance", "Ed25519ph")) then Some(Ed25519Prehash)
    else if LeadingParam(r.settings) == Some(Text("instance", "Ed448ph")) then Some(Ed448Prehash)
    else if r.digest != "" then Some(Named(r.digest))
    else None
  }

  /** A key type that hashes the message itself takes no named digest, and no key
      type takes one that cannot be fetched. */
  ghost predicate TakesKnownDigests(evp: Evp) {
    forall keyType, r :: evp.takes(keyType, r) && r.digest != "" ==> !OneShotOnly(keyType) && evp.size(r.digest).Some?
  }

  ghost predicate HashesHaveTheirSize(evp: Evp) {
    forall h: Hash, msg: Bytes ::
      match h
      case Named(name) => evp.size(name).Some? ==> |evp.hash(h, msg)| == evp.size(name).value
      case _ => |evp.hash(h, msg)| == EDDSA_PREHASH_LEN
  }

  /** Where a recipe hashes, signing and verifying a message work on its hash. */
  ghost predicate HashesFirst(evp: Evp) {
    forall keyType, p, r, msg, nonce, sig ::
      evp.takes(keyType, r) && HashOf(r).Some? ==> OnHash(evp, p, r, msg, nonce, sig)
  }

  predicate OnHash(evp: Evp, p: Pkey, r: Recipe, msg: Bytes, nonce: nat, sig: Bytes)
    requires HashOf(r).Some?
  {
    var d := evp.hash(HashOf(r).value, msg);
    && evp.sign(p, r, msg, nonce) == evp.signHashed(p, r, d, nonce)
    && evp.verify(p, r, msg, sig) == evp.verifyHashed(p, r, d, sig)
  }

  ghost predicate Lawful(evp: Evp) {
    TakesKnownDigests(evp) && HashesHaveTheirSize(evp) && HashesFirst(evp)
  }

  /** The digest path sets OpenSSL up as the message path does, but that it names
      no digest to EdDSA. */
  lemma DigestPathSetup(keyType: string, o: Options)
    requires HasDigestForm(keyType, o)
    ensures AsRecipe(DigestPlan(keyType, o))
              == Recipe(if TakesDigestParam(keyType) then o.digest else "", Plan(keyType, o))
    ensures keyType == "ED25519" ==> HashOf(Recipe("", Plan(keyType, o))) == Some(Ed25519Prehash)
    ensures keyType == "ED448" ==> HashOf(Recipe("", Plan(keyType, o))) == Some(Ed448Prehash)
    ensures TakesDigestParam(keyType) && o.digest != "" ==>
              HashOf(Recipe(o.digest, Plan(keyType, o))) == Some(Named(o.digest))
  {
    if TakesDigestParam(keyType) {
      assert DigestPlan(keyType, o)[1..] == Plan(keyType, o);
      assert "instance"[0] != "nonce-type"[0];
    } else {
      assert DigestPlan(keyType, o) == Plan(keyType, o);
      assert "instance"[0] != "digest"[0];
      assert "Ed25519ph"[2] != "Ed448ph"[2];
    }
  }

  lemma KeyTypesThatHash(keyType: string)
    ensures TakesDigestParam(keyType) ==> !OneShotOnly(keyType)
    ensures IsEddsa(keyType) ==> OneShotOnly(keyType)
  {
    var t := ToUpper(keyType);
    if TakesDigestParam(keyType) {
      assert if keyType == "EC" then |t| == 2 else t[0] == 'R';
      assert "ED25519"[0] == "ED448"[0] == 'E' && "ML-DSA"[0] == 'M' && "SLH-DSA"[0] == 'S';
    } else if IsEddsa(keyType) {
      assert t == keyType;
    }
  }

  /** What both paths give, for the digest that signing the message would compute. */
  predicate PathsAgree(evp: Evp, p: Pkey, info: KeyInfo, opts: Option<Options>, msg: Bytes, d: Bytes, nonce: nat,
                       sig: Bytes)
  {
    && SignDigest(evp, p, info, opts, d, nonce, false) == Sign(evp, p, info, opts, msg, nonce, false)
    && VerifyDigest(evp, p, info, opts, d, sig, false) == Verify(evp, p, info, opts, msg, sig, false)
  }

  function PathHash(info: KeyInfo, opts: Option<Options>): Option<Hash> {
    HashOf(AsRecipe(DigestPlan(info.keyType, Requested(info, opts))))
  }

  /** SignDigest and VerifyDigest agree with Sign and Verify, errors and formats
      included, exactly where the options are refused anyway or the key type has a
      digest form under them and, for EdDSA, either no digest was named or OpenSSL
      does not take the prehash variant at all. */
  lemma DigestStandsForMessageIff(evp: Evp, p: Pkey, info: KeyInfo, opts: Option<Options>, msg: Bytes, d: Bytes,
                                  nonce: nat, sig: Bytes)
    requires Lawful(evp)
    requires PathHash(info, opts).Some? ==> d == evp.hash(PathHash(info, opts).value, msg)
    ensures var o := Requested(info, opts);
            PathsAgree(evp, p, info, opts, msg, d, nonce, sig) <==>
              || Check(info.keyType, o).Err?
              || (HasDigestForm(info.keyType, o)
                  && (IsEddsa(info.keyType) && o.digest != "" ==>
                        !evp.takes(info.keyType, Recipe("", Plan(info.keyType, o)))))
  {
    var o := Requested(info, opts);
    DigestChecks(info.keyType, o, |d|, evp.size(o.digest));
    KeyTypesThatHash(info.keyType);
    if Check(info.keyType, o).Ok? && HasDigestForm(info.keyType, o) {
      DigestPathSetup(info.keyType, o);
      if TakesDigestParam(info.keyType) {
        SamePathForNamed(evp, p, info, opts, msg, d, nonce, sig);
      } else if o.digest == "" {
        SamePathForEddsa(evp, p, info, opts, msg, d, nonce, sig);
      }
    }
  }

  function Shown(info: KeyInfo, o: Options, sig: Bytes): Bytes {
    var der := F.VerifyInput(o.format, sig, info.bits);
    if der.Some? then der.value else []
  }

  lemma SamePathForNamed(evp: Evp, p: Pkey, info: KeyInfo, opts: Option<Options>, msg: Bytes, d: Bytes, nonce: nat,
                         sig: Bytes)
    requires Lawful(evp) && TakesDigestParam(info.keyType) && Check(info.keyType, Requested(info, opts)).Ok?
    requires PathHash(info, opts).Some? ==> d == evp.hash(PathHash(info, opts).value, msg)
    ensures PathsAgree(evp, p, info, opts, msg, d, nonce, sig)
  {
    var o, recipe := Requested(info, opts), RecipeFor(info, opts);
    KeyTypesThatHash(info.keyType);
    DigestPathSetup(info.keyType, o);
    assert evp.size(o.digest).Some? ==> |d| == evp.size(o.digest).value;
    if evp.takes(info.keyType, recipe) {
      assert OnHash(evp, p, recipe, msg, nonce, Shown(info, o, sig));
    }
  }

  lemma SamePathForEddsa(evp: Evp, p: Pkey, info: KeyInfo, opts: Option<Options>, msg: Bytes, d: Bytes, nonce: nat,
                         sig: Bytes)
    requires Lawful(evp) && IsEddsa(info.keyType) && Check(info.keyType, Requested(info, opts)).Ok?
    requires Requested(info, opts).prehash && Requested(info, opts).digest == ""
    requires PathHash(info, opts).Some? ==> d == evp.hash(PathHash(info, opts).value, msg)
    ensures PathsAgree(evp, p, info, opts, msg, d, nonce, sig)
  {
    var o, recipe := Requested(info, opts), RecipeFor(info, opts);
    DigestPathSetup(info.keyType, o);
    assert |d| == EDDSA_PREHASH_LEN;
    if evp.takes(info.keyType, recipe) {
      assert OnHash(evp, p, recipe, msg, nonce, Shown(info, o, sig));
    }
  }

  /** Signatures made on either path are accepted on both, exactly as for one path:
      the caller's digest and the message can be used for one another. */
  lemma SignaturesInterchange(evp: Evp, p: Pkey, info: KeyInfo, opts: Option<Options>, msg: Bytes, d: Bytes, nonce: nat)
    requires Lawful(evp)
    requires PathHash(info, opts).Some? ==> d == evp.hash(PathHash(info, opts).value, msg)
    requires var o := Requested(info, opts);
             && Check(info.keyType, o).Ok? && evp.takes(info.keyType, RecipeFor(info, opts))
             && HasDigestForm(info.keyType, o) && (IsEddsa(info.keyType) ==> o.digest == "")
    requires var sig := evp.sign(p, RecipeFor(info, opts), msg, nonce);
             GoodSignature(info, sig, evp.verify(p, RecipeFor(info, opts), msg, sig))
    ensures var byMessage := Sign(evp, p, info, opts, msg, nonce, false);
            var byDigest := SignDigest(evp, p, info, opts, d, nonce, false);
            && byMessage.Ok? && byDigest.Ok?
            && Verify(evp, p, info, opts, msg, byDigest.value, false) == Ok(())
            && VerifyDigest(evp, p, info, opts, d, byMessage.value, false) == Ok(())
  {
    VerifyAcceptsWhatSignReturns(evp, p, info, opts, msg, nonce);
    var sig := Sign(evp, p, info, opts, msg, nonce, false).value;
    DigestStandsForMessageIff(evp, p, info, opts, msg, d, nonce, sig);
  }

  /** A lawful library that takes whatever the laws permit. */
  const SAMPLE := Evp(
    (keyType, r: Recipe) => OneShotOnly(keyType) ==> r.digest == "",
    (_, _, _, _) => [], (_, _, _, _) => 1,
    _ => Some(0),
    (h: Hash, _) => if h.Named? then [] else Zeros(EDDSA_PREHASH_LEN),
    (_, _, _, _) => [], (_, _, _, _) => 1)

  /** Ed25519ph with a digest named: signing the message fails, signing its digest
      does not. */
  lemma NamedDigestSplitsEddsa(msg: Bytes)
    ensures var info, opts := KeyInfo("ED25519", 128, 256), Some(UNSET.(prehash := true, digest := "SHA2-256"));
            && Lawful(SAMPLE)
            && Sign(SAMPLE, 0, info, opts, msg, 0, false) == Err(Library)
            && SignDigest(SAMPLE, 0, info, opts, SAMPLE.hash(Ed25519Prehash, msg), 0, false).Ok?
  {
    KeyTypesThatHash("ED25519");
    var o := UNSET.(prehash := true, digest := "SHA2-256");
    DigestPathSetup("ED25519", o);
  }
}
