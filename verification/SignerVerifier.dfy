/** `Key`, and `Signer` and `Verifier` as one class: objects that step OpenSSL's
    state. Every method does to it, and to its own fields, what `Streams` says of
    the call. */
module SignerVerifier {
  import opened ByteStrings
  import opened SignOptions
  import opened OneShot
  import opened Streams
  import A = Accumulator

  /** OpenSSL; a C call is an assignment of its effect. */
  class Libcrypto {
    var s: Lib
    const evp: Evp

    constructor (evp: Evp)
      ensures s == EMPTY.lib && this.evp == evp
    {
      s, this.evp := Lib(map[], map[], 0, false), evp;
    }
  }

  class Key {
    const lib: Libcrypto
    const info: KeyInfo
    var pkey: Option<Pkey>

    function State(): KeyState
      reads this
    {
      KeyState(pkey, info)
    }

    /** An open handle's key has not been freed. */
    predicate Alive()
      reads this, lib
    {
      pkey.Some? ==> pkey.value in lib.s.refs && lib.s.refs[pkey.value] > 0
    }

    constructor (lib: Libcrypto, info: KeyInfo)
      modifies lib
      ensures lib.s == old(lib.s).(refs := old(lib.s).refs[old(lib.s).next := 1], next := old(lib.s).next + 1)
      ensures this.lib == lib && State() == KeyState(Some(old(lib.s).next), info) && Alive()
    {
      this.lib, this.info, pkey := lib, info, Some(lib.s.next);
      new;
      lib.s := lib.s.(refs := lib.s.refs[lib.s.next := 1], next := lib.s.next + 1);
    }

    method Close()
      modifies this, lib
      ensures (lib.s, State()) == CloseKey(old(lib.s), old(State()))
    {
      if pkey.Some? {
        lib.s := FreeKey(lib.s, pkey.value);
        pkey := None;
      }
    }
  }

  /** What a context held at first does not matter once it is set up or freed. */
  lemma OverwrittenOrFreed(lib: Lib, c: Ctx, p: Pkey, a: Recipe, b: Recipe)
    requires p in lib.refs && lib.refs[p] > 0
    ensures var la, lb := lib.(ctxs := lib.ctxs[c := MdCtx(p, a, [])]), lib.(ctxs := lib.ctxs[c := MdCtx(p, b, [])]);
            && la.(ctxs := la.ctxs[c := MdCtx(p, b, [])]) == lb
            && FreeCtx(la, c) == FreeCtx(lb, c)
            && (lib.refs[p] > 1 ==> FreeCtx(FreeKey(la, p), c) == FreeCtx(FreeKey(lb, p), c))
  {
    assert lib.ctxs[c := MdCtx(p, a, [])][c := MdCtx(p, b, [])] == lib.ctxs[c := MdCtx(p, b, [])];
    assert lib.ctxs[c := MdCtx(p, a, [])] - {c} == lib.ctxs[c := MdCtx(p, b, [])] - {c};
  }

  method StreamInit(k: Key?, opts: Option<Options>, r: Replies) returns (res: Result<(Ctx, Pkey), StreamError>)
    requires k != null ==> k.Alive()
    modifies if k != null then {k.lib} else {}
    ensures k == null ==> res == Err(Closed)
    ensures k != null ==> (k.lib.s, res) == OpenStream(k.lib.evp, old(k.lib.s), k.State(), opts, r)
  {
    if k == null || k.pkey.None? {
      return Err(Closed);
    }
    if OneShotOnly(k.info.keyType) {
      return Err(OneShotOnlyKey);
    }
    var o := Requested(k.info, opts);
    var check := SignOptions.Check(k.info.keyType, o);
    if check.Err? {
      return Err(BadStreamOptions(check.error));
    }
    res := CallOpenssl(k.lib, k.pkey.value, k.info.keyType, o, r);
  }

  /** The calls that `streamInit` makes once the options are accepted. */
  method CallOpenssl(lib: Libcrypto, p: Pkey, keyType: string, o: Options, r: Replies)
    returns (res: Result<(Ctx, Pkey), StreamError>)
    requires p in lib.s.refs && lib.s.refs[p] > 0
    modifies lib
    ensures var recipe := Recipe(o.digest, Plan(keyType, o));
            (lib.s, res) == Attach(old(lib.s), p, recipe, lib.evp.takes(keyType, recipe), r)
  {
    if r.newCtx {
      return Err(Refused);
    }
    var c := lib.s.next;
    ghost var was, recipe := lib.s.(next := c + 1), Recipe(o.digest, Plan(keyType, o));
    lib.s := lib.s.(ctxs := lib.s.ctxs[c := MdCtx(p, Recipe("", []), [])], next := c + 1);
    if r.upRef {
      OverwrittenOrFreed(was, c, p, Recipe("", []), recipe);
      lib.s := FreeCtx(lib.s, c);
      return Err(Refused);
    }
    lib.s := UpRef(lib.s, p);
    OverwrittenOrFreed(UpRef(was, p), c, p, Recipe("", []), recipe);
    var ok := Configure(lib, keyType, o, c, p, r);
    res := if ok then Ok((c, p)) else Err(Refused);
  }

  /** The part of `streamInit` that holds a reference of its own, and gives it back
      together with the context when a call is refused. */
  method Configure(lib: Libcrypto, keyType: string, o: Options, c: Ctx, p: Pkey, r: Replies) returns (ok: bool)
    modifies lib
    ensures var recipe := Recipe(o.digest, Plan(keyType, o));
            && ok == (lib.evp.takes(keyType, recipe) && !r.init && Applies(r, recipe.settings))
            && lib.s == if ok then old(lib.s).(ctxs := old(lib.s).ctxs[c := MdCtx(p, recipe, [])])
                        else FreeCtx(FreeKey(old(lib.s), p), c)
  {
    if !lib.evp.takes(keyType, Recipe(o.digest, Plan(keyType, o))) || r.init {
      lib.s := FreeKey(lib.s, p);
      lib.s := FreeCtx(lib.s, c);
      return false;
    }
    var pctx := new KeyContext(r.setting);
    ok := pctx.Apply(keyType, o);
    if !ok {
      lib.s := FreeKey(lib.s, p);
      lib.s := FreeCtx(lib.s, c);
      return;
    }
    assert pctx.settings == Plan(keyType, o);
    lib.s := lib.s.(ctxs := lib.s.ctxs[c := MdCtx(p, Recipe(o.digest, pctx.settings), [])]);
  }

  /** EVP_DigestSignUpdate and EVP_DigestVerifyUpdate. */
  method Update(lib: Libcrypto, c: Ctx, p: Bytes, reply: A.Reply) returns (r: Result<nat, StreamError>)
    modifies lib
    ensures !Usable(old(lib.s), c) ==> lib.s == old(lib.s).(fault := true) && r == Err(Refused)
    ensures Usable(old(lib.s), c) && reply.Accepted? ==>
              lib.s == Absorb(old(lib.s), c, old(lib.s).ctxs[c].absorbed + p) && r == Ok(|p|)
    ensures Usable(old(lib.s), c) && reply.Refused? ==> lib.s == Absorb(old(lib.s), c, reply.left) && r == Err(Refused)
  {
    if !Usable(lib.s, c) {
      lib.s := lib.s.(fault := true);
      return Err(Refused);
    }
    match reply {
      case Refused(left) =>
        lib.s := Absorb(lib.s, c, left);
        r := Err(Refused);
      case Accepted =>
        lib.s := Absorb(lib.s, c, lib.s.ctxs[c].absorbed + p);
        r := Ok(|p|);
    }
  }

  /** `Signer` and `Verifier`, which differ in their last call only: a value of the
      one type has no method `Verify`, and of the other no method `Sign`. */
  class Stream {
    const verifying: bool
    const lib: Libcrypto
    const name: string
    var mdctx: Option<Ctx>
    var pkey: Option<Pkey>
    var done: bool

    function State(): StreamState
      reads this
    {
      StreamState(mdctx, pkey, done)
    }

    constructor (verifying: bool, lib: Libcrypto, name: string, made: (Ctx, Pkey))
      ensures this.verifying == verifying && this.lib == lib && this.name == name
      ensures State() == StreamState(Some(made.0), Some(made.1), false)
    {
      this.verifying, this.lib, this.name := verifying, lib, name;
      mdctx, pkey, done := Some(made.0), Some(made.1), false;
    }

    method Write(p: Bytes, reply: A.Reply) returns (r: Result<nat, StreamError>)
      modifies lib
      ensures (lib.s, r) == WriteStream(old(lib.s), State(), p, reply)
    {
      if mdctx.None? {
        return Err(Closed);
      }
      if done {
        return Err(Finalised);
      }
      if |p| == 0 {
        return Ok(0);
      }
      r := Update(lib, mdctx.value, p, reply);
    }

    method Sign(nonce: nat, reply: A.Reply) returns (r: Result<Bytes, StreamError>)
      requires !verifying
      modifies lib, `done
      ensures (lib.s, State(), r) == SignStream(lib.evp, old(lib.s), old(State()), nonce, reply)
    {
      if mdctx.None? {
        return Err(Closed);
      }
      if done {
        return Err(Finalised);
      }
      var c := mdctx.value;
      if !Usable(lib.s, c) {
        lib.s := lib.s.(fault := true);
        return Err(Refused);
      }
      match reply {
        case Refused(left) =>
          lib.s := Absorb(lib.s, c, left);
          return Err(Refused);
        case Accepted =>
      }
      var ctx := lib.s.ctxs[c];
      var sig := lib.evp.sign(ctx.pkey, ctx.recipe, ctx.absorbed, nonce);
      done := true;
      r := Ok(sig);
    }

    method Verify(sig: Bytes) returns (r: Result<(), StreamError>)
      requires verifying
      modifies lib, `done
      ensures (lib.s, State(), r) == VerifyStream(lib.evp, old(lib.s), old(State()), sig)
    {
      if mdctx.None? {
        return Err(Closed);
      }
      if done {
        return Err(Finalised);
      }
      if |sig| == 0 {
        done := true;
        return Err(BadSignature);
      }
      var c := mdctx.value;
      if !Usable(lib.s, c) {
        lib.s := lib.s.(fault := true);
        return Err(Refused);
      }
      var ctx := lib.s.ctxs[c];
      var rc := lib.evp.verify(ctx.pkey, ctx.recipe, ctx.absorbed, sig);
      done := true;
      r := if rc == 1 then Ok(()) else Err(BadSignature);
    }

    method Close()
      modifies lib, this
      ensures (lib.s, State()) == CloseStream(old(lib.s), old(State()))
    {
      if mdctx.Some? {
        lib.s := FreeCtx(lib.s, mdctx.value);
        mdctx := None;
      }
      if pkey.Some? {
        lib.s := FreeKey(lib.s, pkey.value);
        pkey := None;
      }
    }
  }

  /** `NewSigner` and `NewVerifier`. */
  method NewStream(k: Key?, verifying: bool, opts: Option<Options>, r: Replies)
    returns (s: Stream?, err: Option<StreamError>)
    requires k != null ==> k.Alive()
    modifies if k != null then {k.lib} else {}
    ensures k == null ==> s == null && err == Some(Closed)
    ensures k != null ==>
              var (lib', made) := OpenStream(k.lib.evp, old(k.lib.s), k.State(), opts, r);
              && k.lib.s == lib'
              && (made.Err? ==> s == null && err == Some(made.error))
              && (made.Ok? ==>
                    && s != null && fresh(s) && err == None && s.lib == k.lib && s.verifying == verifying
                    && s.State() == StreamState(Some(made.value.0), Some(made.value.1), false))
  {
    var made := StreamInit(k, opts, r);
    if made.Err? {
      return null, Some(made.error);
    }
    err := None;
    s := new Stream(verifying, k.lib, k.info.keyType, made.value);
  }
}
