/** Streaming `Signer` and `Verifier`: counted references on the key, the one
    message a stream absorbs, and the one result it produces. */
module Streams {
  import opened ByteStrings
  import opened SignOptions
  import opened Runs
  import opened OneShot
  import O = OneShot
  import A = Accumulator
  import EcdsaFormat

  type Ctx = nat

  datatype StreamError =
    | Closed | OneShotOnlyKey | BadStreamOptions(cause: CheckError) | Refused | Finalised | BadSignature

  // ---- OpenSSL's side ----

  /** An EVP_MD_CTX: its key, its recipe and what it has absorbed. */
  datatype MdCtx = MdCtx(pkey: Pkey, recipe: Recipe, absorbed: Bytes)

  /** The references this layer holds on each live key, the live contexts, and
      whether something freed was ever touched. Identifiers are not reused. */
  datatype Lib = Lib(refs: map<Pkey, nat>, ctxs: map<Ctx, MdCtx>, next: nat, fault: bool)

  function UpRef(lib: Lib, k: Pkey): Lib {
    if k !in lib.refs then lib.(fault := true) else lib.(refs := lib.refs[k := lib.refs[k] + 1])
  }

  /** EVP_PKEY_free: the key is gone with its last reference. */
  function FreeKey(lib: Lib, k: Pkey): Lib {
    if k !in lib.refs then lib.(fault := true)
    else if lib.refs[k] <= 1 then lib.(refs := lib.refs - {k})
    else lib.(refs := lib.refs[k := lib.refs[k] - 1])
  }

  /** Any call on a context may use its key, EVP_MD_CTX_free included. */
  predicate Usable(lib: Lib, c: Ctx) {
    c in lib.ctxs && lib.ctxs[c].pkey in lib.refs
  }

  function FreeCtx(lib: Lib, c: Ctx): Lib {
    if !Usable(lib, c) then lib.(fault := true) else lib.(ctxs := lib.ctxs - {c})
  }

  function Absorb(lib: Lib, c: Ctx, data: Bytes): Lib {
    if !Usable(lib, c) then lib.(fault := true) else lib.(ctxs := lib.ctxs[c := lib.ctxs[c].(absorbed := data)])
  }

  // ---- the wrapper's objects ----

  datatype KeyState = KeyState(pkey: Option<Pkey>, info: KeyInfo)

  datatype StreamState = StreamState(mdctx: Option<Ctx>, pkey: Option<Pkey>, done: bool)

  /** Which of the calls that construct a stream are refused. */
  datatype Replies = Replies(newCtx: bool, upRef: bool, init: bool, setting: Setting -> bool)

  predicate Applies(r: Replies, plan: seq<Setting>) {
    FirstRefused(r.setting, plan) == |plan|
  }

  /** The exits of `streamInit` before it calls OpenSSL. */
  function Rejection(k: KeyState, opts: Option<Options>): Option<StreamError> {
    if k.pkey.None? then Some(Closed)
    else if OneShotOnly(k.info.keyType) then Some(OneShotOnlyKey)
    else
      var check := SignOptions.Check(k.info.keyType, Requested(k.info, opts));
      if check.Err? then Some(BadStreamOptions(check.error)) else None
  }

  /** A failing exit after the reference was taken gives it back. `taken` says
      whether OpenSSL takes the recipe at all. */
  function Attach(lib: Lib, p: Pkey, recipe: Recipe, taken: bool, r: Replies): (Lib, Result<(Ctx, Pkey), StreamError>) {
    if r.newCtx then (lib, Err(Refused))
    else
      var c := lib.next;
      var lib1 := lib.(ctxs := lib.ctxs[c := MdCtx(p, recipe, [])], next := c + 1);
      if r.upRef then (FreeCtx(lib1, c), Err(Refused))
      else
        var lib2 := UpRef(lib1, p);
        if !taken || r.init || !Applies(r, recipe.settings) then (FreeCtx(FreeKey(lib2, p), c), Err(Refused))
        else (lib2, Ok((c, p)))
  }

  /** `streamInit`. */
  function OpenStream(evp: Evp, lib: Lib, k: KeyState, opts: Option<Options>, r: Replies)
    : (Lib, Result<(Ctx, Pkey), StreamError>)
  {
    match Rejection(k, opts)
    case Some(e) => (lib, Err(e))
    case None =>
      var recipe := RecipeFor(k.info, opts);
      Attach(lib, k.pkey.value, recipe, evp.takes(k.info.keyType, recipe), r)
  }

  function WriteStream(lib: Lib, s: StreamState, p: Bytes, reply: A.Reply): (Lib, Result<nat, StreamError>) {
    if s.mdctx.None? then (lib, Err(Closed))
    else if s.done then (lib, Err(Finalised))
    else if p == [] then (lib, Ok(0))
    else
      var c := s.mdctx.value;
      if !Usable(lib, c) then (lib.(fault := true), Err(Refused))
      else match reply
        case Accepted => (Absorb(lib, c, lib.ctxs[c].absorbed + p), Ok(|p|))
        case Refused(left) => (Absorb(lib, c, left), Err(Refused))
  }

  /** A finalisation that is refused leaves the stream open for more calls. */
  function SignStream(evp: Evp, lib: Lib, s: StreamState, nonce: nat, reply: A.Reply)
    : (Lib, StreamState, Result<Bytes, StreamError>)
  {
    if s.mdctx.None? then (lib, s, Err(Closed))
    else if s.done then (lib, s, Err(Finalised))
    else
      var c := s.mdctx.value;
      if !Usable(lib, c) then (lib.(fault := true), s, Err(Refused))
      else match reply
        case Accepted =>
          var ctx := lib.ctxs[c];
          (lib, s.(done := true), Ok(evp.sign(ctx.pkey, ctx.recipe, ctx.absorbed, nonce)))
        case Refused(left) => (Absorb(lib, c, left), s, Err(Refused))
  }

  /** An empty signature is rejected without asking OpenSSL; every verdict finalises. */
  function VerifyStream(evp: Evp, lib: Lib, s: StreamState, sig: Bytes): (Lib, StreamState, Result<(), StreamError>) {
    if s.mdctx.None? then (lib, s, Err(Closed))
    else if s.done then (lib, s, Err(Finalised))
    else if sig == [] then (lib, s.(done := true), Err(BadSignature))
    else
      var c := s.mdctx.value;
      if !Usable(lib, c) then (lib.(fault := true), s, Err(Refused))
      else
        var ctx := lib.ctxs[c];
        var rc := evp.verify(ctx.pkey, ctx.recipe, ctx.absorbed, sig);
        (lib, s.(done := true), if rc == 1 then Ok(()) else Err(BadSignature))
  }

  function CloseStream(lib: Lib, s: StreamState): (Lib, StreamState) {
    var lib1 := if s.mdctx.Some? then FreeCtx(lib, s.mdctx.value) else lib;
    var lib2 := if s.pkey.Some? then FreeKey(lib1, s.pkey.value) else lib1;
    (lib2, s.(mdctx := None, pkey := None))
  }

  function CloseKey(lib: Lib, k: KeyState): (Lib, KeyState) {
    (if k.pkey.Some? then FreeKey(lib, k.pkey.value) else lib, k.(pkey := None))
  }

  /** Every outcome of opening a stream: which key, which options and which refused
      call it takes, and what a stream that opens has taken. */
  lemma OpensExactly(evp: Evp, lib: Lib, k: KeyState, opts: Option<Options>, r: Replies)
    requires k.pkey.Some? ==> k.pkey.value in lib.refs && lib.refs[k.pkey.value] > 0
    ensures var (lib', res) := OpenStream(evp, lib, k, opts, r);
            var streams := k.pkey.Some? && !OneShotOnly(k.info.keyType);
            var check := SignOptions.Check(k.info.keyType, Requested(k.info, opts));
            && (res == Err(Closed) <==> k.pkey.None?)
            && (res == Err(OneShotOnlyKey) <==> k.pkey.Some? && OneShotOnly(k.info.keyType))
            && (forall e :: res == Err(BadStreamOptions(e)) <==> streams && check == Err(e))
            && (res == Err(Refused) <==> streams && check.Ok? && SomeCallRefused(evp, k.info, opts, r))
            && (res.Ok? <==> streams && check.Ok? && !SomeCallRefused(evp, k.info, opts, r))
            && (res.Ok? ==>
                  && res.value == (lib.next, k.pkey.value)
                  && lib'.refs == lib.refs[k.pkey.value := lib.refs[k.pkey.value] + 1]
                  && lib'.ctxs == lib.ctxs[lib.next := MdCtx(k.pkey.value, RecipeFor(k.info, opts), [])])
  {
    var plan := RecipeFor(k.info, opts).settings;
    if setting :| setting in plan && r.setting(setting) {
      assert FirstRefused(r.setting, plan) < |plan|;
    }
  }

  predicate SomeCallRefused(evp: Evp, info: KeyInfo, opts: Option<Options>, r: Replies) {
    var recipe := RecipeFor(info, opts);
    || r.newCtx || r.upRef || !evp.takes(info.keyType, recipe) || r.init
    || exists s :: s in recipe.settings && r.setting(s)
  }

  // ---- any sequential run over any number of keys and streams ----

  type Id = nat

  datatype Output = Signature(sig: Bytes, nonce: nat) | Verdict(sig: Bytes, accepted: bool)

  /** What a stream's caller knows: what it was opened with, its successful writes,
      whether a call was refused, and the results it got. */
  datatype History = History(
    verifying: bool, key: Pkey, info: KeyInfo, opts: Option<Options>,
    written: seq<Bytes>, refused: bool, outputs: seq<Output>)

  datatype World = World(lib: Lib, keys: map<Id, KeyState>, streams: map<Id, StreamState>, hist: map<Id, History>)

  datatype Op =
    | Generate(k: Id, info: KeyInfo)
    | NewStream(s: Id, k: Id, verifying: bool, opts: Option<Options>, replies: Replies)
    | Write(s: Id, p: Bytes, reply: A.Reply)
    | Sign(s: Id, nonce: nat, reply: A.Reply)
    | Verify(s: Id, sig: Bytes)
    | Close(s: Id)
    | KeyClose(k: Id)

  const EMPTY := World(Lib(map[], map[], 0, false), map[], map[], map[])

  predicate Enabled(w: World, op: Op) {
    match op
    case Generate(k, _) => k !in w.keys
    case NewStream(s, k, _, _, _) => s !in w.streams && k in w.keys
    case Write(s, _, _) => s in w.streams && s in w.hist
    case Sign(s, _, _) => s in w.streams && s in w.hist && !w.hist[s].verifying
    case Verify(s, _) => s in w.streams && s in w.hist && w.hist[s].verifying
    case Close(s) => s in w.streams
    case KeyClose(k) => k in w.keys
  }

  function Wrote(h: History, p: Bytes, r: Result<nat, StreamError>): History {
    if r.Ok? then h.(written := h.written + [p]) else if r == Err(Refused) then h.(refused := true) else h
  }

  function Signed(h: History, nonce: nat, r: Result<Bytes, StreamError>): History {
    if r.Ok? then h.(outputs := h.outputs + [Signature(r.value, nonce)])
    else if r == Err(Refused) then h.(refused := true)
    else h
  }

  function Judged(h: History, sig: Bytes, r: Result<(), StreamError>): History {
    if r.Ok? || r == Err(BadSignature) then h.(outputs := h.outputs + [Verdict(sig, r.Ok?)]) else h
  }

  function Do(evp: Evp, w: World, op: Op): World {
    if !Enabled(w, op) then w
    else match op
    case Generate(k, info) =>
      w.(lib := w.lib.(refs := w.lib.refs[w.lib.next := 1], next := w.lib.next + 1),
         keys := w.keys[k := KeyState(Some(w.lib.next), info)])
    case NewStream(s, k, verifying, opts, replies) =>
      var key := w.keys[k];
      var (lib, r) := OpenStream(evp, w.lib, key, opts, replies);
      if r.Err? then w.(lib := lib)
      else
        w.(lib := lib,
           streams := w.streams[s := StreamState(Some(r.value.0), Some(r.value.1), false)],
           hist := w.hist[s := History(verifying, key.pkey.value, key.info, opts, [], false, [])])
    case Write(s, p, reply) =>
      var (lib, r) := WriteStream(w.lib, w.streams[s], p, reply);
      w.(lib := lib, hist := w.hist[s := Wrote(w.hist[s], p, r)])
    case Sign(s, nonce, reply) =>
      var (lib, stream, r) := SignStream(evp, w.lib, w.streams[s], nonce, reply);
      w.(lib := lib, streams := w.streams[s := stream], hist := w.hist[s := Signed(w.hist[s], nonce, r)])
    case Verify(s, sig) =>
      var (lib, stream, r) := VerifyStream(evp, w.lib, w.streams[s], sig);
      w.(lib := lib, streams := w.streams[s := stream], hist := w.hist[s := Judged(w.hist[s], sig, r)])
    case Close(s) =>
      var (lib, stream) := CloseStream(w.lib, w.streams[s]);
      w.(lib := lib, streams := w.streams[s := stream])
    case KeyClose(k) =>
      var (lib, key) := CloseKey(w.lib, w.keys[k]);
      w.(lib := lib, keys := w.keys[k := key])
  }

  // ---- references and contexts ----

  function KeysOn(keys: map<Id, KeyState>, p: Pkey): set<Id> {
    set k | k in keys && keys[k].pkey == Some(p)
  }

  function StreamsOn(streams: map<Id, StreamState>, p: Pkey): set<Id> {
    set s | s in streams && streams[s].pkey == Some(p)
  }

  function StreamsIn(streams: map<Id, StreamState>, c: Ctx): set<Id> {
    set s | s in streams && streams[s].mdctx == Some(c)
  }

  /** How many open handles and open streams there are on a key. */
  function Holders(w: World, p: Pkey): nat {
    |KeysOn(w.keys, p)| + |StreamsOn(w.streams, p)|
  }

  function One(b: bool): nat {
    if b then 1 else 0
  }

  lemma KeySet(keys: map<Id, KeyState>, k: Id, key: KeyState, p: Pkey)
    ensures |KeysOn(keys[k := key], p)|
              == |KeysOn(keys, p)| - One(k in keys && keys[k].pkey == Some(p)) + One(key.pkey == Some(p))
  {
    var before, after := KeysOn(keys, p), KeysOn(keys[k := key], p);
    assert after == if key.pkey == Some(p) then before - {k} + {k} else before - {k};
  }

  lemma StreamSet(streams: map<Id, StreamState>, s: Id, st: StreamState, p: Pkey)
    ensures |StreamsOn(streams[s := st], p)|
              == |StreamsOn(streams, p)| - One(s in streams && streams[s].pkey == Some(p)) + One(st.pkey == Some(p))
  {
    var before, after := StreamsOn(streams, p), StreamsOn(streams[s := st], p);
    assert after == if st.pkey == Some(p) then before - {s} + {s} else before - {s};
  }

  lemma StreamSetIn(streams: map<Id, StreamState>, s: Id, st: StreamState, c: Ctx)
    ensures |StreamsIn(streams[s := st], c)|
              == |StreamsIn(streams, c)| - One(s in streams && streams[s].mdctx == Some(c)) + One(st.mdctx == Some(c))
  {
    var before, after := StreamsIn(streams, c), StreamsIn(streams[s := st], c);
    assert after == if st.mdctx == Some(c) then before - {s} + {s} else before - {s};
  }

  predicate RefFacts(w: World, p: Pkey) {
    && (p in w.lib.refs <==> Holders(w, p) > 0)
    && (p in w.lib.refs ==> w.lib.refs[p] == Holders(w, p) && p < w.lib.next)
  }

  predicate CtxFacts(w: World, c: Ctx) {
    |StreamsIn(w.streams, c)| == One(c in w.lib.ctxs) && (c in w.lib.ctxs ==> c < w.lib.next)
  }

  predicate StreamFacts(w: World, s: Id) {
    s in w.streams ==>
      var st := w.streams[s];
      && (st.mdctx.Some? <==> st.pkey.Some?)
      && (st.mdctx.Some? && st.mdctx.value in w.lib.ctxs ==> w.lib.ctxs[st.mdctx.value].pkey == st.pkey.value)
  }

  /** The facts about one key, one context and one stream. */
  predicate Facts(w: World, p: Pkey, c: Ctx, t: Id) {
    RefFacts(w, p) && CtxFacts(w, c) && StreamFacts(w, t)
  }

  /** References equal holders, every context belongs to exactly one open stream,
      and nothing freed was touched. */
  ghost predicate Owned(w: World) {
    !w.lib.fault && forall p: Pkey, c: Ctx, t: Id :: Facts(w, p, c, t)
  }

  lemma OpenKeyIsAlive(w: World, k: Id)
    requires k in w.keys && w.keys[k].pkey.Some? && RefFacts(w, w.keys[k].pkey.value)
    ensures w.keys[k].pkey.value in w.lib.refs
  {
    assert k in KeysOn(w.keys, w.keys[k].pkey.value);
  }

  /** While a stream is open its context and its key are alive. */
  lemma OpenStreamIsUsable(w: World, s: Id)
    requires s in w.streams && w.streams[s].mdctx.Some? && StreamFacts(w, s)
    requires CtxFacts(w, w.streams[s].mdctx.value) && RefFacts(w, w.streams[s].pkey.value)
    ensures Usable(w.lib, w.streams[s].mdctx.value) && w.streams[s].pkey.value in w.lib.refs
  {
    assert s in StreamsIn(w.streams, w.streams[s].mdctx.value);
    assert s in StreamsOn(w.streams, w.streams[s].pkey.value);
  }

  /** What the object of an operation relies on. */
  predicate Local(w: World, op: Op) {
    match op
    case Generate(_, _) => RefFacts(w, w.lib.next) && CtxFacts(w, w.lib.next)
    case NewStream(_, k, _, _, _) =>
      && RefFacts(w, w.lib.next) && CtxFacts(w, w.lib.next)
      && (k in w.keys && w.keys[k].pkey.Some? ==> RefFacts(w, w.keys[k].pkey.value))
    case KeyClose(k) => k in w.keys && w.keys[k].pkey.Some? ==> RefFacts(w, w.keys[k].pkey.value)
    case _ =>
      && StreamFacts(w, op.s)
      && (op.s in w.streams && w.streams[op.s].mdctx.Some? ==>
            CtxFacts(w, w.streams[op.s].mdctx.value) && RefFacts(w, w.streams[op.s].pkey.value))
  }

  lemma OwnedIsLocal(w: World, op: Op)
    requires Owned(w)
    ensures Local(w, op)
  {
    assert Facts(w, w.lib.next, w.lib.next, 0);
    match op {
      case Generate(_, _) =>
      case NewStream(_, k, _, _, _) =>
        assert k in w.keys && w.keys[k].pkey.Some? ==> Facts(w, w.keys[k].pkey.value, 0, 0);
      case KeyClose(k) =>
        assert k in w.keys && w.keys[k].pkey.Some? ==> Facts(w, w.keys[k].pkey.value, 0, 0);
      case _ =>
        assert Facts(w, 0, 0, op.s);
        assert op.s in w.streams && w.streams[op.s].mdctx.Some? ==>
               Facts(w, w.streams[op.s].pkey.value, w.streams[op.s].mdctx.value, op.s);
    }
  }

  /** A failing `streamInit` leaves references and contexts as they were. */
  lemma FailedOpenChangesNothing(evp: Evp, lib: Lib, k: KeyState, opts: Option<Options>, r: Replies)
    requires k.pkey.Some? ==> k.pkey.value in lib.refs && lib.refs[k.pkey.value] > 0
    requires lib.next !in lib.ctxs && OpenStream(evp, lib, k, opts, r).1.Err?
    ensures var lib' := OpenStream(evp, lib, k, opts, r).0;
            lib' == lib.(next := lib'.next) && lib.next <= lib'.next
  {
    var lib' := OpenStream(evp, lib, k, opts, r).0;
    assert lib'.ctxs == lib.ctxs && lib'.refs == lib.refs;
  }

  lemma GenerateStep(evp: Evp, w: World, op: Op, p: Pkey, c: Ctx, t: Id)
    requires op.Generate? && Enabled(w, op) && Local(w, op) && Facts(w, p, c, t)
    ensures var w' := Do(evp, w, op); w'.lib.fault == w.lib.fault && Facts(w', p, c, t)
  {
    KeySet(w.keys, op.k, KeyState(Some(w.lib.next), op.info), p);
  }

  lemma KeyCloseStep(evp: Evp, w: World, op: Op, p: Pkey, c: Ctx, t: Id)
    requires op.KeyClose? && Enabled(w, op) && Local(w, op) && Facts(w, p, c, t)
    ensures var w' := Do(evp, w, op); w'.lib.fault == w.lib.fault && Facts(w', p, c, t)
  {
    var key := w.keys[op.k];
    KeySet(w.keys, op.k, key.(pkey := None), p);
    if key.pkey.Some? {
      OpenKeyIsAlive(w, op.k);
    }
  }

  lemma CloseStep(evp: Evp, w: World, op: Op, p: Pkey, c: Ctx, t: Id)
    requires op.Close? && Enabled(w, op) && Local(w, op) && Facts(w, p, c, t)
    ensures var w' := Do(evp, w, op); w'.lib.fault == w.lib.fault && Facts(w', p, c, t)
  {
    var st := w.streams[op.s];
    StreamSet(w.streams, op.s, st.(mdctx := None, pkey := None), p);
    StreamSetIn(w.streams, op.s, st.(mdctx := None, pkey := None), c);
    if st.mdctx.Some? {
      OpenStreamIsUsable(w, op.s);
    }
  }

  lemma NewStreamStep(evp: Evp, w: World, op: Op, p: Pkey, c: Ctx, t: Id)
    requires op.NewStream? && Enabled(w, op) && Local(w, op) && Facts(w, p, c, t)
    ensures var w' := Do(evp, w, op); w'.lib.fault == w.lib.fault && Facts(w', p, c, t)
  {
    var key := w.keys[op.k];
    if key.pkey.Some? {
      OpenKeyIsAlive(w, op.k);
    }
    if OpenStream(evp, w.lib, key, op.opts, op.replies).1.Err? {
      FailedOpenChangesNothing(evp, w.lib, key, op.opts, op.replies);
    } else {
      StreamSet(w.streams, op.s, StreamState(Some(w.lib.next), key.pkey, false), p);
      StreamSetIn(w.streams, op.s, StreamState(Some(w.lib.next), key.pkey, false), c);
      assert t in w.streams && w.streams[t].mdctx == Some(w.lib.next) ==> t in StreamsIn(w.streams, w.lib.next);
    }
  }

  /** The library is as before but for what one context has absorbed. */
  predicate OnlyAbsorbed(lib: Lib, lib': Lib, c: Option<Ctx>) {
    && lib' == lib.(ctxs := lib'.ctxs) && lib'.ctxs.Keys == lib.ctxs.Keys
    && forall d :: d in lib.ctxs ==>
         lib'.ctxs[d] == if c == Some(d) then lib.ctxs[d].(absorbed := lib'.ctxs[d].absorbed) else lib.ctxs[d]
  }

  predicate SameHolds(streams: map<Id, StreamState>, streams': map<Id, StreamState>) {
    && streams'.Keys == streams.Keys
    && forall s :: s in streams ==> streams'[s] == streams[s].(done := streams'[s].done)
  }

  /** Writing, signing and verifying move no reference and no context. */
  lemma UseStep(evp: Evp, w: World, op: Op)
    requires (op.Write? || op.Sign? || op.Verify?) && Enabled(w, op) && Local(w, op)
    ensures var w' := Do(evp, w, op);
            w'.keys == w.keys && OnlyAbsorbed(w.lib, w'.lib, w.streams[op.s].mdctx) && SameHolds(w.streams, w'.streams)
  {
    if w.streams[op.s].mdctx.Some? {
      OpenStreamIsUsable(w, op.s);
    }
  }

  lemma NothingMoved(w: World, w': World, used: Option<Ctx>, p: Pkey, c: Ctx, t: Id)
    requires w'.keys == w.keys && OnlyAbsorbed(w.lib, w'.lib, used) && SameHolds(w.streams, w'.streams)
    requires Facts(w, p, c, t)
    ensures w'.lib.fault == w.lib.fault && Facts(w', p, c, t)
  {
    assert StreamsOn(w'.streams, p) == StreamsOn(w.streams, p);
    assert StreamsIn(w'.streams, c) == StreamsIn(w.streams, c);
  }

  lemma StepFacts(evp: Evp, w: World, op: Op, p: Pkey, c: Ctx, t: Id)
    requires Enabled(w, op) && Local(w, op) && Facts(w, p, c, t)
    ensures var w' := Do(evp, w, op); w'.lib.fault == w.lib.fault && Facts(w', p, c, t)
  {
    match op
    case Generate(_, _) => GenerateStep(evp, w, op, p, c, t);
    case NewStream(_, _, _, _, _) => NewStreamStep(evp, w, op, p, c, t);
    case Close(_) => CloseStep(evp, w, op, p, c, t);
    case KeyClose(_) => KeyCloseStep(evp, w, op, p, c, t);
    case _ =>
      UseStep(evp, w, op);
      NothingMoved(w, Do(evp, w, op), w.streams[op.s].mdctx, p, c, t);
  }

  lemma StepKeepsOwned(evp: Evp, w: World, op: Op)
    requires Owned(w) && Enabled(w, op)
    ensures Owned(Do(evp, w, op))
  {
    OwnedIsLocal(w, op);
    forall p: Pkey, c: Ctx, t: Id ensures Facts(Do(evp, w, op), p, c, t) {
      assert Facts(w, p, c, t);
      StepFacts(evp, w, op, p, c, t);
    }
    assert Facts(w, 0, 0, 0);
    StepFacts(evp, w, op, 0, 0, 0);
  }

  // ---- what a stream signs and judges ----

  predicate RightOutput(evp: Evp, h: History, o: Output) {
    match o
    case Signature(sig, nonce) => sig == evp.sign(h.key, RecipeFor(h.info, h.opts), Concat(h.written), nonce)
    case Verdict(sig, accepted) =>
      accepted <==> sig != [] && evp.verify(h.key, RecipeFor(h.info, h.opts), Concat(h.written), sig) == 1
  }

  /** Key and recipe stay those of construction; while no call is refused the
      context holds the concatenation of the successful writes; there is at most
      one result, of the stream's own kind, and it is the one for that message. */
  predicate HistoryFacts(evp: Evp, w: World, s: Id) {
    && (s in w.streams <==> s in w.hist)
    && (s in w.streams ==>
          var st, h := w.streams[s], w.hist[s];
          && Acceptable(evp, h)
          && (st.mdctx.Some? && st.mdctx.value in w.lib.ctxs ==>
                Holds(w.lib.ctxs[st.mdctx.value], h, RecipeFor(h.info, h.opts)))
          && |h.outputs| == One(st.done)
          && (st.done ==> h.outputs[0].Verdict? == h.verifying && (!h.refused ==> RightOutput(evp, h, h.outputs[0]))))
  }

  predicate Acceptable(evp: Evp, h: History) {
    && !OneShotOnly(h.info.keyType)
    && SignOptions.Check(h.info.keyType, Requested(h.info, h.opts)).Ok?
    && evp.takes(h.info.keyType, RecipeFor(h.info, h.opts))
  }

  predicate Holds(ctx: MdCtx, h: History, recipe: Recipe) {
    ctx.pkey == h.key && ctx.recipe == recipe && (!h.refused ==> ctx.absorbed == Concat(h.written))
  }

  ghost predicate Inv(evp: Evp, w: World) {
    Owned(w) && forall s: Id :: HistoryFacts(evp, w, s)
  }

  lemma ConcatOne(chunks: seq<Bytes>, p: Bytes)
    ensures Concat(chunks + [p]) == Concat(chunks) + p
  {
    assert (chunks + [p])[..|chunks|] == chunks;
  }

  /** No two streams share a context. */
  lemma OwnContext(w: World, s: Id, t: Id)
    requires s in w.streams && t in w.streams && w.streams[s].mdctx.Some? && w.streams[s].mdctx == w.streams[t].mdctx
    requires CtxFacts(w, w.streams[s].mdctx.value)
    ensures s == t
  {
    var all := StreamsIn(w.streams, w.streams[s].mdctx.value);
    assert s in all && t in all;
    assert |all - {s}| == |all| - 1 && (s != t ==> t in all - {s});
  }

  /** Using or opening another stream, closing any, and any operation on a key
      leave a history true. */
  lemma OthersUsed(evp: Evp, w: World, op: Op, s: Id)
    requires Local(w, op) && StreamFacts(w, s) && Enabled(w, op) && HistoryFacts(evp, w, s)
    requires (op.Write? || op.Sign? || op.Verify?) && op.s != s
    ensures HistoryFacts(evp, Do(evp, w, op), s)
  {
    UseStep(evp, w, op);
    if s in w.streams && w.streams[s].mdctx.Some? && w.streams[s].mdctx == w.streams[op.s].mdctx {
      OwnContext(w, s, op.s);
    }
  }

  lemma OthersOpened(evp: Evp, w: World, op: Op, s: Id)
    requires Local(w, op) && Enabled(w, op) && HistoryFacts(evp, w, s)
    requires op.NewStream? && op.s != s
    ensures HistoryFacts(evp, Do(evp, w, op), s)
  {
    assert s in w.streams && w.streams[s].mdctx == Some(w.lib.next) ==> s in StreamsIn(w.streams, w.lib.next);
    NewStreamKeepsContexts(evp, w.lib, w.keys[op.k], op.opts, op.replies);
  }

  lemma ClosedStep(evp: Evp, w: World, op: Op, s: Id)
    requires Enabled(w, op) && HistoryFacts(evp, w, s) && (op.Close? || op.KeyClose? || op.Generate?)
    ensures HistoryFacts(evp, Do(evp, w, op), s)
  {
  }

  lemma NewStreamKeepsContexts(evp: Evp, lib: Lib, k: KeyState, opts: Option<Options>, r: Replies)
    requires lib.next !in lib.ctxs
    ensures var lib' := OpenStream(evp, lib, k, opts, r).0;
            forall c :: c in lib'.ctxs && c != lib.next ==> c in lib.ctxs && lib'.ctxs[c] == lib.ctxs[c]
  {
  }

  lemma OpenedStep(evp: Evp, w: World, op: Op)
    requires op.NewStream? && Local(w, op) && Enabled(w, op) && HistoryFacts(evp, w, op.s)
    ensures HistoryFacts(evp, Do(evp, w, op), op.s)
  {
    if w.keys[op.k].pkey.Some? {
      OpenKeyIsAlive(w, op.k);
    }
  }

  lemma WrittenStep(evp: Evp, w: World, op: Op)
    requires op.Write? && Local(w, op) && Enabled(w, op) && HistoryFacts(evp, w, op.s)
    ensures HistoryFacts(evp, Do(evp, w, op), op.s)
  {
    var st, h := w.streams[op.s], w.hist[op.s];
    if st.mdctx.Some? {
      OpenStreamIsUsable(w, op.s);
      WriteKeepsHolds(w.lib, st, h, RecipeFor(h.info, h.opts), op.p, op.reply);
    }
  }

  lemma WriteKeepsHolds(lib: Lib, st: StreamState, h: History, recipe: Recipe, p: Bytes, reply: A.Reply)
    requires st.mdctx.Some? && Usable(lib, st.mdctx.value) && Holds(lib.ctxs[st.mdctx.value], h, recipe)
    ensures var (lib', r) := WriteStream(lib, st, p, reply);
            && st.mdctx.value in lib'.ctxs
            && Holds(lib'.ctxs[st.mdctx.value], Wrote(h, p, r), recipe)
  {
    var c := st.mdctx.value;
    var ctx := lib.ctxs[c];
    ConcatOne(h.written, p);
    match reply {
      case Accepted =>
        AbsorbSets(lib, c, ctx.absorbed + p);
        AcceptedHolds(ctx, h, recipe, p);
      case Refused(left) => AbsorbSets(lib, c, left);
    }
  }

  lemma AbsorbSets(lib: Lib, c: Ctx, data: Bytes)
    requires Usable(lib, c)
    ensures c in Absorb(lib, c, data).ctxs && Absorb(lib, c, data).ctxs[c] == lib.ctxs[c].(absorbed := data)
  {
  }

  lemma AcceptedHolds(ctx: MdCtx, h: History, recipe: Recipe, p: Bytes)
    requires Holds(ctx, h, recipe)
    ensures Holds(ctx.(absorbed := ctx.absorbed + p), h.(written := h.written + [p]), recipe)
    ensures p == [] ==> Holds(ctx, h.(written := h.written + [p]), recipe)
  {
    ConcatOne(h.written, p);
    assert p == [] ==> Concat(h.written) + p == Concat(h.written);
  }

  lemma ResultStep(evp: Evp, w: World, op: Op)
    requires (op.Sign? || op.Verify?) && Local(w, op) && Enabled(w, op) && HistoryFacts(evp, w, op.s)
    ensures HistoryFacts(evp, Do(evp, w, op), op.s)
  {
    if w.streams[op.s].mdctx.Some? {
      OpenStreamIsUsable(w, op.s);
    }
  }

  lemma StepKeepsInv(evp: Evp, w: World, op: Op)
    requires Inv(evp, w) && Enabled(w, op)
    ensures Inv(evp, Do(evp, w, op))
  {
    StepKeepsOwned(evp, w, op);
    OwnedIsLocal(w, op);
    forall s: Id ensures HistoryFacts(evp, Do(evp, w, op), s) {
      assert HistoryFacts(evp, w, s) && Facts(w, 0, w.lib.next, s);
      if op.NewStream? && op.s == s {
        OpenedStep(evp, w, op);
      } else if op.Write? && op.s == s {
        WrittenStep(evp, w, op);
      } else if (op.Sign? || op.Verify?) && op.s == s {
        ResultStep(evp, w, op);
      } else if op.NewStream? {
        OthersOpened(evp, w, op, s);
      } else if op.Write? || op.Sign? || op.Verify? {
        OthersUsed(evp, w, op, s);
      } else {
        ClosedStep(evp, w, op, s);
      }
    }
  }

  function Machine(evp: Evp): System<World, Op> {
    System(Enabled, (w, op) => Do(evp, w, op))
  }

  predicate Possible(evp: Evp, run: seq<Op>) {
    Legal(Machine(evp), EMPTY, run)
  }

  function End(evp: Evp, run: seq<Op>): World {
    After(Machine(evp), EMPTY, run)
  }

  lemma InvHolds(evp: Evp, run: seq<Op>)
    requires Possible(evp, run)
    ensures Inv(evp, End(evp, run))
  {
    var inv := (w: World) => Inv(evp, w);
    forall w: World, op: Op | inv(w) && Enabled(w, op) ensures inv(Do(evp, w, op)) {
      StepKeepsInv(evp, w, op);
    }
    Keeps(Machine(evp), inv, EMPTY, run);
  }

  /** After every run: nothing freed was ever touched; a key is alive exactly while
      a handle or a stream on it is open, with one reference for each; and a
      context is alive exactly while the one stream that owns it is open. */
  lemma ReferencesEqualHolders(evp: Evp, run: seq<Op>, p: Pkey, c: Ctx)
    requires Possible(evp, run)
    ensures var w := End(evp, run);
            && !w.lib.fault
            && (p in w.lib.refs <==> Holders(w, p) > 0)
            && (p in w.lib.refs ==> w.lib.refs[p] == Holders(w, p))
            && |StreamsIn(w.streams, c)| == One(c in w.lib.ctxs)
  {
    InvHolds(evp, run);
    assert Facts(End(evp, run), p, c, 0);
  }

  /** No run opens a stream on a key that can only sign in one call. */
  lemma NeverStreamsOneShotKeys(evp: Evp, run: seq<Op>, s: Id)
    requires Possible(evp, run) && s in End(evp, run).hist
    ensures var t := End(evp, run).hist[s].info.keyType;
            t !in {"ED25519", "ED448"} && !("ML-DSA" <= t) && !("SLH-DSA" <= t)
  {
    InvHolds(evp, run);
    assert HistoryFacts(evp, End(evp, run), s);
    OneShotOnlyExactly(End(evp, run).hist[s].info.keyType);
  }

  /** What a call on a stream answers after any run: the closed error exactly once it
      is closed, the finalised error exactly once it has given its result, and
      otherwise what the library says. */
  lemma CallsAnswer(evp: Evp, run: seq<Op>, s: Id, p: Bytes, nonce: nat, sig: Bytes, reply: A.Reply)
    requires Possible(evp, run) && s in End(evp, run).streams
    ensures s in End(evp, run).hist
    ensures var w := End(evp, run);
            var st, h := w.streams[s], w.hist[s];
            var wrote := WriteStream(w.lib, st, p, reply).1;
            var signed, judged := SignStream(evp, w.lib, st, nonce, reply), VerifyStream(evp, w.lib, st, sig);
            if st.mdctx.None? then wrote == Err(Closed) && signed.2 == Err(Closed) && judged.2 == Err(Closed)
            else if h.outputs != [] then
              wrote == Err(Finalised) && signed.2 == Err(Finalised) && judged.2 == Err(Finalised)
            else
              && wrote == (if p == [] || reply.Accepted? then Ok(|p|) else Err(Refused))
              && (reply.Refused? <==> signed.2 == Err(Refused)) && (reply.Accepted? <==> signed.2.Ok?)
              && (sig == [] ==> judged.2 == Err(BadSignature))
              && (sig != [] && !h.refused ==>
                    judged.2 == if evp.verify(h.key, RecipeFor(h.info, h.opts), Concat(h.written), sig) == 1 then Ok(())
                                else Err(BadSignature))
  {
    InvHolds(evp, run);
    var w := End(evp, run);
    assert HistoryFacts(evp, w, s);
    if w.streams[s].mdctx.Some? {
      assert Facts(w, 0, 0, s);
      assert Facts(w, w.streams[s].pkey.value, w.streams[s].mdctx.value, s);
      OpenStreamIsUsable(w, s);
    }
  }

  /** Once every handle and every stream is closed nothing is left, whatever exits
      the constructors took and in whatever order the closes came. */
  lemma AllClosedLeavesNothing(evp: Evp, run: seq<Op>)
    requires Possible(evp, run)
    requires var w := End(evp, run);
             && (forall k :: k in w.keys ==> w.keys[k].pkey.None?)
             && (forall s :: s in w.streams ==> w.streams[s].mdctx.None?)
    ensures End(evp, run).lib.refs == map[] && End(evp, run).lib.ctxs == map[]
  {
    var w := End(evp, run);
    InvHolds(evp, run);
    forall p: Pkey ensures p !in w.lib.refs {
      forall s: Id | s in w.streams ensures w.streams[s].pkey.None? {
        assert Facts(w, p, 0, s);
      }
      assert Facts(w, p, 0, 0) && KeysOn(w.keys, p) == {} && StreamsOn(w.streams, p) == {};
    }
    forall c: Ctx ensures c !in w.lib.ctxs {
      assert Facts(w, 0, c, 0) && StreamsIn(w.streams, c) == {};
    }
  }

  predicate GivenUp(w: World, op: Op) {
    match op
    case Close(s) => s in w.streams && w.streams[s].mdctx.None? && w.streams[s].pkey.None?
    case KeyClose(k) => k in w.keys && w.keys[k].pkey.None?
    case _ => true
  }

  /** A close releases what the handle held, and nothing reopens it. */
  lemma {:induction false} ClosedForGood(evp: Evp, w: World, run: seq<Op>, i: nat)
    requires Legal(Machine(evp), w, run) && i < |run|
    ensures GivenUp(After(Machine(evp), w, run), run[i])
    decreases |run|
  {
    if i > 0 {
      ClosedForGood(evp, Do(evp, w, run[0]), run[1..], i - 1);
    } else {
      StaysGivenUp(evp, Do(evp, w, run[0]), run[1..], run[0]);
    }
  }

  lemma {:induction false} StaysGivenUp(evp: Evp, w: World, run: seq<Op>, op: Op)
    requires Legal(Machine(evp), w, run) && GivenUp(w, op)
    ensures GivenUp(After(Machine(evp), w, run), op)
    decreases |run|
  {
    if run != [] {
      StaysGivenUp(evp, Do(evp, w, run[0]), run[1..], op);
    }
  }

  /** So a run that closes whatever it opened leaves nothing. */
  lemma ClosingAllLeavesNothing(evp: Evp, run: seq<Op>)
    requires Possible(evp, run)
    requires forall k :: k in End(evp, run).keys ==> KeyClose(k) in run
    requires forall s :: s in End(evp, run).streams ==> Op.Close(s) in run
    ensures End(evp, run).lib.refs == map[] && End(evp, run).lib.ctxs == map[]
  {
    forall i: nat | i < |run| ensures GivenUp(End(evp, run), run[i]) {
      ClosedForGood(evp, EMPTY, run, i);
    }
    AllClosedLeavesNothing(evp, run);
  }

  // ---- a stream against the one-shot calls ----

  /** What the one-shot call gives for everything the caller wrote. */
  function OneShotSignature(evp: Evp, h: History, nonce: nat): Result<Bytes, SignError> {
    O.Sign(evp, h.key, h.info, h.opts, Concat(h.written), nonce, false)
  }

  predicate OneShotAccepts(evp: Evp, h: History, sig: Bytes) {
    O.Verify(evp, h.key, h.info, h.opts, Concat(h.written), sig, false).Ok?
  }

  predicate AsksForP1363(h: History) {
    Requested(h.info, h.opts).format == EcdsaFormat.P1363
  }

  /** A stream yields at most one result. Without refused calls a signature is the
      one-shot signature on the concatenation of the writes exactly when P1363 was
      not asked for: streams ignore the format. */
  lemma StreamedSignature(evp: Evp, run: seq<Op>, s: Id)
    requires Possible(evp, run) && s in End(evp, run).hist && !End(evp, run).hist[s].verifying
    ensures var h := End(evp, run).hist[s];
            && |h.outputs| <= 1
            && (h.outputs != [] && !h.refused ==>
                  var o := h.outputs[0];
                  o.Signature? && (OneShotSignature(evp, h, o.nonce) == Ok(o.sig) <==> !AsksForP1363(h)))
  {
    InvHolds(evp, run);
    var h := End(evp, run).hist[s];
    assert HistoryFacts(evp, End(evp, run), s);
    if h.outputs != [] && !h.refused {
      var sig := h.outputs[0].sig;
      var coord := EcdsaFormat.CoordinateLen(h.info.bits);
      if AsksForP1363(h) && EcdsaFormat.ToP1363(sig, coord).Ok? {
        EcdsaFormat.FormsDiffer(sig, coord);
      }
    }
  }

  /** A verdict is the one-shot verdict unless P1363 was asked for; then it is the
      one-shot verdict on the signature converted to P1363. */
  lemma StreamedVerdict(evp: Evp, run: seq<Op>, s: Id)
    requires Possible(evp, run) && s in End(evp, run).hist && End(evp, run).hist[s].verifying
    ensures var h := End(evp, run).hist[s];
            && |h.outputs| <= 1
            && (h.outputs != [] && !h.refused ==>
                  var o := h.outputs[0];
                  && o.Verdict?
                  && (!AsksForP1363(h) ==> (o.accepted <==> OneShotAccepts(evp, h, o.sig)))
                  && (AsksForP1363(h) ==>
                        forall raw :: EcdsaFormat.VerifyInput(EcdsaFormat.P1363, raw, h.info.bits) == Some(o.sig)
                          ==> (o.accepted <==> OneShotAccepts(evp, h, raw))))
  {
    InvHolds(evp, run);
    assert HistoryFacts(evp, End(evp, run), s);
  }

  predicate JudgedAlike(evp: Evp, p: Pkey, info: KeyInfo, opts: Option<Options>, msg: Bytes, sig: Bytes) {
    (sig != [] && evp.verify(p, RecipeFor(info, opts), msg, sig) == 1) <==>
      O.Verify(evp, p, info, opts, msg, sig, false).Ok?
  }

  /** A library that accepts nothing but one signature. */
  function Picky(only: Bytes): Evp {
    SAMPLE.(takes := (_, _) => true, verify := (_, _, _, x) => if x == only then 1 else 0)
  }

  /** On every signature that is not empty, a stream can be relied on to judge as
      the one-shot call does, whatever library takes the recipe, exactly when P1363
      was not asked for. */
  lemma JudgedAlikeExactly(p: Pkey, info: KeyInfo, opts: Option<Options>, msg: Bytes, sig: Bytes)
    requires SignOptions.Check(info.keyType, Requested(info, opts)).Ok? && sig != []
    ensures (forall evp: Evp ::
               evp.takes(info.keyType, RecipeFor(info, opts)) ==> JudgedAlike(evp, p, info, opts, msg, sig))
              <==> Requested(info, opts).format != EcdsaFormat.P1363
  {
    EcdsaFormat.ConversionIsAnother(sig, info.bits);
    if Requested(info, opts).format == EcdsaFormat.P1363 {
      PickyDisagrees(p, info, opts, msg, sig);
    }
  }

  lemma PickyDisagrees(p: Pkey, info: KeyInfo, opts: Option<Options>, msg: Bytes, sig: Bytes)
    requires SignOptions.Check(info.keyType, Requested(info, opts)).Ok? && sig != []
    requires EcdsaFormat.VerifyInput(Requested(info, opts).format, sig, info.bits) != Some(sig)
    ensures Picky(sig).takes(info.keyType, RecipeFor(info, opts)) && !JudgedAlike(Picky(sig), p, info, opts, msg, sig)
  {
  }

  /** A run in which the two differ: a P-256 key, a signer asked for P1363 and one
      signature, which comes out as DER. */
  lemma P1363StreamSignsDer(evp: Evp) returns (run: seq<Op>)
    requires evp.takes("EC", RecipeFor(KeyInfo("EC", 128, 256), Some(UNSET.(format := EcdsaFormat.P1363))))
    ensures Possible(evp, run) && 0 in End(evp, run).hist
    ensures var h := End(evp, run).hist[0];
            && h.outputs != [] && !h.refused && AsksForP1363(h) && h.outputs[0].Signature?
            && OneShotSignature(evp, h, h.outputs[0].nonce) != Ok(h.outputs[0].sig)
  {
    var info := KeyInfo("EC", 128, 256);
    var opts := Some(UNSET.(format := EcdsaFormat.P1363));
    var none := Replies(false, false, false, _ => false);
    var made, signer, signed := Generate(0, info), NewStream(0, 0, false, opts, none), Op.Sign(0, 0, A.Accepted);
    var w1 := Do(evp, EMPTY, made);
    var w2 := SignerOpens(evp, info, opts, none);
    var w3 := Do(evp, w2, signed);
    Extended(Machine(evp), EMPTY, [], made);
    Extended(Machine(evp), EMPTY, [made], signer);
    Extended(Machine(evp), EMPTY, [made, signer], signed);
    assert [] + [made] == [made] && [made] + [signer] == [made, signer];
    run := [made, signer] + [signed];
    assert End(evp, run) == w3 && w3.hist[0].outputs != [];
    StreamedSignature(evp, run, 0);
  }

  lemma SignerOpens(evp: Evp, info: KeyInfo, opts: Option<Options>, none: Replies) returns (w: World)
    requires info == KeyInfo("EC", 128, 256) && opts == Some(UNSET.(format := EcdsaFormat.P1363))
    requires none == Replies(false, false, false, none.setting) && evp.takes("EC", RecipeFor(info, opts))
    ensures w == Do(evp, Do(evp, EMPTY, Generate(0, info)), NewStream(0, 0, false, opts, none))
    ensures w.streams.Keys == {0} && w.hist == map[0 := History(false, 0, info, opts, [], false, [])]
    ensures w.streams[0] == StreamState(Some(1), Some(0), false) && Usable(w.lib, 1)
  {
    KeyTypesThatHash("EC");
    w := Do(evp, Do(evp, EMPTY, Generate(0, info)), NewStream(0, 0, false, opts, none));
  }

  /** Chunk boundaries never matter: streams on one key with the same options and
      the same bytes in total give the same results. */
  lemma ChunksNeverMatter(evp: Evp, run: seq<Op>, run': seq<Op>, s: Id, s': Id)
    requires Possible(evp, run) && s in End(evp, run).hist && Possible(evp, run') && s' in End(evp, run').hist
    requires var h, h' := End(evp, run).hist[s], End(evp, run').hist[s'];
             && h.key == h'.key && h.info == h'.info && h.opts == h'.opts
             && Concat(h.written) == Concat(h'.written) && !h.refused && !h'.refused
             && h.outputs != [] && h'.outputs != []
    ensures var o, o' := End(evp, run).hist[s].outputs[0], End(evp, run').hist[s'].outputs[0];
            && (o.Signature? && o'.Signature? && o.nonce == o'.nonce ==> o == o')
            && (o.Verdict? && o'.Verdict? && o.sig == o'.sig ==> o == o')
  {
    InvHolds(evp, run);
    InvHolds(evp, run');
    assert HistoryFacts(evp, End(evp, run), s) && HistoryFacts(evp, End(evp, run'), s');
  }
}
