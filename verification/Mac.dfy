/** The streaming `MAC`: it refines the same accumulator as `Hash`, and it owns
    its key copy, its EVP objects and the parameter builder it retains. */
module Mac {
  import opened ByteStrings
  import opened CHeap
  import A = Accumulator
  import opened Params

  datatype NewCall = Fetch | NewContext | Init

  datatype SumCall = Duplicate | Finalise

  /** What an EVP_MAC_CTX holds: the key and options of its last init, and what
      it has absorbed since. */
  datatype Context = Context(key: Bytes, options: seq<Binding>, absorbed: Bytes)

  /** Bytes offered to EVP_MAC_final. */
  function BufferSize(size: int): nat {
    if size <= 0 then 64 else size
  }

  /** The error of the first call of `Sum` that is refused; a tag that does not
      fit the buffer is refused too. */
  function SumFault(tagLen: nat, size: int, refuses: SumCall -> bool): Option<A.SumError> {
    if refuses(Duplicate) then Some(A.CopyFailed)
    else if refuses(Finalise) || tagLen > BufferSize(size) then Some(A.FinalFailed)
    else None
  }

  /** A sum goes through exactly when OpenSSL refuses none of its calls and the tag
      has at most as many bytes as the size asked for, 64 when none was. */
  lemma SumsExactly(tagLen: nat, size: int, refuses: SumCall -> bool)
    ensures var fault, fits := SumFault(tagLen, size, refuses), tagLen <= size || (size <= 0 && tagLen <= 64);
            && (fault.None? <==> fits && !refuses(Duplicate) && !refuses(Finalise))
            && (fault == Some(A.CopyFailed) <==> refuses(Duplicate))
            && (fault == Some(A.FinalFailed) <==> !refuses(Duplicate) && (refuses(Finalise) || !fits))
  {
  }

  class MAC {
    const heap: Heap
    const tag: (Bytes, seq<Binding>, Bytes) -> Bytes
    const size: int
    /** The EVP_MAC and the EVP_MAC_CTX; zero once freed. */
    var mac: Addr
    var ctx: Addr
    var context: Context
    var key: Bytes
    var p: Params?
    var err: Option<A.Latched>
    /** How many errors were made on this handle. */
    var made: nat

    /** What a MAC owns while it is open. */
    ghost predicate Owned()
      reads this, heap, p
    {
      && heap.Valid()
      && (ctx == 0 ==> mac == 0 && p == null && key == [])
      && (ctx != 0 ==>
            && p != null && p.heap == heap && p.Valid() && !p.freed
            && ctx in heap.live && mac in heap.live && ctx != mac && mac != 0
            && ctx !in p.arena && mac !in p.arena)
    }

    ghost predicate Valid()
      reads this, heap, p
    {
      Owned() && (ctx != 0 ==> context.key == key && context.options == p.added)
    }

    function State(): A.State
      reads this
    {
      A.State(ctx != 0, if ctx != 0 then context.absorbed else [], err, made)
    }

    /** What finalising turns absorbed bytes into, under a key and options. */
    function Finish(key: Bytes, options: seq<Binding>): Bytes -> Bytes {
      (x: Bytes) => tag(key, options, x)
    }

    constructor (heap: Heap, tag: (Bytes, seq<Binding>, Bytes) -> Bytes, size: int, mac: Addr, ctx: Addr, key: Bytes,
                 p: Params)
      ensures this.heap == heap && this.tag == tag && this.size == size && this.mac == mac && this.ctx == ctx
      ensures this.key == key && this.p == p && this.err == None && this.made == 0
    {
      this.heap, this.tag, this.size, this.mac, this.ctx, this.key, this.p := heap, tag, size, mac, ctx, key, p;
      context, err, made := Context([], [], []), None, 0;
    }

    /** `init`: keys the context with the retained key and options. */
    method Initialise(reply: A.Reply) returns (ok: bool)
      requires heap.Valid() && p != null && p.heap == heap && p.Valid() && !p.freed
      modifies `context, p`list, p`ended
      ensures p.Valid() && p.ended && p.added == old(p.added)
      ensures ok == reply.Accepted?
      ensures context == if ok then Context(key, p.added, []) else old(context).(absorbed := reply.left)
    {
      var usable := p.Terminated();
      ok := reply.Accepted?;
      context := if ok then Context(key, Walk(heap.live, p.list), []) else context.(absorbed := reply.left);
    }

    method Write(b: Bytes, reply: A.Reply) returns (r: Result<nat, A.SumError>)
      requires Valid()
      modifies `context, `err, `made
      ensures Valid() && (State(), r) == A.Write(old(State()), b, reply)
      ensures context == old(context).(absorbed := context.absorbed)
    {
      if ctx == 0 {
        return Err(A.Closed);
      }
      if |b| == 0 {
        return Ok(0);
      }
      match reply {
        case Refused(left) =>
          context, err, made := context.(absorbed := left), Some(A.Made(A.UpdateFailed, made)), made + 1;
          return Err(A.UpdateFailed);
        case Accepted =>
          context := context.(absorbed := context.absorbed + b);
      }
      r := Ok(|b|);
    }

    /** Finalises a duplicate, so the state survives. */
    method Sum(b: Bytes, refuses: SumCall -> bool) returns (out: Bytes)
      requires Valid()
      modifies `err, `made
      ensures Valid()
      ensures var fault := SumFault(|tag(context.key, context.options, context.absorbed)|, size, refuses);
              (State(), out) == A.Sum(old(State()), Finish(context.key, context.options), b, fault)
      ensures var t := tag(context.key, context.options, context.absorbed);
              var room := if size <= 0 then 64 else size;
              out == if ctx == 0 || refuses(Duplicate) || refuses(Finalise) || |t| > room then b else b + t
    {
      if ctx == 0 {
        err := Some(A.ClosedSentinel);
        return b;
      }
      if refuses(Duplicate) {
        err, made := Some(A.Made(A.CopyFailed, made)), made + 1;
        return b;
      }
      var room := size;
      if room <= 0 {
        room := 64;
      }
      var t := tag(context.key, context.options, context.absorbed);
      if refuses(Finalise) || |t| > room {
        err, made := Some(A.Made(A.FinalFailed, made)), made + 1;
        return b;
      }
      out := b + t;
    }

    /** Back to the state after construction, with the retained key and options. */
    method Reset(reply: A.Reply)
      requires Valid()
      modifies `context, `err, `made, p
      ensures Valid() && State() == A.Reset(old(State()), reply)
      ensures context == old(context).(absorbed := context.absorbed)
    {
      if ctx == 0 {
        return;
      }
      var ok := Initialise(reply);
      if !ok {
        err, made := Some(A.Made(A.InitFailed, made)), made + 1;
      }
    }

    /** Releases both EVP objects and the builder's arena, each once. */
    method Close()
      requires Owned()
      modifies this, p, heap`live, heap`freed
      ensures Valid() && State() == A.Close(old(State()))
      ensures old(ctx) == 0 ==> heap.live == old(heap.live) && heap.freed == old(heap.freed)
      ensures old(ctx) != 0 ==>
                && heap.live == old(heap.live) - (set a | a in [old(ctx), old(mac)] + old(p.arena))
                && heap.freed == old(heap.freed) + [old(ctx), old(mac)] + old(p.arena)
    {
      if ctx != 0 {
        ReleaseHandles();
        p.Free();
        p := null;
      }
      key := [];
    }

    method ReleaseHandles()
      requires Owned() && ctx != 0
      modifies `ctx, `mac, heap`live, heap`freed
      ensures ctx == 0 && mac == 0 && heap.Valid() && p.Valid()
      ensures heap.live == old(heap.live) - {old(ctx), old(mac)} && heap.freed == old(heap.freed) + [old(ctx), old(mac)]
    {
      heap.Free(ctx);
      heap.Free(mac);
      p.Untouched();
      ctx, mac := 0, 0;
    }
  }

  /** Fetches the algorithm and makes a context, or frees what there is. */
  method Allocate(heap: Heap, p: Params, refuses: NewCall -> bool) returns (ok: bool, mac: Addr, ctx: Addr)
    requires p.heap == heap && p.Valid() && !p.freed
    modifies heap, p
    ensures p.Valid() && ok == (!refuses(Fetch) && !refuses(NewContext))
    ensures !ok ==> heap.live == old(heap.live) - (set a | a in old(p.arena))
    ensures ok ==>
              && !p.freed && p.arena == old(p.arena) && p.added == old(p.added)
              && mac !in old(heap.live) && ctx !in old(heap.live) && mac != ctx && mac != 0 && ctx != 0
              && heap.live == old(heap.live)[mac := Zeros(1)][ctx := Zeros(1)]
  {
    ok, mac, ctx := false, 0, 0;
    if refuses(Fetch) {
      p.Free();
      return;
    }
    mac := heap.Calloc(1);
    if refuses(NewContext) {
      heap.Free(mac);
      assert heap.live == old(heap.live);
      p.Untouched();
      p.Free();
      return;
    }
    ctx := heap.Calloc(1);
    p.Untouched();
    ok := true;
  }

  /** `newMAC`: on every failing exit nothing stays allocated, not even what the
      builder held; on success the MAC owns the builder and both EVP objects. */
  method New(heap: Heap, nilContext: bool, tag: (Bytes, seq<Binding>, Bytes) -> Bytes, size: int, key: Bytes,
             p: Params, refuses: NewCall -> bool)
    returns (m: MAC?)
    requires p.heap == heap && p.Valid() && !p.freed
    modifies heap, p
    ensures heap.Valid()
    ensures m == null <==> nilContext || refuses(Fetch) || refuses(NewContext) || refuses(NewCall.Init)
    ensures m == null ==> heap.live == old(heap.live) - (set a | a in old(p.arena))
    ensures m != null ==>
              && fresh(m) && m.Valid() && m.heap == heap && m.p == p && m.State() == A.FRESH
              && m.context == Context(key, old(p.added), [])
              && m.ctx !in old(heap.live) && m.mac !in old(heap.live)
              && heap.live.Keys == old(heap.live).Keys + {m.ctx, m.mac}
  {
    m := null;
    if nilContext {
      p.Free();
      return;
    }
    var ok, mac, ctx := Allocate(heap, p, refuses);
    if !ok {
      return;
    }
    m := Keyed(heap, tag, size, mac, ctx, key, p, !refuses(NewCall.Init));
  }

  /** The handle with its context keyed, or everything it would own released. */
  method Keyed(heap: Heap, tag: (Bytes, seq<Binding>, Bytes) -> Bytes, size: int, mac: Addr, ctx: Addr, key: Bytes,
               p: Params, accepted: bool)
    returns (m: MAC?)
    requires p.heap == heap && p.Valid() && !p.freed
    requires ctx in heap.live && mac in heap.live && ctx != mac && mac != 0 && ctx != 0
    requires ctx !in p.arena && mac !in p.arena
    modifies heap, p
    ensures heap.Valid()
    ensures m == null <==> !accepted
    ensures m == null ==> heap.live == old(heap.live) - (set a | a in [ctx, mac] + old(p.arena))
    ensures m != null ==>
              && fresh(m) && m.Valid() && m.heap == heap && m.p == p && m.State() == A.FRESH
              && m.context == Context(key, old(p.added), []) && m.ctx == ctx && m.mac == mac
              && heap.live == old(heap.live)
  {
    m := new MAC(heap, tag, size, mac, ctx, key, p);
    var ok := m.Initialise(if accepted then A.Accepted else A.Refused([]));
    if !ok {
      m.Close();
      m := null;
    }
  }
}
