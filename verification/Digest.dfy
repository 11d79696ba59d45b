/** The streaming `Hash` and the one-shot `Digest`. */
module Digest {
  import opened ByteStrings
  import opened CHeap
  import A = Accumulator

  datatype NewCall = Fetch | NewContext | Init

  datatype SumCall = SumContext | CopyContext | Finalise

  /** The error of the first call of `Sum` that is refused. */
  function SumFault(xof: bool, refuses: SumCall -> bool): Option<A.SumError> {
    if xof then Some(A.Extendable)
    else if refuses(SumContext) || refuses(CopyContext) then Some(A.CopyFailed)
    else if refuses(Finalise) then Some(A.FinalFailed)
    else None
  }

  /** A sum of a fixed-length function goes through exactly when OpenSSL refuses none
      of its calls; one of an extendable-output function never does. */
  lemma SumsExactly(xof: bool, refuses: SumCall -> bool)
    ensures var fault := SumFault(xof, refuses);
            && (fault.None? <==> !(xof || refuses(SumContext) || refuses(CopyContext) || refuses(Finalise)))
            && (fault == Some(A.Extendable) <==> xof)
            && (fault == Some(A.CopyFailed) <==> !xof && (refuses(SumContext) || refuses(CopyContext)))
            && (fault == Some(A.FinalFailed) <==>
                  !xof && refuses(Finalise) && !refuses(SumContext) && !refuses(CopyContext))
  {
  }

  class Hash {
    const heap: Heap
    const digest: Bytes -> Bytes
    const xof: bool
    /** The EVP_MD and the EVP_MD_CTX; zero once freed. */
    var md: Addr
    var ctx: Addr
    /** What the context has absorbed. */
    var absorbed: Bytes
    var err: Option<A.Latched>
    /** How many errors were made on this handle. */
    var made: nat

    ghost predicate Valid()
      reads this, heap
    {
      && heap.Valid()
      && (ctx == 0 ==> md == 0)
      && (ctx != 0 ==> ctx in heap.live && md in heap.live && md != 0 && md != ctx)
    }

    function State(): A.State
      reads this
    {
      A.State(ctx != 0, if ctx != 0 then absorbed else [], err, made)
    }

    constructor (heap: Heap, digest: Bytes -> Bytes, xof: bool, md: Addr, ctx: Addr)
      ensures this.heap == heap && this.digest == digest && this.xof == xof && this.md == md && this.ctx == ctx
      ensures ctx != 0 ==> State() == A.FRESH
    {
      this.heap, this.digest, this.xof, this.md, this.ctx := heap, digest, xof, md, ctx;
      absorbed, err, made := [], None, 0;
    }

    method Write(p: Bytes, reply: A.Reply) returns (r: Result<nat, A.SumError>)
      requires Valid()
      modifies `absorbed, `err, `made
      ensures Valid() && (State(), r) == A.Write(old(State()), p, reply)
    {
      if ctx == 0 {
        return Err(A.Closed);
      }
      if |p| == 0 {
        return Ok(0);
      }
      match reply {
        case Refused(left) =>
          absorbed, err, made := left, Some(A.Made(A.UpdateFailed, made)), made + 1;
          return Err(A.UpdateFailed);
        case Accepted =>
          absorbed := absorbed + p;
      }
      r := Ok(|p|);
    }

    /** Finalises a copy, so the state survives. */
    method Sum(b: Bytes, refuses: SumCall -> bool) returns (out: Bytes)
      requires Valid()
      modifies `err, `made
      ensures Valid() && (State(), out) == A.Sum(old(State()), digest, b, SumFault(xof, refuses))
      ensures out == if ctx == 0 || xof || refuses(SumContext) || refuses(CopyContext) || refuses(Finalise) then b
                     else b + digest(absorbed)
    {
      if ctx == 0 {
        err := Some(A.ClosedSentinel);
        return b;
      }
      if xof {
        err, made := Some(A.Made(A.Extendable, made)), made + 1;
        return b;
      }
      if refuses(SumContext) {
        err, made := Some(A.Made(A.CopyFailed, made)), made + 1;
        return b;
      }
      if refuses(CopyContext) {
        err, made := Some(A.Made(A.CopyFailed, made)), made + 1;
        return b;
      }
      var copy := absorbed;
      if refuses(Finalise) {
        err, made := Some(A.Made(A.FinalFailed, made)), made + 1;
        return b;
      }
      out := b + digest(copy);
    }

    method Reset(reply: A.Reply)
      requires Valid()
      modifies `absorbed, `err, `made
      ensures Valid() && State() == A.Reset(old(State()), reply)
    {
      if ctx == 0 {
        return;
      }
      match reply {
        case Accepted => absorbed := [];
        case Refused(left) => absorbed, err, made := left, Some(A.Made(A.InitFailed, made)), made + 1;
      }
    }

    /** Both EVP objects are released, once. */
    method Close()
      requires Valid()
      modifies this, heap`live, heap`freed
      ensures Valid() && State() == A.Close(old(State()))
      ensures heap.live == old(heap.live) - {old(ctx), old(md)}
      ensures heap.freed == old(heap.freed) + if old(ctx) != 0 then [old(ctx), old(md)] else []
    {
      if ctx != 0 {
        heap.Free(ctx);
        ctx := 0;
      }
      if md != 0 {
        heap.Free(md);
        md := 0;
      }
    }
  }

  /** `NewHash`: a failing exit leaves nothing allocated. */
  method NewHash(heap: Heap, digest: Bytes -> Bytes, xof: bool, refuses: NewCall -> bool) returns (h: Hash?)
    requires heap.Valid()
    modifies heap
    ensures heap.Valid()
    ensures h == null <==> refuses(Fetch) || refuses(NewContext) || refuses(Init)
    ensures h == null ==> heap.live == old(heap.live)
    ensures h != null ==>
              && fresh(h) && h.Valid() && h.heap == heap && h.digest == digest && h.xof == xof
              && h.State() == A.FRESH && h.md !in old(heap.live) && h.ctx !in old(heap.live)
              && heap.live == old(heap.live)[h.md := Zeros(1)][h.ctx := Zeros(1)]
  {
    h := null;
    if refuses(Fetch) {
      return;
    }
    var md := heap.Calloc(1);
    if refuses(NewContext) {
      heap.Free(md);
      return;
    }
    var ctx := heap.Calloc(1);
    if refuses(Init) {
      heap.Free(ctx);
      heap.Free(md);
      return;
    }
    h := new Hash(heap, digest, xof, md, ctx);
  }

  /** One-shot `Digest`: a nil error comes with the whole digest, an error is
      returned exactly when some call was refused or the function has no fixed
      length, and on every exit nothing stays allocated. */
  method OneShot(heap: Heap, digest: Bytes -> Bytes, xof: bool, data: Bytes,
                 opens: NewCall -> bool, reply: A.Reply, refuses: SumCall -> bool)
    returns (r: Option<Bytes>)
    requires heap.Valid()
    modifies heap
    ensures r.Some? ==> r.value == digest(data)
    ensures r.None? <==> opens(Fetch) || opens(NewContext) || opens(Init)
                         || (data != [] && reply.Refused?) || xof
                         || refuses(SumContext) || refuses(CopyContext) || refuses(Finalise)
    ensures heap.Valid() && heap.live == old(heap.live)
  {
    var h := NewHash(heap, digest, xof, opens);
    if h == null {
      return None;
    }
    assert [] + data == data && [] + digest(data) == digest(data);
    var w := h.Write(data, reply);
    if w.Err? {
      h.Close();
      assert heap.live == old(heap.live);
      return None;
    }
    var sum := h.Sum([], refuses);
    var err := h.err;
    h.Close();
    assert heap.live == old(heap.live);
    r := if err.Some? then None else Some(sum);
  }

  /** Chunking does not matter: any split of the data gives the one-shot digest. */
  method Chunked(h: Hash, chunks: seq<Bytes>) returns (sum: Bytes)
    requires h.Valid() && h.State() == A.FRESH && !h.xof
    modifies h
    ensures sum == h.digest(Concat(chunks))
  {
    var i := 0;
    while i < |chunks|
      invariant 0 <= i <= |chunks| && h.Valid()
      invariant h.State() == A.State(true, Concat(chunks[..i]), None, 0)
    {
      var w := h.Write(chunks[i], A.Accepted);
      assert chunks[..i + 1][..i] == chunks[..i];
      i := i + 1;
    }
    assert chunks[..i] == chunks;
    sum := h.Sum([], _ => false);
  }
}
