/** The OSSL_PARAM builder: every referent lives in a C arena the builder owns,
    and the array is read back the way OpenSSL reads it, through the heap. */
module Params {
  import opened ByteStrings
  import opened CHeap

  datatype ParamType = Utf8String | OctetString | Integer | UnsignedInteger

  /** One element of the array; `End` is the terminator with a NULL key. */
  datatype OsslParam = Entry(key: Addr, dataType: ParamType, data: Addr, size: nat) | End

  /** What an element means to its reader. `Declared` is a NULL-data octet
      string that only announces a size. */
  datatype Value = Text(text: Bytes) | Octets(octets: Bytes) | Declared(size: nat) | Signed(i: int) | Number(n: nat)

  type Binding = (Bytes, Value)

  // ---- OpenSSL's reader ----

  predicate Readable(live: map<Addr, Bytes>, p: OsslParam) {
    && p.Entry?
    && p.key in live
    && (p.data == 0 ==> p.dataType == OctetString)
    && (p.data != 0 ==> p.data in live && p.size <= |live[p.data]|)
  }

  function Read(live: map<Addr, Bytes>, p: OsslParam): Binding
    requires Readable(live, p)
  {
    (CString(live[p.key]), if p.data == 0 then Declared(p.size) else Typed(p.dataType, live[p.data][..p.size]))
  }

  function Typed(dataType: ParamType, block: Bytes): Value {
    match dataType
    case Utf8String => Text(block)
    case OctetString => Octets(block)
    case Integer => Signed(SignedInt(block))
    case UnsignedInteger => Number(Unsigned(block))
  }

  ghost predicate AllReadable(live: map<Addr, Bytes>, list: seq<OsslParam>) {
    forall i :: 0 <= i < |list| && list[i].Entry? ==> Readable(live, list[i])
  }

  /** The bindings in front of the first terminator. */
  function Walk(live: map<Addr, Bytes>, list: seq<OsslParam>): seq<Binding>
    requires AllReadable(live, list)
  {
    if list == [] || list[0].End? then [] else [Read(live, list[0])] + Walk(live, list[1..])
  }

  predicate HasEnd(list: seq<OsslParam>) {
    exists i :: 0 <= i < |list| && list[i].End?
  }

  lemma {:induction false} WalkAppend(live: map<Addr, Bytes>, list: seq<OsslParam>, p: OsslParam)
    requires AllReadable(live, list) && (p.Entry? ==> Readable(live, p))
    ensures AllReadable(live, list + [p])
    ensures Walk(live, list + [p]) == Walk(live, list) + if HasEnd(list) || p.End? then [] else [Read(live, p)]
  {
    assert forall i :: 0 <= i < |list| ==> (list + [p])[i] == list[i];
    if list == [] {
      assert (list + [p])[1..] == [];
    } else if list[0].Entry? {
      assert (list + [p])[1..] == list[1..] + [p];
      WalkAppend(live, list[1..], p);
      assert HasEnd(list[1..]) == HasEnd(list) by {
        if i :| 0 <= i < |list| && list[i].End? { assert list[1..][i - 1].End?; }
        if i :| 0 <= i < |list[1..]| && list[1..][i].End? { assert list[i + 1].End?; }
      }
    }
  }

  /** Only the referents matter: a heap that agrees on them reads the same. */
  lemma {:induction false} WalkFrame(live: map<Addr, Bytes>, live': map<Addr, Bytes>, list: seq<OsslParam>)
    requires AllReadable(live, list)
    requires forall i :: 0 <= i < |list| && list[i].Entry? ==> SameReferents(live, live', list[i])
    ensures AllReadable(live', list) && Walk(live', list) == Walk(live, list)
  {
    if list != [] {
      WalkFrame(live, live', list[1..]);
    }
  }

  predicate SameReferents(live: map<Addr, Bytes>, live': map<Addr, Bytes>, p: OsslParam)
    requires p.Entry?
  {
    && (p.key in live ==> p.key in live' && live'[p.key] == live[p.key])
    && (p.data in live ==> p.data in live' && live'[p.data] == live[p.data])
  }

  // ---- the builder ----

  class Params {
    const heap: Heap
    var list: seq<OsslParam>
    var arena: seq<Addr>
    var ended: bool
    var freed: bool
    /** The bindings OpenSSL is meant to see. */
    ghost var added: seq<Binding>

    ghost predicate Valid()
      reads this, heap
    {
      && heap.Valid()
      && Distinct(arena)
      && (forall a :: a in arena ==> a in heap.live)
      && (forall i :: 0 <= i < |list| && list[i].Entry? ==>
            list[i].key in arena && (list[i].data == 0 || list[i].data in arena))
      && (HasEnd(list) <==> ended && !freed)
      && (forall i, j :: 0 <= i < j < |list| ==> !list[i].End? || !list[j].End?)
      && AllReadable(heap.live, list)
      && Walk(heap.live, list) == added
    }

    constructor (heap: Heap)
      requires heap.Valid()
      ensures Valid() && this.heap == heap && fresh(this)
      ensures list == [] && arena == [] && added == [] && !ended && !freed
    {
      this.heap := heap;
      list, arena, added, ended, freed := [], [], [], false, false;
    }

    /** Whether what is added now is still in front of the terminator. */
    predicate Open()
      reads this
    {
      !ended || freed
    }

    /** The heap and the arena grow by one block, the array stays. */
    twostate predicate Grown(q: Addr, content: Bytes)
      reads this, heap
    {
      && q != 0 && q !in old(heap.live) && q !in old(arena)
      && heap.live == old(heap.live)[q := content]
      && arena == old(arena) + [q]
      && heap.freed == old(heap.freed)
    }

    method Alloc(n: int) returns (q: Addr)
      requires Valid()
      modifies heap, `arena
      ensures Valid() && Grown(q, Zeros(if n <= 0 then 1 else n))
    {
      var size := n;
      if size <= 0 {
        size := 1;
      }
      q := heap.Calloc(size);
      arena := arena + [q];
      WalkFrame(old(heap.live), heap.live, list);
    }

    /** Writing to a block that no element refers to yet. */
    method Write(q: Addr, src: Bytes)
      requires Valid() && q in arena && |src| <= |heap.live[q]|
      requires forall i :: 0 <= i < |list| && list[i].Entry? ==> list[i].key != q && list[i].data != q
      modifies heap
      ensures Valid() && heap.live == old(heap.live)[q := src + old(heap.live)[q][|src|..]]
      ensures heap.freed == old(heap.freed)
    {
      heap.Store(q, src);
      WalkFrame(old(heap.live), heap.live, list);
    }

    /** A fresh block that starts with `src`. */
    method Copied(src: Bytes, n: nat) returns (q: Addr)
      requires Valid() && |src| <= n
      modifies heap, `arena
      ensures Valid() && Grown(q, src + Zeros(if n == 0 then 1 else n - |src|))
    {
      q := Alloc(n);
      if |src| > 0 {
        Write(q, src);
      }
      assert heap.live[q] == src + Zeros(if n == 0 then 1 else n - |src|);
      assert heap.live == old(heap.live)[q := src + Zeros(if n == 0 then 1 else n - |src|)];
    }

    /** `cstr` and `cbytes`. */
    method Cstr(s: Bytes) returns (q: Addr)
      requires Valid()
      modifies heap, `arena
      ensures Valid() && Grown(q, s + [0])
    {
      q := Copied(s, |s| + 1);
      assert Zeros(1) == [0];
    }

    method Push(p: OsslParam)
      requires Valid() && p.Entry? && Readable(heap.live, p)
      requires p.key in arena && (p.data == 0 || p.data in arena)
      modifies `list, `added
      ensures Valid() && list == old(list) + [p]
      ensures added == old(added) + if Open() then [Read(heap.live, p)] else []
    {
      list := list + [p];
      added := added + if Open() then [Read(heap.live, p)] else [];
      WalkAppend(heap.live, old(list), p);
      assert HasEnd(list) == HasEnd(old(list)) by {
        if i :| 0 <= i < |list| && list[i].End? { assert old(list)[i].End?; }
        if i :| 0 <= i < |old(list)| && old(list)[i].End? { assert list[i].End?; }
      }
    }

    /** One more element and n more blocks; nothing that was there changes. */
    twostate predicate Extends(n: nat)
      reads this, heap
    {
      && |list| == |old(list)| + 1 && list[..|old(list)|] == old(list)
      && |arena| == |old(arena)| + n && arena[..|old(arena)|] == old(arena)
      && (forall i :: |old(arena)| <= i < |arena| ==> arena[i] !in old(heap.live))
      && (forall a :: a in old(heap.live) ==> a in heap.live && heap.live[a] == old(heap.live)[a])
      && (forall a :: a in heap.live ==> a in old(heap.live) || a in arena)
      && heap.freed == old(heap.freed)
    }

    /** The key's own copy, then the element that refers to both. */
    method PushTyped(key: Bytes, dataType: ParamType, q: Addr, size: nat)
      requires Valid() && (q == 0 ==> dataType == OctetString)
      requires q != 0 ==> q in arena && size <= |heap.live[q]|
      modifies heap, `arena, `list, `added
      ensures Valid() && Extends(1) && (q != 0 ==> q in arena && heap.live[q] == old(heap.live)[q])
      ensures var value := if q == 0 then Declared(size) else Typed(dataType, old(heap.live)[q][..size]);
              added == old(added) + if Open() then [(CString(key), value)] else []
    {
      var k := Cstr(key);
      CStringOfCopy(key);
      Push(Entry(k, dataType, q, size));
    }

    method PushBlock(key: Bytes, dataType: ParamType, block: Bytes, n: nat, size: nat)
      requires Valid() && size <= |block| <= n
      modifies heap, `arena, `list, `added
      ensures Valid() && Extends(2)
      ensures added == old(added) + if Open() then [(CString(key), Typed(dataType, block[..size]))] else []
    {
      var q := Copied(block, n);
      assert heap.live[q][..size] == block[..size];
      PushTyped(key, dataType, q, size);
    }

    /** `UTF8`. With a size of 0 OpenSSL takes the length from strlen. */
    method Utf8(key: Bytes, val: Bytes)
      requires Valid()
      modifies heap, `arena, `list, `added
      ensures Valid() && Extends(2)
      ensures added == old(added) + if Open() then [(CString(key), Text(CString(val)))] else []
    {
      CStringOfCopy(val);
      PushBlock(key, Utf8String, val, |val| + 1, |CString(val + [0])|);
    }

    /** `Octets` copies the caller's slice. */
    method AddOctets(key: Bytes, b: array<byte>)
      requires Valid()
      modifies heap, `arena, `list, `added
      ensures Valid() && Extends(2)
      ensures added == old(added) + if Open() then [(CString(key), Octets(b[..]))] else []
    {
      assert b[..][..b.Length] == b[..];
      PushBlock(key, OctetString, b[..], b.Length, b.Length);
    }

    method Int(key: Bytes, v: int)
      requires Valid()
      modifies heap, `arena, `list, `added
      ensures Valid() && Extends(2)
      ensures added == old(added) + if Open() then [(CString(key), Signed(CInt(v)))] else []
    {
      IntReadsBack(v);
      assert IntBytes(v)[..4] == IntBytes(v);
      PushBlock(key, Integer, IntBytes(v), 4, 4);
    }

    method Uint(key: Bytes, v: nat)
      requires Valid()
      modifies heap, `arena, `list, `added
      ensures Valid() && Extends(2)
      ensures added == old(added) + if Open() then [(CString(key), Number(v % 0x1_0000_0000))] else []
    {
      UnsignedReadsBack(v);
      assert UintBytes(v)[..4] == UintBytes(v);
      PushBlock(key, UnsignedInteger, UintBytes(v), 4, 4);
    }

    method SizeT(key: Bytes, v: int)
      requires Valid()
      modifies heap, `arena, `list, `added
      ensures Valid() && Extends(2)
      ensures added == old(added) + if Open() then [(CString(key), Number(v % 0x1_0000_0000_0000_0000))] else []
    {
      UnsignedReadsBack(v);
      assert SizeBytes(v)[..8] == SizeBytes(v);
      PushBlock(key, UnsignedInteger, SizeBytes(v), 8, 8);
    }

    /** An output parameter: zeroed bytes for OpenSSL to fill. */
    method OctetsOut(key: Bytes, n: nat) returns (q: Addr)
      requires Valid()
      modifies heap, `arena, `list, `added
      ensures Valid() && Extends(2) && q in arena && |heap.live[q]| >= n
      ensures added == old(added) + if Open() then [(CString(key), Octets(Zeros(n)))] else []
    {
      q := Alloc(n);
      assert heap.live[q][..n] == Zeros(n);
      PushTyped(key, OctetString, q, n);
    }

    method OctetsNilData(key: Bytes, n: nat)
      requires Valid()
      modifies heap, `arena, `list, `added
      ensures Valid() && Extends(1)
      ensures added == old(added) + if Open() then [(CString(key), Declared(n))] else []
    {
      PushTyped(key, OctetString, 0, n);
    }

    /** The builder stays intact while blocks of other owners come and go. */
    twostate lemma Untouched()
      requires old(Valid()) && heap.Valid() && unchanged(this)
      requires forall a :: a in arena ==> a in heap.live && heap.live[a] == old(heap.live)[a]
      ensures Valid()
    {
      WalkFrame(old(heap.live), heap.live, list);
    }

    /** `c`: terminates the array once. After `free` it panics, which is `false`. */
    method Terminated() returns (ok: bool)
      requires Valid()
      modifies `list, `ended
      ensures Valid() && ok == !freed
      ensures ok ==> ended && HasEnd(list) && Walk(heap.live, list) == old(added)
      ensures old(ended) || !ok ==> list == old(list)
      ensures !old(ended) && ok ==> list == old(list) + [End]
    {
      ok := !freed;
      if !freed && !ended {
        list := list + [End];
        ended := true;
        WalkAppend(heap.live, old(list), End);
        assert list[|list| - 1].End?;
      }
    }

    /** `free`: every block of the arena is released once, however often it is called. */
    method Free()
      requires Valid()
      modifies heap`live, heap`freed, `list, `arena, `added, `freed
      ensures Valid() && freed && arena == [] && list == [] && added == []
      ensures heap.freed == old(heap.freed) + old(arena)
      ensures heap.live == old(heap.live) - (set a | a in old(arena))
    {
      var i := 0;
      while i < |arena|
        invariant 0 <= i <= |arena| && arena == old(arena)
        invariant heap.Valid()
        invariant heap.freed == old(heap.freed) + arena[..i]
        invariant heap.live == old(heap.live) - (set a | a in arena[..i])
      {
        assert arena[i] !in arena[..i];
        assert arena[..i + 1] == arena[..i] + [arena[i]];
        heap.Free(arena[i]);
        i := i + 1;
      }
      assert arena[..i] == arena;
      arena, list, added := [], [], [];
      freed := true;
    }
  }

  /** Whatever the slice holds later does not reach the parameter. */
  method ReuseAfterAdding(p: Params, key: Bytes, b: array<byte>, later: Bytes)
    requires p.Valid() && p.Open() && |later| == b.Length
    modifies p, p.heap, b
    ensures p.Valid() && b[..] == later
    ensures p.added == old(p.added) + [(CString(key), Octets(old(b[..])))]
  {
    p.AddOctets(key, b);
    forall i | 0 <= i < b.Length { b[i] := later[i]; }
  }

  // ---- a whole life of a builder ----

  datatype Add =
    | AddText(key: Bytes, val: Bytes)
    | AddBytes(key: Bytes, bytes: Bytes)
    | AddInt(key: Bytes, i: int)
    | AddUint(key: Bytes, n: nat)
    | AddSize(key: Bytes, i: int)
    | AddDeclared(key: Bytes, n: nat)
    | AddOut(key: Bytes, n: nat)

  /** What OpenSSL sees of an added pair. */
  function AsSeen(a: Add): Binding {
    (CString(a.key),
     match a
     case AddText(_, val) => Text(CString(val))
     case AddBytes(_, bytes) => Octets(bytes)
     case AddInt(_, i) => Signed(CInt(i))
     case AddUint(_, n) => Number(n % 0x1_0000_0000)
     case AddSize(_, i) => Number(i % 0x1_0000_0000_0000_0000)
     case AddDeclared(_, n) => Declared(n)
     case AddOut(_, n) => Octets(Zeros(n)))
  }

  /** The pair the caller wrote; a negative size_t has no such reading. */
  function Written(a: Add): Option<Binding> {
    match a
    case AddText(_, val) => Some((a.key, Text(val)))
    case AddBytes(_, bytes) => Some((a.key, Octets(bytes)))
    case AddInt(_, i) => Some((a.key, Signed(i)))
    case AddUint(_, n) => Some((a.key, Number(n)))
    case AddSize(_, i) => if i < 0 then None else Some((a.key, Number(i)))
    case AddDeclared(_, n) => Some((a.key, Declared(n)))
    case AddOut(_, n) => Some((a.key, Octets(Zeros(n))))
  }

  /** OpenSSL sees what was written exactly when no string holds a NUL and every
      number fits its C type. */
  lemma SeenAsWritten(a: Add)
    ensures Written(a) == Some(AsSeen(a)) <==>
              && 0 !in a.key
              && (a.AddText? ==> 0 !in a.val)
              && (a.AddInt? ==> -0x8000_0000 <= a.i < 0x8000_0000)
              && (a.AddUint? ==> a.n < 0x1_0000_0000)
              && (a.AddSize? ==> 0 <= a.i < 0x1_0000_0000_0000_0000)
  {
    CStringOfCopy(a.key);
    if a.AddText? { CStringOfCopy(a.val); }
  }

  function SeenAll(adds: seq<Add>): seq<Binding> {
    seq(|adds|, i requires 0 <= i < |adds| => AsSeen(adds[i]))
  }

  method AddOne(p: Params, a: Add)
    requires p.Valid() && p.Open()
    modifies p.heap, p`arena, p`list, p`added
    ensures p.Valid() && p.Open() && p.heap.freed == old(p.heap.freed)
    ensures p.added == old(p.added) + [AsSeen(a)]
    ensures old(p.arena) <= p.arena
    ensures forall x :: x in p.arena ==> x in old(p.arena) || x !in old(p.heap.live)
    ensures forall x :: x in old(p.heap.live) ==> x in p.heap.live && p.heap.live[x] == old(p.heap.live)[x]
    ensures forall x :: x in p.heap.live ==> x in old(p.heap.live) || x in p.arena
  {
    match a {
      case AddText(key, val) => p.Utf8(key, val);
      case AddBytes(key, bytes) =>
        var b := new byte[|bytes|](i requires 0 <= i < |bytes| => bytes[i]);
        assert b[..] == bytes;
        p.AddOctets(key, b);
      case AddInt(key, i) => p.Int(key, i);
      case AddUint(key, n) => p.Uint(key, n);
      case AddSize(key, i) => p.SizeT(key, i);
      case AddDeclared(key, n) => p.OctetsNilData(key, n);
      case AddOut(key, n) => var q := p.OctetsOut(key, n);
    }
  }

  method AddAll(p: Params, adds: seq<Add>)
    requires p.Valid() && p.Open()
    modifies p.heap, p`arena, p`list, p`added
    ensures p.Valid() && p.Open() && p.heap.freed == old(p.heap.freed)
    ensures p.added == old(p.added) + SeenAll(adds)
    ensures forall x :: x in p.arena ==> x in old(p.arena) || x !in old(p.heap.live)
    ensures forall x :: x in old(p.heap.live) ==> x in p.heap.live && p.heap.live[x] == old(p.heap.live)[x]
    ensures forall x :: x in p.heap.live ==> x in old(p.heap.live) || x in p.arena
  {
    var i := 0;
    while i < |adds|
      invariant 0 <= i <= |adds| && p.Valid() && p.Open() && p.heap.freed == old(p.heap.freed)
      invariant p.added == old(p.added) + SeenAll(adds[..i])
      invariant forall x :: x in p.arena ==> x in old(p.arena) || x !in old(p.heap.live)
      invariant forall x :: x in old(p.heap.live) ==> x in p.heap.live && p.heap.live[x] == old(p.heap.live)[x]
      invariant forall x :: x in p.heap.live ==> x in old(p.heap.live) || x in p.arena
    {
      AddOne(p, adds[i]);
      assert SeenAll(adds[..i + 1]) == SeenAll(adds[..i]) + [AsSeen(adds[i])];
      i := i + 1;
    }
    assert adds[..i] == adds;
  }

  /** For any sequence of adds: the terminated array reads back as exactly the
      added pairs in order, and after `free`, called twice, the heap is as it was
      and the builder's blocks were released once each. */
  method BuildReadFree(heap: Heap, adds: seq<Add>) returns (walked: seq<Binding>, ghost blocks: seq<Addr>)
    requires heap.Valid()
    modifies heap
    ensures heap.Valid() && walked == SeenAll(adds)
    ensures heap.live == old(heap.live)
    ensures heap.freed == old(heap.freed) + blocks && Distinct(heap.freed)
  {
    var p := new Params(heap);
    AddAll(p, adds);
    var ok := p.Terminated();
    walked := Walk(heap.live, p.list);
    blocks := p.arena;
    p.Free();
    p.Free();
    assert heap.live == old(heap.live);
  }
}
