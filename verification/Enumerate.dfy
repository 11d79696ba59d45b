/** Listing algorithm names: a C array of fixed capacity that OpenSSL's iterator
    fills through a callback, then a sorted Go slice. */
module Enumerate {
  import opened ByteStrings

  /** A C string; the iterator may also hand over NULL. */
  type Name = Bytes

  const MAX_NAMES := 512

  // ---- what the iteration collects ----

  /** The non-null names among what was emitted. */
  function Names(emitted: seq<Option<Name>>): set<Name> {
    set e | e in emitted && e.Some? :: e.value
  }

  datatype Collected = Collected(items: seq<Name>, overflow: bool)

  /** `ossl_name_append`: the capacity is checked before the duplicates are. */
  function Appended(l: Collected, name: Option<Name>): Collected {
    if name.None? then l
    else if |l.items| >= MAX_NAMES then l.(overflow := true)
    else if name.value in l.items then l
    else l.(items := l.items + [name.value])
  }

  function Run(emitted: seq<Option<Name>>): Collected {
    if emitted == [] then Collected([], false)
    else Appended(Run(emitted[..|emitted| - 1]), emitted[|emitted| - 1])
  }

  class NameList {
    const items: array<Name>
    var count: nat
    var overflow: bool

    predicate Valid()
      reads this
    {
      items.Length == MAX_NAMES && count <= MAX_NAMES
    }

    function Contents(): Collected
      requires Valid()
      reads this, items
    {
      Collected(items[..count], overflow)
    }

    constructor ()
      ensures Valid() && fresh(items) && Contents() == Collected([], false)
    {
      items := new Name[MAX_NAMES](_ => []);
      count, overflow := 0, false;
    }

    method Append(name: Option<Name>)
      requires Valid()
      modifies this, items
      ensures Valid() && Contents() == Appended(old(Contents()), name)
    {
      if name.None? {
        return;
      }
      if count >= MAX_NAMES {
        overflow := true;
        return;
      }
      for i := 0 to count
        invariant name.value !in items[..i]
      {
        if items[i] == name.value {
          return;
        }
      }
      items[count] := name.value;
      count := count + 1;
    }
  }

  // ---- the order of sort.Strings ----

  predicate Less(a: Name, b: Name) {
    b != [] && (a == [] || a[0] < b[0] || (a[0] == b[0] && Less(a[1..], b[1..])))
  }

  lemma {:induction false} LessIsTotal(a: Name, b: Name)
    ensures Less(a, b) || a == b || Less(b, a)
    ensures !(Less(a, b) && Less(b, a)) && !Less(a, a)
  {
    if a != [] {
      LessIsTotal(a[1..], a[1..]);
      if b != [] {
        LessIsTotal(a[1..], b[1..]);
        assert a == [a[0]] + a[1..] && b == [b[0]] + b[1..];
      }
    }
  }

  lemma {:induction false} LessIsTransitive(a: Name, b: Name, c: Name)
    requires Less(a, b) && Less(b, c)
    ensures Less(a, c)
  {
    if a != [] && a[0] == b[0] == c[0] {
      LessIsTransitive(a[1..], b[1..], c[1..]);
    }
  }

  ghost predicate Ascending(s: seq<Name>) {
    forall i, j :: 0 <= i < j < |s| ==> Less(s[i], s[j])
  }

  function Insert(x: Name, s: seq<Name>): seq<Name> {
    if s == [] || Less(x, s[0]) then [x] + s else [s[0]] + Insert(x, s[1..])
  }

  /** `sort.Strings`, as far as its result goes. */
  function Sort(s: seq<Name>): seq<Name> {
    if s == [] then [] else Insert(s[|s| - 1], Sort(s[..|s| - 1]))
  }

  lemma {:induction false} InsertKeeps(x: Name, s: seq<Name>)
    requires Ascending(s) && x !in s
    ensures Ascending(Insert(x, s))
    ensures forall y :: y in Insert(x, s) <==> y == x || y in s
  {
    if s != [] {
      LessIsTotal(x, s[0]);
      if Less(x, s[0]) {
        forall k | 0 < k < |s| ensures Less(x, s[k]) {
          LessIsTransitive(x, s[0], s[k]);
        }
      } else {
        InsertKeeps(x, s[1..]);
        assert forall y :: y in Insert(x, s[1..]) ==> Less(s[0], y);
      }
    }
  }

  lemma {:induction false} SortKeeps(s: seq<Name>)
    requires forall i, j :: 0 <= i < j < |s| ==> s[i] != s[j]
    ensures Ascending(Sort(s))
    ensures forall y :: y in Sort(s) <==> y in s
  {
    if s != [] {
      SortKeeps(s[..|s| - 1]);
      InsertKeeps(s[|s| - 1], Sort(s[..|s| - 1]));
    }
  }

  /** A strictly ascending list is determined by the set of its elements. */
  lemma {:induction false} AscendingIsUnique(a: seq<Name>, b: seq<Name>)
    requires Ascending(a) && Ascending(b)
    requires forall y :: y in a <==> y in b
    ensures a == b
  {
    assert a != [] ==> a[0] in b;
    assert b != [] ==> b[0] in a;
    if a != [] {
      SmallestFirst(a, b);
      SmallestFirst(b, a);
      LessIsTotal(a[0], b[0]);
      LessIsTotal(a[0], a[0]);
      assert forall y :: y in a[1..] <==> y in a && y != a[0];
      assert forall y :: y in b[1..] <==> y in b && y != b[0];
      AscendingIsUnique(a[1..], b[1..]);
    }
  }

  lemma SmallestFirst(a: seq<Name>, b: seq<Name>)
    requires Ascending(a) && a != [] && b != [] && b[0] in a
    ensures a[0] == b[0] || Less(a[0], b[0])
  {
  }

  // ---- collect ----

  datatype ListError = TooMany

  /** `collect`, for an iterator that emits these names. */
  method Collect(emitted: seq<Option<Name>>) returns (r: Result<seq<Name>, ListError>)
    ensures r == if Run(emitted).overflow then Err(TooMany) else Ok(Sort(Run(emitted).items))
  {
    var list := new NameList();
    for i := 0 to |emitted|
      invariant list.Valid() && fresh(list) && fresh(list.items) && list.Contents() == Run(emitted[..i])
    {
      assert emitted[..i + 1][..i] == emitted[..i];
      list.Append(emitted[i]);
    }
    assert emitted[..|emitted|] == emitted;
    if list.overflow {
      return Err(TooMany);
    }
    var out: seq<Name> := [];
    for i := 0 to list.count
      invariant out == list.items[..i]
    {
      out := out + [list.items[i]];
    }
    r := Ok(Sort(out));
  }

  /** Without overflow the array holds each non-null name exactly once. */
  lemma {:induction false} RunCollects(emitted: seq<Option<Name>>)
    ensures var l := Run(emitted);
            && |l.items| <= MAX_NAMES
            && (forall i, j :: 0 <= i < j < |l.items| ==> l.items[i] != l.items[j])
            && (forall y :: y in l.items ==> y in Names(emitted))
            && (!l.overflow ==> forall y :: y in Names(emitted) ==> y in l.items)
  {
    if emitted != [] {
      var before := emitted[..|emitted| - 1];
      RunCollects(before);
      assert emitted == before + [emitted[|emitted| - 1]];
    }
  }

  lemma SizeOfItems(emitted: seq<Option<Name>>)
    requires !Run(emitted).overflow
    ensures |Run(emitted).items| == |Names(emitted)|
  {
    RunCollects(emitted);
    var items := Run(emitted).items;
    assert Names(emitted) == Elements(items);
    DistinctSize(items);
  }

  function Elements(s: seq<Name>): set<Name> {
    set y | y in s
  }

  lemma {:induction false} DistinctSize(s: seq<Name>)
    requires forall i, j :: 0 <= i < j < |s| ==> s[i] != s[j]
    ensures |Elements(s)| == |s|
  {
    if s != [] {
      DistinctSize(s[1..]);
      assert Elements(s) == {s[0]} + Elements(s[1..]);
    }
  }

  /** The list is complete, free of repetitions and in order whenever there is one. */
  lemma CollectIsExact(emitted: seq<Option<Name>>)
    requires !Run(emitted).overflow
    ensures Ascending(Sort(Run(emitted).items))
    ensures forall y :: y in Sort(Run(emitted).items) <==> y in Names(emitted)
  {
    RunCollects(emitted);
    SortKeeps(Run(emitted).items);
  }

  /** A name, repeated or not, meets a full array at position i. */
  predicate MeetsFull(emitted: seq<Option<Name>>, i: nat)
    requires i < |emitted|
  {
    emitted[i].Some? && |Names(emitted[..i])| >= 512
  }

  /** There is an error exactly when a name arrives after 512 different ones. */
  lemma {:induction false} OverflowExactly(emitted: seq<Option<Name>>)
    ensures Run(emitted).overflow <==> exists i: nat :: i < |emitted| && MeetsFull(emitted, i)
  {
    if emitted != [] {
      var n := |emitted| - 1;
      var before := emitted[..n];
      OverflowExactly(before);
      assert forall i: nat :: i < n ==> before[..i] == emitted[..i];
      assert forall i: nat :: i < n ==> (MeetsFull(before, i) <==> MeetsFull(emitted, i));
      if !Run(before).overflow {
        SizeOfItems(before);
        RunCollects(before);
        assert Run(emitted).overflow <==> MeetsFull(emitted, n);
      }
    }
  }

  /** More than 512 different names are always an error. */
  lemma TooManyIsAlwaysAnError(emitted: seq<Option<Name>>)
    requires |Names(emitted)| > 512
    ensures Run(emitted).overflow
  {
    if !Run(emitted).overflow {
      SizeOfItems(emitted);
      RunCollects(emitted);
    }
  }

  /** Not only more: a full array turns away even a name that it holds. */
  lemma FullArrayTurnsAwayARepeat(emitted: seq<Option<Name>>, name: Name)
    requires |Names(emitted)| == 512 && name in Names(emitted)
    ensures Names(emitted + [Some(name)]) == Names(emitted) && Run(emitted + [Some(name)]).overflow
  {
    var more := emitted + [Some(name)];
    assert more[..|emitted|] == emitted;
    assert MeetsFull(more, |emitted|);
    OverflowExactly(more);
  }

  /** The order and the repetitions of the iteration leave no trace. */
  lemma OrderLeavesNoTrace(a: seq<Option<Name>>, b: seq<Option<Name>>)
    requires Names(a) == Names(b) && !Run(a).overflow && !Run(b).overflow
    ensures Sort(Run(a).items) == Sort(Run(b).items)
  {
    CollectIsExact(a);
    CollectIsExact(b);
    AscendingIsUnique(Sort(Run(a).items), Sort(Run(b).items));
  }

  // ---- ListDigests and ListCiphers ----

  /** The names that this context can fetch, and no others: the sorted list of
      them, which there is only one of. */
  method ListFetchable(emitted: seq<Option<Name>>, available: Name -> bool) returns (r: Result<seq<Name>, ListError>)
    ensures r.Err? <==> exists i: nat :: i < |emitted| && MeetsFull(emitted, i)
    ensures r.Ok? ==> Ascending(r.value)
    ensures r.Ok? ==> forall y :: y in r.value <==> y in Names(emitted) && available(y)
  {
    OverflowExactly(emitted);
    var names := Collect(emitted);
    if names.Err? {
      return Err(names.error);
    }
    CollectIsExact(emitted);
    var all, out: seq<Name> := names.value, [];
    for i := 0 to |all|
      invariant Ascending(out)
      invariant forall y :: y in out <==> y in all[..i] && available(y)
    {
      assert forall y :: y in out ==> Less(y, all[i]);
      if available(all[i]) {
        out := out + [all[i]];
      }
    }
    r := Ok(out);
  }
}
