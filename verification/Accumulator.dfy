/** What `Hash` and `MAC` share: bytes accumulate in a context, a sum finalises a
    copy of it, and errors that have no return path are latched. */
module Accumulator {
  import opened ByteStrings

  datatype SumError = Closed | Extendable | UpdateFailed | CopyFailed | FinalFailed | InitFailed

  /** Whether the library refuses a call and, if it does, what it leaves in the
      context: anything at all. */
  datatype Reply = Accepted | Refused(left: Bytes)

  /** A latched error value. `ErrClosed` is one value for the whole package; every
      other error is made when the call fails, the `id`-th one on its handle. */
  datatype Latched = ClosedSentinel | Made(kind: SumError, id: nat)

  /** `content` is what the context has absorbed, `made` counts the errors made. */
  datatype State = State(open: bool, content: Bytes, err: Option<Latched>, made: nat)

  function Latch(s: State, kind: SumError): State {
    s.(err := Some(Made(kind, s.made)), made := s.made + 1)
  }

  function Write(s: State, p: Bytes, reply: Reply): (State, Result<nat, SumError>) {
    if !s.open then (s, Err(Closed))
    else if p == [] then (s, Ok(0))
    else if reply.Accepted? then (s.(content := s.content + p), Ok(|p|))
    else (Latch(s.(content := reply.left), UpdateFailed), Err(UpdateFailed))
  }

  /** `fault` is the error of the first refused call, if any. */
  function Sum(s: State, finish: Bytes -> Bytes, b: Bytes, fault: Option<SumError>): (State, Bytes) {
    if !s.open then (s.(err := Some(ClosedSentinel)), b)
    else if fault.Some? then (Latch(s, fault.value), b)
    else (s, b + finish(s.content))
  }

  function Reset(s: State, reply: Reply): State {
    if !s.open then s
    else if reply.Accepted? then s.(content := [])
    else Latch(s.(content := reply.left), InitFailed)
  }

  function Close(s: State): State {
    s.(open := false, content := [])
  }

  /** Every outcome of a write: the closed error exactly on a closed handle, the
      refusal exactly for bytes the library turned down, and otherwise the count of
      all the bytes, which the content has gained; only a refusal latches. */
  lemma WriteAnswers(s: State, p: Bytes, reply: Reply)
    ensures var (s', r) := Write(s, p, reply);
            && (r == Err(Closed) <==> !s.open)
            && (r == Err(UpdateFailed) <==> s.open && p != [] && reply.Refused?)
            && (r.Ok? <==> s.open && (p == [] || reply.Accepted?))
            && (r.Ok? ==> r.value == |p| && s' == s.(content := s.content + p))
            && (r == Err(Closed) ==> s' == s)
            && (r == Err(UpdateFailed) ==> s'.open && s'.err == Some(Made(UpdateFailed, s.made)))
  {
    assert p == [] ==> s.content + p == s.content;
  }

  // ---- runs of calls on one handle ----

  datatype Op =
    | OpWrite(p: Bytes, reply: Reply)
    | OpSum(b: Bytes, fault: Option<SumError>)
    | OpReset(reply: Reply)
    | OpClose

  function Step(s: State, finish: Bytes -> Bytes, op: Op): State {
    match op
    case OpWrite(p, reply) => Write(s, p, reply).0
    case OpSum(b, fault) => Sum(s, finish, b, fault).0
    case OpReset(reply) => Reset(s, reply)
    case OpClose => Close(s)
  }

  function Run(s: State, finish: Bytes -> Bytes, ops: seq<Op>): State {
    if ops == [] then s else Step(Run(s, finish, ops[..|ops| - 1]), finish, ops[|ops| - 1])
  }

  const FRESH := State(true, [], None, 0)

  function After(finish: Bytes -> Bytes, ops: seq<Op>): State {
    Run(FRESH, finish, ops)
  }

  // ---- what can be read off the calls alone ----

  predicate StillOpen(ops: seq<Op>) {
    OpClose !in ops
  }

  /** A call that the library refused, after which the context may hold anything. */
  predicate Spoils(op: Op) {
    (op.OpWrite? && op.p != [] && op.reply.Refused?) || (op.OpReset? && op.reply.Refused?)
  }

  /** No write and no reset since the last successful reset was refused. */
  predicate Clean(ops: seq<Op>) {
    if ops == [] then true
    else
      var before, last := ops[..|ops| - 1], ops[|ops| - 1];
      if last.OpReset? && last.reply.Accepted? then true else !Spoils(last) && Clean(before)
  }

  /** The concatenation of the successful writes since the last successful reset. */
  function Written(ops: seq<Op>): Bytes {
    if ops == [] then []
    else
      var before, last := ops[..|ops| - 1], ops[|ops| - 1];
      match last
      case OpWrite(p, reply) => Written(before) + if reply.Accepted? then p else []
      case OpReset(reply) => if reply.Accepted? then [] else Written(before)
      case _ => Written(before)
  }

  /** The kind of error that a call latches. A write on a closed handle returns its
      error and latches none. */
  function Latches(open: bool, op: Op): Option<SumError> {
    match op
    case OpWrite(p, reply) => if open && p != [] && reply.Refused? then Some(UpdateFailed) else None
    case OpSum(_, fault) => if open then fault else Some(Closed)
    case OpReset(reply) => if open && reply.Refused? then Some(InitFailed) else None
    case OpClose => None
  }

  function MadeIn(errors: seq<Latched>): nat {
    if errors == [] then 0
    else MadeIn(errors[..|errors| - 1]) + if errors[|errors| - 1].Made? then 1 else 0
  }

  /** The error value that a call latches, after those latched before it. */
  function LatchedBy(earlier: seq<Latched>, open: bool, op: Op): Option<Latched> {
    match Latches(open, op)
    case None => None
    case Some(kind) => Some(if open then Made(kind, MadeIn(earlier)) else ClosedSentinel)
  }

  /** All latched errors, oldest first. */
  function Errors(ops: seq<Op>): seq<Latched> {
    if ops == [] then []
    else
      var before, last := ops[..|ops| - 1], ops[|ops| - 1];
      var e := LatchedBy(Errors(before), StillOpen(before), last);
      if e.None? then Errors(before) else Errors(before) + [e.value]
  }

  function Latest(errors: seq<Latched>): Option<Latched> {
    if errors == [] then None else Some(errors[|errors| - 1])
  }

  lemma {:induction false} OpenUntilClosed(finish: Bytes -> Bytes, ops: seq<Op>)
    ensures After(finish, ops).open <==> StillOpen(ops)
  {
    if ops != [] {
      OpenUntilClosed(finish, ops[..|ops| - 1]);
      assert ops == ops[..|ops| - 1] + [ops[|ops| - 1]];
    }
  }

  // ---- Err ----

  lemma StepLatches(s: State, finish: Bytes -> Bytes, op: Op)
    ensures var s', kind := Step(s, finish, op), Latches(s.open, op);
            && (kind.None? ==> s'.err == s.err && s'.made == s.made)
            && (kind.Some? && s.open ==> s'.err == Some(Made(kind.value, s.made)) && s'.made == s.made + 1)
            && (kind.Some? && !s.open ==> s'.err == Some(ClosedSentinel) && s'.made == s.made)
  {
  }

  /** What `Err` reports at the end of any run is the latest latched error. */
  lemma {:induction false} ErrIsTheLatest(finish: Bytes -> Bytes, ops: seq<Op>)
    ensures After(finish, ops).err == Latest(Errors(ops))
    ensures After(finish, ops).made == MadeIn(Errors(ops))
  {
    if ops != [] {
      var before, last := ops[..|ops| - 1], ops[|ops| - 1];
      ErrIsTheLatest(finish, before);
      OpenUntilClosed(finish, before);
      StepLatches(After(finish, before), finish, last);
      var e := LatchedBy(Errors(before), StillOpen(before), last);
      if e.Some? {
        OneMoreMade(Errors(before), e.value);
      }
    }
  }

  lemma OneMoreMade(errors: seq<Latched>, e: Latched)
    ensures MadeIn(errors + [e]) == MadeIn(errors) + if e.Made? then 1 else 0
  {
    assert (errors + [e])[..|errors|] == errors;
  }

  lemma {:induction false} ErrorsGrow(ops: seq<Op>, i: nat)
    requires i <= |ops|
    ensures Errors(ops[..i]) <= Errors(ops)
  {
    if i < |ops| {
      assert ops[..|ops| - 1][..i] == ops[..i];
      ErrorsGrow(ops[..|ops| - 1], i);
    } else {
      assert ops[..i] == ops;
    }
  }

  /** No call after the first failing one latched another error. */
  predicate NoOther(errors: seq<Latched>) {
    forall k :: 0 <= k < |errors| ==> errors[k] == errors[0]
  }

  /** The first i calls latched no error, or `Err` reports the first one after them. */
  predicate ReportsFirst(finish: Bytes -> Bytes, ops: seq<Op>, i: nat)
    requires i <= |ops| && Errors(ops) != []
  {
    Errors(ops[..i]) != [] ==> After(finish, ops[..i]).err == Some(Errors(ops)[0])
  }

  /** `Err` is the first latched error, as documented, at the end of a run and at
      every point of it, exactly when no later call latched another. */
  lemma ErrIsTheFirstIff(finish: Bytes -> Bytes, ops: seq<Op>)
    requires Errors(ops) != []
    ensures After(finish, ops).err == Some(Errors(ops)[0]) <==> NoOther(Errors(ops))
    ensures (forall i: nat :: i <= |ops| ==> ReportsFirst(finish, ops, i)) <==> NoOther(Errors(ops))
  {
    ErrIsTheLatest(finish, ops);
    SameAtBothEnds(ops);
    if NoOther(Errors(ops)) {
      forall i: nat | i <= |ops| ensures ReportsFirst(finish, ops, i) {
        ErrorsGrow(ops, i);
        ErrIsTheLatest(finish, ops[..i]);
      }
    } else {
      assert ops[..|ops|] == ops;
      assert !ReportsFirst(finish, ops, |ops|);
    }
  }

  /** That is: when one call failed, or the handle was closed before the first
      failure. */
  lemma NoOtherIff(ops: seq<Op>)
    requires Errors(ops) != []
    ensures NoOther(Errors(ops)) <==> |Errors(ops)| == 1 || Errors(ops)[0].ClosedSentinel?
  {
    ErrorShapes(ops);
    var errors := Errors(ops);
    if NoOther(errors) && |errors| > 1 {
      assert errors[1] == errors[0];
    }
  }

  lemma SameAtBothEnds(ops: seq<Op>)
    requires Errors(ops) != []
    ensures Errors(ops)[|Errors(ops)| - 1] == Errors(ops)[0] <==> NoOther(Errors(ops))
  {
    ErrorShapes(ops);
  }

  /** The errors made on a handle are all different, and after `ErrClosed` only
      `ErrClosed` is latched. */
  predicate WellShaped(errors: seq<Latched>, open: bool) {
    && (forall i, j :: 0 <= i < j < |errors| && errors[i] == errors[j] ==> errors[i].ClosedSentinel?)
    && (forall i, j :: 0 <= i < j < |errors| && errors[i].ClosedSentinel? ==> errors[j].ClosedSentinel?)
    && (forall i :: 0 <= i < |errors| && errors[i].Made? ==> errors[i].id < MadeIn(errors))
    && (open ==> forall i :: 0 <= i < |errors| ==> errors[i].Made?)
  }

  lemma OneMoreShaped(errors: seq<Latched>, open: bool, e: Latched)
    requires WellShaped(errors, open)
    requires e == ClosedSentinel || (open && e.Made? && e.id == MadeIn(errors))
    ensures WellShaped(errors + [e], open && e.Made?)
  {
    OneMoreMade(errors, e);
  }

  lemma {:induction false} ErrorShapes(ops: seq<Op>)
    ensures WellShaped(Errors(ops), StillOpen(ops))
  {
    if ops != [] {
      var before, last := ops[..|ops| - 1], ops[|ops| - 1];
      ErrorShapes(before);
      assert ops == before + [last];
      var e := LatchedBy(Errors(before), StillOpen(before), last);
      if e.Some? {
        OneMoreShaped(Errors(before), StillOpen(before), e.value);
      }
    }
  }

  lemma OneMoreError(ops: seq<Op>, op: Op)
    ensures var e := LatchedBy(Errors(ops), StillOpen(ops), op);
            Errors(ops + [op]) == if e.None? then Errors(ops) else Errors(ops) + [e.value]
  {
    assert (ops + [op])[..|ops|] == ops;
  }

  lemma RefusedFirst(w: Op)
    requires w == OpWrite([1], Refused([]))
    ensures Errors([w]) == [Made(UpdateFailed, 0)] && MadeIn(Errors([w])) == 1 && StillOpen([w])
  {
    OneMoreError([], w);
    OneMoreMade([], Made(UpdateFailed, 0));
    assert [] + [w] == [w];
    assert [] + [Made(UpdateFailed, 0)] == [Made(UpdateFailed, 0)];
  }

  /** After a refused write any failure leaves another error than the first one in
      `Err`, another refused write included. */
  lemma LatestErrorWins(finish: Bytes -> Bytes, w: Op, op: Op)
    requires w == OpWrite([1], Refused([])) && Latches(true, op).Some?
    ensures Errors([w] + [op])[0] == Made(UpdateFailed, 0)
    ensures After(finish, [w] + [op]).err == Some(Made(Latches(true, op).value, 1))
  {
    RefusedFirst(w);
    OneMoreError([w], op);
    ErrIsTheLatest(finish, [w] + [op]);
  }

  // ---- sums ----

  /** What the i-th call returned, if it was a sum. */
  function SumAt(finish: Bytes -> Bytes, ops: seq<Op>, i: nat): Bytes
    requires i < |ops| && ops[i].OpSum?
  {
    Sum(After(finish, ops[..i]), finish, ops[i].b, ops[i].fault).1
  }

  lemma {:induction false} CleanContent(finish: Bytes -> Bytes, ops: seq<Op>)
    requires StillOpen(ops) && Clean(ops)
    ensures After(finish, ops).content == Written(ops)
  {
    if ops != [] {
      var before, last := ops[..|ops| - 1], ops[|ops| - 1];
      OpenUntilClosed(finish, before);
      if !(last.OpReset? && last.reply.Accepted?) {
        CleanContent(finish, before);
      }
    }
  }

  /** A sum that no call refused returns its argument followed by the digest of the
      successful writes since the last successful reset, whatever failed before
      that reset, and leaves the state as it was. */
  lemma SumIsComplete(finish: Bytes -> Bytes, ops: seq<Op>, i: nat)
    requires i < |ops| && ops[i].OpSum? && ops[i].fault.None?
    requires StillOpen(ops[..i]) && Clean(ops[..i])
    ensures SumAt(finish, ops, i) == ops[i].b + finish(Written(ops[..i]))
    ensures After(finish, ops[..i + 1]) == After(finish, ops[..i])
  {
    OpenUntilClosed(finish, ops[..i]);
    CleanContent(finish, ops[..i]);
    assert ops[..i + 1][..i] == ops[..i];
  }

  /** The same calls with the same outcomes; only what refused calls leave behind
      may differ. */
  predicate SameOutcomes(a: Op, b: Op) {
    match a
    case OpWrite(p, reply) => b.OpWrite? && b.p == p && b.reply.Accepted? == reply.Accepted?
    case OpReset(reply) => b.OpReset? && b.reply.Accepted? == reply.Accepted?
    case _ => a == b
  }

  ghost predicate Alike(a: seq<Op>, b: seq<Op>) {
    |a| == |b| && forall i :: 0 <= i < |a| ==> SameOutcomes(a[i], b[i])
  }

  lemma {:induction false} AlikeReads(a: seq<Op>, b: seq<Op>)
    requires Alike(a, b)
    ensures (StillOpen(a) <==> StillOpen(b)) && (Clean(a) <==> Clean(b)) && Written(a) == Written(b)
  {
    if a != [] {
      AlikeReads(a[..|a| - 1], b[..|b| - 1]);
      assert a == a[..|a| - 1] + [a[|a| - 1]] && b == b[..|b| - 1] + [b[|b| - 1]];
    }
  }

  /** While a handle is open, its context is sure to hold the successful writes
      exactly when the calls are clean. */
  lemma SureExactlyWhenClean(finish: Bytes -> Bytes, ops: seq<Op>)
    requires StillOpen(ops)
    ensures Clean(ops) <==> forall other :: Alike(ops, other) ==> After(finish, other).content == Written(ops)
  {
    if Clean(ops) {
      forall other | Alike(ops, other) ensures After(finish, other).content == Written(ops) {
        AlikeReads(ops, other);
        CleanContent(finish, other);
      }
    } else {
      var other := Spoilt(finish, ops);
    }
  }

  lemma Cancels(x: Bytes, y: Bytes, z: Bytes)
    ensures x + z == y + z ==> x == y
  {
    if x + z == y + z {
      assert x == (x + z)[..|x|] && y == (y + z)[..|y|];
    }
  }

  lemma OneMore(finish: Bytes -> Bytes, ops: seq<Op>, op: Op)
    ensures After(finish, ops + [op]) == Step(After(finish, ops), finish, op)
  {
    assert (ops + [op])[..|ops|] == ops;
  }

  lemma {:induction false} Spoilt(finish: Bytes -> Bytes, ops: seq<Op>) returns (other: seq<Op>)
    requires StillOpen(ops) && !Clean(ops)
    ensures Alike(ops, other) && After(finish, other).content != Written(ops)
  {
    var before, last := ops[..|ops| - 1], ops[|ops| - 1];
    OpenUntilClosed(finish, before);
    if Spoils(last) {
      var left := Refused(Written(before) + [0]);
      var op := if last.OpWrite? then OpWrite(last.p, left) else OpReset(left);
      other := before + [op];
      OneMore(finish, before, op);
    } else {
      var earlier := Spoilt(finish, before);
      other := earlier + [last];
      OneMore(finish, earlier, last);
      AlikeReads(before, earlier);
      OpenUntilClosed(finish, earlier);
      if last.OpWrite? {
        Cancels(After(finish, earlier).content, Written(before), last.p);
      }
    }
  }

  /** If `Err` is nil at the end of a run, every sum in it was complete. */
  lemma NilErrMeansEverySumWasComplete(finish: Bytes -> Bytes, ops: seq<Op>, i: nat)
    requires After(finish, ops).err.None?
    requires i < |ops| && ops[i].OpSum?
    ensures SumAt(finish, ops, i) == ops[i].b + finish(Written(ops[..i]))
  {
    ErrIsTheLatest(finish, ops);
    ErrorsGrow(ops, i);
    ErrorsGrow(ops, i + 1);
    assert ops[..i + 1][..i] == ops[..i];
    NoErrorsIsClean(ops[..i]);
    SumIsComplete(finish, ops, i);
  }

  lemma {:induction false} NoErrorsIsClean(ops: seq<Op>)
    requires Errors(ops) == [] && StillOpen(ops)
    ensures Clean(ops)
  {
    if ops != [] {
      NoErrorsIsClean(ops[..|ops| - 1]);
    }
  }

  /** A failing sum returns only its argument, and shows in `Err` for the rest of
      the run. */
  lemma FailedSumStaysVisible(finish: Bytes -> Bytes, ops: seq<Op>, i: nat)
    requires i < |ops| && ops[i].OpSum? && Latches(StillOpen(ops[..i]), ops[i]).Some?
    ensures SumAt(finish, ops, i) == ops[i].b && After(finish, ops).err.Some?
  {
    OpenUntilClosed(finish, ops[..i]);
    ErrIsTheLatest(finish, ops);
    ErrorsGrow(ops, i + 1);
    assert ops[..i + 1][..i] == ops[..i];
  }

  /** So does every sum that returns only its argument, when no digest is empty. */
  lemma BareSumStaysVisible(finish: Bytes -> Bytes, ops: seq<Op>, i: nat)
    requires i < |ops| && ops[i].OpSum?
    requires forall x :: finish(x) != []
    requires SumAt(finish, ops, i) == ops[i].b
    ensures After(finish, ops).err.Some?
  {
    OpenUntilClosed(finish, ops[..i]);
    FailedSumStaysVisible(finish, ops, i);
  }
}
