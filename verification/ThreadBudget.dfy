/** Argon2: its cost parameters, and the read-then-raise of a library context's
    thread budget by any number of concurrent calls. */
module ThreadBudget {
  import opened ByteStrings
  import opened Runs

  // ---- cost parameters ----

  const MAX_ITERATIONS := 10_000
  const MAX_MEMORY_KIB := 4 * 1024 * 1024
  const MAX_LANES := 1024
  const MAX_PBKDF2_ITERATIONS := 10_000_000

  datatype Costs = Costs(iterations: nat, memoryKiB: nat, lanes: nat)

  datatype CostError = UnknownVariant | TooManyIterations | TooMuchMemory | TooManyLanes | NotPositive

  /** A C unsigned int keeps the low 32 bits. */
  function CUint(v: int): nat {
    v % 0x1_0000_0000
  }

  /** The bounds and the defaults of `Argon2`; variants 0 to 2 have a name. */
  method CheckedCosts(variant: int, ap: Costs) returns (r: Result<Costs, CostError>)
    ensures r.Ok? <==>
              && 0 <= variant <= 2
              && ap.iterations <= 10_000 && ap.memoryKiB <= 4194304 && ap.lanes <= 1024
    ensures r.Ok? ==>
              && 1 <= r.value.iterations <= MAX_ITERATIONS
              && 1 <= r.value.memoryKiB <= MAX_MEMORY_KIB
              && 1 <= r.value.lanes <= MAX_LANES
              && (ap.iterations > 0 ==> r.value.iterations == ap.iterations)
              && (ap.iterations == 0 ==> r.value.iterations == 3)
              && (ap.memoryKiB > 0 ==> r.value.memoryKiB == ap.memoryKiB)
              && (ap.memoryKiB == 0 ==> r.value.memoryKiB == 65536)
              && (ap.lanes > 0 ==> r.value.lanes == ap.lanes) && (ap.lanes == 0 ==> r.value.lanes == 1)
              && CUint(r.value.iterations) == r.value.iterations
              && CUint(r.value.memoryKiB) == r.value.memoryKiB
              && CUint(r.value.lanes) == r.value.lanes
    ensures r == Err(UnknownVariant) <==> !(0 <= variant <= 2)
    ensures r.Err? && 0 <= variant <= 2 ==>
              r.error == if ap.iterations > 10_000 then TooManyIterations
                         else if ap.memoryKiB > 4194304 then TooMuchMemory
                         else TooManyLanes
  {
    if variant < 0 || variant > 2 {
      return Err(UnknownVariant);
    }
    if ap.iterations > MAX_ITERATIONS {
      return Err(TooManyIterations);
    }
    if ap.memoryKiB > MAX_MEMORY_KIB {
      return Err(TooMuchMemory);
    }
    if ap.lanes > MAX_LANES {
      return Err(TooManyLanes);
    }
    var costs := ap;
    if costs.iterations == 0 {
      costs := costs.(iterations := 3);
    }
    if costs.memoryKiB == 0 {
      costs := costs.(memoryKiB := 64 * 1024);
    }
    if costs.lanes == 0 {
      costs := costs.(lanes := 1);
    }
    r := Ok(costs);
  }

  /** `PBKDF2`'s bounds. */
  function Pbkdf2Iterations(iterations: int): Result<int, CostError> {
    if iterations <= 0 then Err(NotPositive)
    else if iterations > MAX_PBKDF2_ITERATIONS then Err(TooManyIterations)
    else Ok(CUint(iterations))
  }

  /** The count OpenSSL runs is the count that was asked for; without the sign
      check -1 would have become 2^32 - 1. */
  lemma Pbkdf2CountIsExact(iterations: int)
    ensures Pbkdf2Iterations(iterations).Ok? <==> 1 <= iterations <= 10_000_000
    ensures Pbkdf2Iterations(iterations).Ok? ==> Pbkdf2Iterations(iterations).value == iterations
    ensures CUint(-1) == 4294967295
  {
  }

  // ---- the budget protocol ----

  type Tid = nat
  type Ctx = nat

  datatype PC =
    | Idle
    | Waiting(c: Ctx, lanes: nat)
    | Locked(c: Ctx, lanes: nat)
    | Compared(c: Ctx, lanes: nat, raise: bool)
    | Unlocking(c: Ctx, lanes: nat, ok: bool)
    | Deriving(c: Ctx, lanes: nat)
    | Failed

  /** `budget` is what OpenSSL keeps per context, `granted` the lanes of every
      request that got past the raise, oldest first. */
  datatype State = State(budget: map<Ctx, nat>, granted: map<Ctx, seq<nat>>, lock: Option<Tid>, pcs: map<Tid, PC>)

  datatype Action = Call(c: Ctx, lanes: nat) | Lock | Compare | Raise(accepted: bool) | Unlock | Return

  datatype Move = Move(t: Tid, a: Action)

  function Pc(s: State, t: Tid): PC {
    if t in s.pcs then s.pcs[t] else Idle
  }

  function Budget(s: State, c: Ctx): nat {
    if c in s.budget then s.budget[c] else 0
  }

  function Granted(s: State, c: Ctx): seq<nat> {
    if c in s.granted then s.granted[c] else []
  }

  predicate Enabled(locked: bool, s: State, m: Move) {
    var pc := Pc(s, m.t);
    match m.a
    case Call(_, lanes) => (pc.Idle? || pc.Failed?) && 1 <= lanes <= MAX_LANES
    case Lock => pc.Waiting? && (locked ==> s.lock.None?)
    case Compare => pc.Locked?
    case Raise(_) => pc.Compared?
    case Unlock => pc.Unlocking?
    case Return => pc.Deriving?
  }

  function Goto(s: State, t: Tid, pc: PC): State {
    s.(pcs := s.pcs[t := pc])
  }

  function Grant(s: State, c: Ctx, lanes: nat): State {
    s.(granted := s.granted[c := Granted(s, c) + [lanes]])
  }

  function Do(s: State, m: Move): State {
    var t, pc := m.t, Pc(s, m.t);
    if !Enabled(false, s, m) then s
    else match m.a
    case Call(c, lanes) => Goto(s, t, if lanes > 1 then Waiting(c, lanes) else Deriving(c, lanes))
    case Lock => Goto(s, t, Locked(pc.c, pc.lanes)).(lock := Some(t))
    case Compare => Goto(s, t, Compared(pc.c, pc.lanes, Budget(s, pc.c) < pc.lanes))
    case Raise(accepted) =>
      if !pc.raise then Grant(Goto(s, t, Unlocking(pc.c, pc.lanes, true)), pc.c, pc.lanes)
      else if accepted then
        Grant(Goto(s, t, Unlocking(pc.c, pc.lanes, true)).(budget := s.budget[pc.c := pc.lanes]), pc.c, pc.lanes)
      else Goto(s, t, Unlocking(pc.c, pc.lanes, false))
    case Unlock => Goto(s, t, if pc.ok then Deriving(pc.c, pc.lanes) else Failed).(lock := None)
    case Return => Goto(s, t, Idle)
  }

  function Protocol(locked: bool): System<State, Move> {
    System((s, m) => Enabled(locked, s, m), Do)
  }

  predicate Holding(pc: PC) {
    pc.Locked? || pc.Compared? || pc.Unlocking?
  }

  predicate ThreadFacts(s: State, t: Tid) {
    var pc := Pc(s, t);
    && (s.lock == Some(t) <==> Holding(pc))
    && (pc.Waiting? || Holding(pc) ==> pc.lanes > 1)
    && (pc.Compared? ==> pc.raise == (Budget(s, pc.c) < pc.lanes))
    && (pc.Unlocking? && pc.ok ==> pc.lanes <= Budget(s, pc.c) && pc.lanes in Granted(s, pc.c))
    && (pc.Deriving? && pc.lanes > 1 ==> pc.lanes <= Budget(s, pc.c) && pc.lanes in Granted(s, pc.c))
  }

  function MaxOf(base: nat, requests: seq<nat>): nat {
    if requests == [] then base
    else
      var rest, last := MaxOf(base, requests[..|requests| - 1]), requests[|requests| - 1];
      if rest < last then last else rest
  }

  lemma {:induction false} MaxOfIsTheMaximum(base: nat, requests: seq<nat>)
    ensures MaxOf(base, requests) >= base && forall r :: r in requests ==> r <= MaxOf(base, requests)
    ensures MaxOf(base, requests) == base || MaxOf(base, requests) in requests
  {
    if requests != [] {
      var front, last := requests[..|requests| - 1], requests[|requests| - 1];
      MaxOfIsTheMaximum(base, front);
      assert requests == front + [last];
    }
  }

  ghost predicate Inv(start: map<Ctx, nat>, s: State) {
    && (forall t: Tid :: ThreadFacts(s, t))
    && (forall c: Ctx :: BudgetFacts(start, s, c))
  }

  predicate BudgetFacts(start: map<Ctx, nat>, s: State, c: Ctx) {
    Budget(s, c) == MaxOf(if c in start then start[c] else 0, Granted(s, c))
  }

  lemma StepKeepsThreadFacts(s: State, m: Move, t: Tid)
    requires ThreadFacts(s, t) && ThreadFacts(s, m.t) && Enabled(true, s, m)
    ensures ThreadFacts(Do(s, m), t)
  {
  }

  lemma StepKeepsBudgetFacts(start: map<Ctx, nat>, s: State, m: Move, c: Ctx)
    requires ThreadFacts(s, m.t) && BudgetFacts(start, s, c) && Enabled(true, s, m)
    ensures BudgetFacts(start, Do(s, m), c)
    ensures Budget(s, c) <= Budget(Do(s, m), c)
  {
    var s' := Do(s, m);
    if Granted(s', c) != Granted(s, c) {
      assert Granted(s', c)[..|Granted(s', c)| - 1] == Granted(s, c);
    }
  }

  lemma StepKeepsInv(start: map<Ctx, nat>, s: State, m: Move)
    requires Inv(start, s) && Enabled(true, s, m)
    ensures Inv(start, Do(s, m))
    ensures forall c: Ctx :: Budget(s, c) <= Budget(Do(s, m), c)
  {
    assert ThreadFacts(s, m.t);
    forall t: Tid ensures ThreadFacts(Do(s, m), t) {
      assert ThreadFacts(s, t);
      StepKeepsThreadFacts(s, m, t);
    }
    forall c: Ctx ensures BudgetFacts(start, Do(s, m), c) && Budget(s, c) <= Budget(Do(s, m), c) {
      assert BudgetFacts(start, s, c);
      StepKeepsBudgetFacts(start, s, m, c);
    }
  }

  function Init(start: map<Ctx, nat>): State {
    State(start, map[], None, map[])
  }

  ghost predicate NeverLower(a: State, b: State) {
    forall c: Ctx :: Budget(a, c) <= Budget(b, c)
  }

  lemma RunKeepsInv(start: map<Ctx, nat>, s: State, run: seq<Move>)
    requires Inv(start, s) && Legal(Protocol(true), s, run)
    ensures Inv(start, After(Protocol(true), s, run))
    ensures NeverLower(s, After(Protocol(true), s, run))
  {
    forall s: State, m: Move | Inv(start, s) && Enabled(true, s, m)
      ensures Inv(start, Do(s, m)) && NeverLower(s, Do(s, m))
    {
      StepKeepsInv(start, s, m);
    }
    Keeps(Protocol(true), s => Inv(start, s), s, run);
    Relates(Protocol(true), s => Inv(start, s), (a, b) => NeverLower(a, b), s, run);
  }

  /** In every interleaving: a thread that derives with more than one lane has
      the budget for them from then on, whatever runs next, no budget ever
      drops, and each ends as the maximum of its start and all granted requests. */
  lemma BudgetSuffices(start: map<Ctx, nat>, run: seq<Move>, later: seq<Move>, t: Tid, c: Ctx)
    requires Legal(Protocol(true), Init(start), run)
    requires Legal(Protocol(true), After(Protocol(true), Init(start), run), later)
    ensures var s := After(Protocol(true), Init(start), run);
            var s' := After(Protocol(true), s, later);
            && (Pc(s, t).Deriving? && Pc(s, t).lanes > 1 ==> Pc(s, t).lanes <= Budget(s', Pc(s, t).c))
            && Budget(s, c) <= Budget(s', c)
            && Budget(s, c) == MaxOf(if c in start then start[c] else 0, Granted(s, c))
  {
    var s0 := Init(start);
    assert forall t: Tid :: Pc(s0, t) == Idle;
    assert forall c: Ctx :: Granted(s0, c) == [];
    assert Inv(start, s0);
    RunKeepsInv(start, s0, run);
    var s := After(Protocol(true), s0, run);
    RunKeepsInv(start, s, later);
    var s' := After(Protocol(true), s, later);
    assert ThreadFacts(s, t) && BudgetFacts(start, s, c);
    assert NeverLower(s, s');
    if Pc(s, t).Deriving? {
      assert Budget(s, Pc(s, t).c) <= Budget(s', Pc(s, t).c);
    }
  }

  lemma Onwards(s: State, run: seq<Move>, m: Move) returns (longer: seq<Move>)
    requires Legal(Protocol(true), s, run) && Enabled(true, After(Protocol(true), s, run), m)
    ensures Legal(Protocol(true), s, longer)
    ensures After(Protocol(true), s, longer) == Do(After(Protocol(true), s, run), m)
  {
    longer := run + [m];
    Extended(Protocol(true), s, run, m);
  }

  /** From any state in which the lock is free, a call can run until it derives with
      the lanes it asked for, and leaves the budget at the larger of the two; one lane
      needs no budget. When OpenSSL turns the raise down, the call fails and the
      budget is as before. */
  lemma CallRuns(s: State, t: Tid, c: Ctx, lanes: nat, accepted: bool) returns (run: seq<Move>)
    requires (Pc(s, t).Idle? || Pc(s, t).Failed?) && s.lock.None? && 1 <= lanes <= 1024
    ensures Legal(Protocol(true), s, run)
    ensures var s', raises := After(Protocol(true), s, run), lanes > 1 && lanes > Budget(s, c);
            && s'.lock.None?
            && Pc(s', t) == (if raises && !accepted then Failed else Deriving(c, lanes))
            && s'.budget == (if raises && accepted then s.budget[c := lanes] else s.budget)
            && forall u: Tid :: u != t ==> Pc(s', u) == Pc(s, u)
  {
    run := Onwards(s, [], Move(t, Call(c, lanes)));
    if lanes > 1 {
      run := Onwards(s, run, Move(t, Lock));
      run := Onwards(s, run, Move(t, Compare));
      run := Onwards(s, run, Move(t, Raise(accepted)));
      run := Onwards(s, run, Move(t, Unlock));
    }
  }

  /** A call fails only because OpenSSL turned a raise down. */
  lemma {:induction false} FailsOnlyWhenRefused(s: State, run: seq<Move>, t: Tid)
    requires Legal(Protocol(true), s, run) && !Failing(Pc(s, t))
    requires forall m :: m in run ==> m.a != Raise(false)
    ensures !Failing(Pc(After(Protocol(true), s, run), t))
    decreases |run|
  {
    if run != [] {
      FailsOnlyWhenRefused(Do(s, run[0]), run[1..], t);
    }
  }

  predicate Failing(pc: PC) {
    pc.Failed? || (pc.Unlocking? && !pc.ok)
  }

  /** From its call on, a thread asks for, is granted and derives with the lanes and
      the context of that call. */
  lemma {:induction false} KeepsItsRequest(s: State, run: seq<Move>, t: Tid, c: Ctx, lanes: nat)
    requires Legal(Protocol(true), s, run) && Requests(Pc(s, t), c, lanes)
    requires forall m :: m in run && m.t == t ==> !m.a.Call?
    ensures Requests(Pc(After(Protocol(true), s, run), t), c, lanes)
    decreases |run|
  {
    if run != [] {
      KeepsItsRequest(Do(s, run[0]), run[1..], t, c, lanes);
    }
  }

  predicate Requests(pc: PC, c: Ctx, lanes: nat) {
    pc.Idle? || pc.Failed? || (pc.c == c && pc.lanes == lanes)
  }

  /** Without the lock the smaller of two requests can overwrite the larger one
      while the larger one derives. */
  lemma OverwrittenWithoutTheLock() returns (run: seq<Move>)
    ensures Legal(Protocol(false), Init(map[]), run)
    ensures var s := After(Protocol(false), Init(map[]), run);
            Pc(s, 0) == Deriving(0, 8) && Budget(s, 0) == 4
  {
    run := [];
    run := Then(run, Move(0, Call(0, 8)));
    run := Then(run, Move(0, Lock));
    run := Then(run, Move(0, Compare));
    run := Then(run, Move(1, Call(0, 4)));
    run := Then(run, Move(1, Lock));
    run := Then(run, Move(1, Compare));
    run := Then(run, Move(0, Raise(true)));
    run := Then(run, Move(0, Unlock));
    run := Then(run, Move(1, Raise(true)));
  }

  lemma Then(run: seq<Move>, m: Move) returns (longer: seq<Move>)
    requires Legal(Protocol(false), Init(map[]), run) && Enabled(false, After(Protocol(false), Init(map[]), run), m)
    ensures Legal(Protocol(false), Init(map[]), longer)
    ensures After(Protocol(false), Init(map[]), longer) == Do(After(Protocol(false), Init(map[]), run), m)
  {
    longer := run + [m];
    Extended(Protocol(false), Init(map[]), run, m);
  }
}
