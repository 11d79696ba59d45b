/** `Context.probe`: a memo looked up and filled under a mutex, with the question
    itself run outside it. The provider set is fixed, so a run of a question
    always has the answer `truth` gives. */
module Probe {
  import opened ByteStrings
  import opened Runs

  type Tid = nat
  type Key = string

  /** `None` is success, as a nil error is. */
  type Answer = Option<string>

  datatype PC =
    | Idle
    | WantLookup(key: Key)
    | LookingUp(key: Key)
    | Hit(key: Key, answer: Answer)
    | Missed(key: Key)
    | MustRun(key: Key)
    | HasRun(key: Key, answer: Answer)
    | Storing(key: Key, answer: Answer)
    | Stored(key: Key, answer: Answer)
    | Returned(key: Key, answer: Answer)

  datatype State = State(probes: map<Key, Answer>, lock: Option<Tid>, pcs: map<Tid, PC>, executed: map<Key, nat>)

  datatype Action = Ask(key: Key) | Lock | Lookup | UnlockHit | UnlockMiss | Run | LockAgain | Store | UnlockAgain

  datatype Move = Move(t: Tid, a: Action)

  const INIT := State(map[], None, map[], map[])

  function Pc(s: State, t: Tid): PC {
    if t in s.pcs then s.pcs[t] else Idle
  }

  function Executed(s: State, k: Key): nat {
    if k in s.executed then s.executed[k] else 0
  }

  predicate Enabled(s: State, m: Move) {
    var pc := Pc(s, m.t);
    match m.a
    case Ask(_) => pc.Idle? || pc.Returned?
    case Lock => pc.WantLookup? && s.lock.None?
    case Lookup => pc.LookingUp?
    case UnlockHit => pc.Hit?
    case UnlockMiss => pc.Missed?
    case Run => pc.MustRun?
    case LockAgain => pc.HasRun? && s.lock.None?
    case Store => pc.Storing?
    case UnlockAgain => pc.Stored?
  }

  function Goto(s: State, t: Tid, pc: PC): State {
    s.(pcs := s.pcs[t := pc])
  }

  function Do(truth: Key -> Answer, s: State, m: Move): State {
    var t, pc := m.t, Pc(s, m.t);
    if !Enabled(s, m) then s
    else match m.a
    case Ask(key) => Goto(s, t, WantLookup(key))
    case Lock => Goto(s, t, LookingUp(pc.key)).(lock := Some(t))
    case Lookup => Goto(s, t, if pc.key in s.probes then Hit(pc.key, s.probes[pc.key]) else Missed(pc.key))
    case UnlockHit => Goto(s, t, Returned(pc.key, pc.answer)).(lock := None)
    case UnlockMiss => Goto(s, t, MustRun(pc.key)).(lock := None)
    case Run => Goto(s, t, HasRun(pc.key, truth(pc.key))).(executed := s.executed[pc.key := Executed(s, pc.key) + 1])
    case LockAgain => Goto(s, t, Storing(pc.key, pc.answer)).(lock := Some(t))
    case Store => Goto(s, t, Stored(pc.key, pc.answer)).(probes := s.probes[pc.key := pc.answer])
    case UnlockAgain => Goto(s, t, Returned(pc.key, pc.answer)).(lock := None)
  }

  function Protocol(truth: Key -> Answer): System<State, Move> {
    System(Enabled, (s, m) => Do(truth, s, m))
  }

  // ---- answers are right and stay ----

  predicate Holding(pc: PC) {
    pc.LookingUp? || pc.Hit? || pc.Missed? || pc.Storing? || pc.Stored?
  }

  predicate Answered(pc: PC) {
    pc.Hit? || pc.HasRun? || pc.Storing? || pc.Stored? || pc.Returned?
  }

  predicate ThreadFacts(truth: Key -> Answer, s: State, t: Tid) {
    var pc := Pc(s, t);
    && (s.lock == Some(t) <==> Holding(pc))
    && (Answered(pc) ==> pc.answer == truth(pc.key))
    && (pc.Hit? || pc.Stored? || pc.Returned? ==> pc.key in s.probes)
  }

  ghost predicate Inv(truth: Key -> Answer, s: State) {
    && (forall t: Tid :: ThreadFacts(truth, s, t))
    && (forall k :: k in s.probes ==> s.probes[k] == truth(k))
  }

  ghost predicate Remembers(a: State, b: State) {
    forall k :: k in a.probes ==> k in b.probes
  }

  lemma StepKeepsThreadFacts(truth: Key -> Answer, s: State, m: Move, t: Tid)
    requires ThreadFacts(truth, s, t) && ThreadFacts(truth, s, m.t) && Enabled(s, m)
    requires forall k :: k in s.probes ==> s.probes[k] == truth(k)
    ensures ThreadFacts(truth, Do(truth, s, m), t)
  {
  }

  lemma StepKeepsInv(truth: Key -> Answer, s: State, m: Move)
    requires Inv(truth, s) && Enabled(s, m)
    ensures Inv(truth, Do(truth, s, m)) && Remembers(s, Do(truth, s, m))
  {
    assert ThreadFacts(truth, s, m.t);
    forall t: Tid ensures ThreadFacts(truth, Do(truth, s, m), t) {
      assert ThreadFacts(truth, s, t);
      StepKeepsThreadFacts(truth, s, m, t);
    }
  }

  lemma RunKeepsInv(truth: Key -> Answer, s: State, run: seq<Move>)
    requires Inv(truth, s) && Legal(Protocol(truth), s, run)
    ensures Inv(truth, After(Protocol(truth), s, run)) && Remembers(s, After(Protocol(truth), s, run))
  {
    forall s: State, m: Move | Inv(truth, s) && Enabled(s, m)
      ensures Inv(truth, Do(truth, s, m)) && Remembers(s, Do(truth, s, m))
    {
      StepKeepsInv(truth, s, m);
    }
    Keeps(Protocol(truth), s => Inv(truth, s), s, run);
    Relates(Protocol(truth), s => Inv(truth, s), (a, b) => Remembers(a, b), s, run);
  }

  lemma InitialInv(truth: Key -> Answer)
    ensures Inv(truth, INIT)
  {
    assert forall t: Tid :: Pc(INIT, t) == Idle;
  }

  /** In every interleaving each stored and each returned answer is what a direct
      run gives, a returned question is in the memo, and it stays there with the
      same answer whatever runs next. */
  lemma AnswersAreDirectRuns(truth: Key -> Answer, run: seq<Move>, later: seq<Move>, t: Tid, k: Key)
    requires Legal(Protocol(truth), INIT, run)
    requires Legal(Protocol(truth), After(Protocol(truth), INIT, run), later)
    ensures var s := After(Protocol(truth), INIT, run);
            var s' := After(Protocol(truth), s, later);
            && (k in s.probes ==> s.probes[k] == truth(k) && k in s'.probes && s'.probes[k] == truth(k))
            && (Pc(s, t).Returned? ==> Pc(s, t).answer == truth(Pc(s, t).key) && Pc(s, t).key in s.probes)
  {
    InitialInv(truth);
    RunKeepsInv(truth, INIT, run);
    var s := After(Protocol(truth), INIT, run);
    RunKeepsInv(truth, s, later);
    assert ThreadFacts(truth, s, t);
  }

  /** From any state in which the lock is free, a question can run to its answer. It is
      run exactly if it is not in the memo, and it is in the memo afterwards. */
  lemma QuestionRuns(truth: Key -> Answer, s: State, t: Tid, k: Key) returns (run: seq<Move>)
    requires (Pc(s, t).Idle? || Pc(s, t).Returned?) && s.lock.None?
    requires k in s.probes ==> s.probes[k] == truth(k)
    ensures Legal(Protocol(truth), s, run)
    ensures var s' := After(Protocol(truth), s, run);
            && s'.lock.None? && Pc(s', t) == Returned(k, truth(k))
            && s'.probes.Keys == s.probes.Keys + {k} && s'.probes[k] == truth(k)
            && Executed(s', k) == Executed(s, k) + (if k in s.probes then 0 else 1)
  {
    run := LooksUp(truth, s, t, k);
    if k in s.probes {
      run := Onwards(truth, s, run, Move(t, UnlockHit));
    } else {
      run := Onwards(truth, s, run, Move(t, UnlockMiss));
      run := Onwards(truth, s, run, Move(t, Run));
      run := Stores(truth, s, run, t, k);
    }
  }

  lemma LooksUp(truth: Key -> Answer, s: State, t: Tid, k: Key) returns (run: seq<Move>)
    requires (Pc(s, t).Idle? || Pc(s, t).Returned?) && s.lock.None?
    ensures Legal(Protocol(truth), s, run)
    ensures var s' := After(Protocol(truth), s, run);
            && Pc(s', t) == (if k in s.probes then Hit(k, s.probes[k]) else Missed(k))
            && s'.probes == s.probes && s'.executed == s.executed
  {
    run := Onwards(truth, s, [], Move(t, Ask(k)));
    run := Onwards(truth, s, run, Move(t, Lock));
    run := Onwards(truth, s, run, Move(t, Lookup));
  }

  lemma Stores(truth: Key -> Answer, s: State, before: seq<Move>, t: Tid, k: Key) returns (run: seq<Move>)
    requires Legal(Protocol(truth), s, before)
    requires var ran := After(Protocol(truth), s, before); ran.lock.None? && Pc(ran, t) == HasRun(k, truth(k))
    ensures Legal(Protocol(truth), s, run)
    ensures var ran, s' := After(Protocol(truth), s, before), After(Protocol(truth), s, run);
            && s'.lock.None? && Pc(s', t) == Returned(k, truth(k)) && s'.executed == ran.executed
            && s'.probes == ran.probes[k := truth(k)]
  {
    run := Onwards(truth, s, before, Move(t, LockAgain));
    run := Onwards(truth, s, run, Move(t, Store));
    run := Onwards(truth, s, run, Move(t, UnlockAgain));
  }

  lemma Onwards(truth: Key -> Answer, s: State, run: seq<Move>, m: Move) returns (longer: seq<Move>)
    requires Legal(Protocol(truth), s, run) && Enabled(After(Protocol(truth), s, run), m)
    ensures Legal(Protocol(truth), s, longer)
    ensures After(Protocol(truth), s, longer) == Do(truth, After(Protocol(truth), s, run), m)
  {
    longer := run + [m];
    Extended(Protocol(truth), s, run, m);
  }

  // ---- how often a question is run ----

  /** Between the lookup that missed and the store. */
  predicate Pending(pc: PC, k: Key) {
    (pc.Missed? || pc.MustRun? || pc.HasRun? || pc.Storing?) && pc.key == k
  }

  predicate Ran(pc: PC, k: Key) {
    (pc.HasRun? || pc.Storing?) && pc.key == k
  }

  /** No two threads are after the answer to k at once. */
  ghost predicate NoDuplicate(s: State, k: Key) {
    forall t: Tid, u: Tid :: Asking(Pc(s, t), k) && Asking(Pc(s, u), k) ==> t == u
  }

  predicate Asking(pc: PC, k: Key) {
    !pc.Idle? && !pc.Returned? && pc.key == k
  }

  /** Once stored nobody is pending; before, it was run only by the pending thread. */
  ghost predicate RunsOnce(s: State, k: Key) {
    && (k in s.probes ==> Executed(s, k) <= 1 && forall t: Tid :: !Pending(Pc(s, t), k))
    && (k !in s.probes ==> Executed(s, k) <= 1 && (Executed(s, k) == 1 ==> exists t: Tid :: Ran(Pc(s, t), k)))
  }

  ghost predicate AllAlong(truth: Key -> Answer, s: State, run: seq<Move>, k: Key)
    decreases |run|
  {
    NoDuplicate(s, k) && (run != [] ==> AllAlong(truth, Do(truth, s, run[0]), run[1..], k))
  }

  /** What one move changes as far as k is concerned. */
  lemma MoveOnKey(truth: Key -> Answer, s: State, m: Move, k: Key)
    requires Enabled(s, m)
    ensures var s', pc, pc' := Do(truth, s, m), Pc(s, m.t), Pc(Do(truth, s, m), m.t);
            var runs, stores := m.a.Run? && pc.key == k, m.a.Store? && pc.key == k;
            && Executed(s', k) == Executed(s, k) + (if runs then 1 else 0)
            && (k in s'.probes <==> k in s.probes || stores)
            && (runs ==> Pending(pc, k) && !Ran(pc, k) && Ran(pc', k))
            && (stores ==> Ran(pc, k) && !Pending(pc', k))
            && (Ran(pc, k) && !stores ==> Ran(pc', k))
            && (Pending(pc', k) ==> Pending(pc, k) || (k !in s.probes && Asking(pc, k)))
    ensures forall t: Tid :: t != m.t ==> Pc(Do(truth, s, m), t) == Pc(s, t)
  {
  }

  lemma StepRunsOnce(truth: Key -> Answer, s: State, m: Move, k: Key)
    requires NoDuplicate(s, k) && RunsOnce(s, k) && Enabled(s, m)
    ensures RunsOnce(Do(truth, s, m), k)
  {
    var s' := Do(truth, s, m);
    MoveOnKey(truth, s, m, k);
    assert forall t: Tid :: Pending(Pc(s, t), k) || Ran(Pc(s, t), k) ==> Asking(Pc(s, t), k);
    if k !in s.probes && Executed(s, k) == 1 {
      var u: Tid :| Ran(Pc(s, u), k);
      assert k !in s'.probes ==> Ran(Pc(s', u), k);
    }
  }

  lemma {:induction false} RunRunsOnce(truth: Key -> Answer, s: State, run: seq<Move>, k: Key)
    requires RunsOnce(s, k) && Legal(Protocol(truth), s, run) && AllAlong(truth, s, run, k)
    ensures Executed(After(Protocol(truth), s, run), k) <= 1
    decreases |run|
  {
    if run != [] {
      StepRunsOnce(truth, s, run[0], k);
      RunRunsOnce(truth, Do(truth, s, run[0]), run[1..], k);
    }
  }

  /** A run in which no two threads are after the same answer at the same time
      executes the question at most once. */
  lemma ExecutedAtMostOnce(truth: Key -> Answer, run: seq<Move>, k: Key)
    requires Legal(Protocol(truth), INIT, run) && AllAlong(truth, INIT, run, k)
    ensures Executed(After(Protocol(truth), INIT, run), k) <= 1
  {
    RunRunsOnce(truth, INIT, run, k);
  }

  /** With a concurrent duplicate the question is run twice. */
  lemma DuplicateRunsTwice(truth: Key -> Answer, k: Key) returns (run: seq<Move>)
    ensures Legal(Protocol(truth), INIT, run) && Executed(After(Protocol(truth), INIT, run), k) == 2
  {
    run := [];
    run := Then(truth, run, Move(0, Ask(k)));
    run := Then(truth, run, Move(0, Lock));
    run := Then(truth, run, Move(0, Lookup));
    run := Then(truth, run, Move(0, UnlockMiss));
    run := Then(truth, run, Move(1, Ask(k)));
    run := Then(truth, run, Move(1, Lock));
    run := Then(truth, run, Move(1, Lookup));
    run := Then(truth, run, Move(1, UnlockMiss));
    run := Then(truth, run, Move(0, Run));
    run := Then(truth, run, Move(1, Run));
  }

  lemma Then(truth: Key -> Answer, run: seq<Move>, m: Move) returns (longer: seq<Move>)
    requires Legal(Protocol(truth), INIT, run) && Enabled(After(Protocol(truth), INIT, run), m)
    ensures Legal(Protocol(truth), INIT, longer)
    ensures After(Protocol(truth), INIT, longer) == Do(truth, After(Protocol(truth), INIT, run), m)
  {
    longer := run + [m];
    Extended(Protocol(truth), INIT, run, m);
  }
}
