/** The closed-handle protocol of `AEAD`, `Cipher` and `KeyWrap`: operations hold
    the read lock and check `closed`, `Close` holds the write lock and releases
    what the operations use. Any number of threads, any interleaving. */
module CloseProtocol {
  import opened ByteStrings
  import opened Runs

  type Tid = nat

  datatype Outcome = Completed | ErrClosed

  /** Where a thread is. `late` records whether some Close had already returned
      when the operation took the lock. */
  datatype PC =
    | Idle
    | OpWaiting
    | OpLocked(late: bool)
    | OpUsing(late: bool)
    | OpReleasing(late: bool, outcome: Outcome)
    | OpReturned(late: bool, outcome: Outcome)
    | CloseWaiting
    | CloseLocked
    | CloseFreeing
    | CloseClearing
    | CloseWiping
    | CloseMarking
    | CloseReleasing

  datatype State = State(
    closed: bool, frees: nat, cipherNil: bool, keyWiped: bool,
    closesReturned: nat, readers: set<Tid>, writer: Option<Tid>, pcs: map<Tid, PC>)

  datatype Action =
    | BeginOp | RLock | CheckClosed | Use | EndUse | RUnlock
    | BeginClose | Lock | CheckAlreadyClosed | FreeCipher | ClearCipher | WipeKey | MarkClosed | Unlock

  datatype Move = Move(t: Tid, a: Action)

  const INIT := State(false, 0, false, false, 0, {}, None, map[])

  function Pc(s: State, t: Tid): PC {
    if t in s.pcs then s.pcs[t] else Idle
  }

  /** With `locked` false the two lock operations never wait. */
  predicate Enabled(locked: bool, s: State, m: Move) {
    var pc := Pc(s, m.t);
    match m.a
    case BeginOp => pc.Idle? || pc.OpReturned?
    case BeginClose => pc.Idle? || pc.OpReturned?
    case RLock => pc.OpWaiting? && (locked ==> s.writer.None?)
    case CheckClosed => pc.OpLocked?
    case Use => pc.OpUsing?
    case EndUse => pc.OpUsing?
    case RUnlock => pc.OpReleasing?
    case Lock => pc.CloseWaiting? && (locked ==> s.writer.None? && s.readers == {})
    case CheckAlreadyClosed => pc.CloseLocked?
    case FreeCipher => pc.CloseFreeing?
    case ClearCipher => pc.CloseClearing?
    case WipeKey => pc.CloseWiping?
    case MarkClosed => pc.CloseMarking?
    case Unlock => pc.CloseReleasing?
  }

  function Goto(s: State, t: Tid, pc: PC): State {
    s.(pcs := s.pcs[t := pc])
  }

  function Do(s: State, m: Move): State {
    var t, pc := m.t, Pc(s, m.t);
    if !Enabled(false, s, m) then s
    else match m.a
    case BeginOp => Goto(s, t, OpWaiting)
    case BeginClose => Goto(s, t, CloseWaiting)
    case RLock => Goto(s, t, OpLocked(s.closesReturned > 0)).(readers := s.readers + {t})
    case CheckClosed => Goto(s, t, if s.closed then OpReleasing(pc.late, ErrClosed) else OpUsing(pc.late))
    case Use => s
    case EndUse => Goto(s, t, OpReleasing(pc.late, Completed))
    case RUnlock => Goto(s, t, OpReturned(pc.late, pc.outcome)).(readers := s.readers - {t})
    case Lock => Goto(s, t, CloseLocked).(writer := Some(t))
    case CheckAlreadyClosed => Goto(s, t, if s.closed then CloseReleasing else CloseFreeing)
    case FreeCipher => Goto(s, t, CloseClearing).(frees := s.frees + 1)
    case ClearCipher => Goto(s, t, CloseWiping).(cipherNil := true)
    case WipeKey => Goto(s, t, CloseMarking).(keyWiped := true)
    case MarkClosed => Goto(s, t, CloseReleasing).(closed := true)
    case Unlock => Goto(s, t, Idle).(writer := None, closesReturned := s.closesReturned + 1)
  }

  // ---- the invariant ----

  predicate Reading(pc: PC) {
    pc.OpLocked? || pc.OpUsing? || pc.OpReleasing?
  }

  predicate Writing(pc: PC) {
    || pc.CloseLocked? || pc.CloseFreeing? || pc.CloseClearing?
    || pc.CloseWiping? || pc.CloseMarking? || pc.CloseReleasing?
  }

  predicate LockFacts(s: State, t: Tid) {
    (t in s.readers <==> Reading(Pc(s, t))) && (s.writer == Some(t) <==> Writing(Pc(s, t)))
  }

  ghost predicate Locks(s: State) {
    (forall t: Tid :: LockFacts(s, t)) && (s.writer.Some? ==> s.readers == {})
  }

  /** How far the only releasing thread has come. */
  predicate Resources(s: State) {
    var pc := if s.writer.Some? then Pc(s, s.writer.value) else Idle;
    && s.frees == (if s.closed || pc.CloseClearing? || pc.CloseWiping? || pc.CloseMarking? then 1 else 0)
    && s.cipherNil == (s.closed || pc.CloseWiping? || pc.CloseMarking?)
    && s.keyWiped == (s.closed || pc.CloseMarking?)
    && (pc.CloseFreeing? || pc.CloseClearing? || pc.CloseWiping? || pc.CloseMarking? ==> !s.closed)
    && (pc.CloseReleasing? ==> s.closed)
    && (s.closesReturned > 0 ==> s.closed)
  }

  predicate ThreadFacts(s: State, pc: PC) {
    && (pc.OpLocked? && pc.late ==> s.closesReturned > 0)
    && (pc.OpUsing? ==> !s.closed && !pc.late)
    && ((pc.OpReleasing? || pc.OpReturned?) && pc.late ==> pc.outcome == ErrClosed)
    && ((pc.OpReleasing? || pc.OpReturned?) && pc.outcome == ErrClosed ==> s.closed)
  }

  ghost predicate Inv(s: State) {
    Locks(s) && Resources(s) && forall t: Tid :: ThreadFacts(s, Pc(s, t))
  }

  lemma StepKeepsLocks(s: State, m: Move)
    requires Locks(s) && Enabled(true, s, m)
    ensures Locks(Do(s, m))
  {
    forall t: Tid
      ensures LockFacts(Do(s, m), t)
    {
      assert LockFacts(s, t) && LockFacts(s, m.t);
      StepKeepsLockFacts(s, m, t);
    }
    assert LockFacts(s, m.t);
  }

  lemma StepKeepsLockFacts(s: State, m: Move, t: Tid)
    requires LockFacts(s, t) && LockFacts(s, m.t) && Enabled(true, s, m)
    ensures LockFacts(Do(s, m), t)
  {
    if t == m.t {
      MoverKeepsLockFacts(s, m);
    } else {
      OthersKeepLockFacts(s, m, t);
    }
  }

  lemma MoverKeepsLockFacts(s: State, m: Move)
    requires LockFacts(s, m.t) && Enabled(true, s, m)
    ensures LockFacts(Do(s, m), m.t)
  {
  }

  lemma OthersKeepLockFacts(s: State, m: Move, t: Tid)
    requires t != m.t && LockFacts(s, t) && LockFacts(s, m.t) && Enabled(true, s, m)
    ensures LockFacts(Do(s, m), t)
  {
  }

  lemma StepKeepsResources(s: State, m: Move)
    requires Resources(s) && LockFacts(s, m.t) && ThreadFacts(s, Pc(s, m.t)) && Enabled(true, s, m)
    ensures Resources(Do(s, m))
  {
  }

  lemma StepKeepsThreadFacts(s: State, m: Move, t: Tid)
    requires Resources(s) && LockFacts(s, m.t) && ThreadFacts(s, Pc(s, m.t)) && Enabled(true, s, m)
    requires LockFacts(s, t) && ThreadFacts(s, Pc(s, t)) && (s.writer.Some? ==> s.readers == {})
    ensures ThreadFacts(Do(s, m), Pc(Do(s, m), t))
  {
  }

  lemma StepKeepsInv(s: State, m: Move)
    requires Inv(s) && Enabled(true, s, m)
    ensures Inv(Do(s, m))
  {
    StepKeepsLocks(s, m);
    assert LockFacts(s, m.t) && ThreadFacts(s, Pc(s, m.t));
    StepKeepsResources(s, m);
    forall t: Tid
      ensures ThreadFacts(Do(s, m), Pc(Do(s, m), t))
    {
      assert LockFacts(s, t) && ThreadFacts(s, Pc(s, t));
      StepKeepsThreadFacts(s, m, t);
    }
  }

  // ---- runs ----

  function Protocol(locked: bool): System<State, Move> {
    System((s, m) => Enabled(locked, s, m), Do)
  }

  lemma RunKeepsInv(run: seq<Move>)
    requires Legal(Protocol(true), INIT, run)
    ensures Inv(After(Protocol(true), INIT, run))
  {
    assert forall t: Tid :: Pc(INIT, t) == Idle;
    forall s: State, m: Move | Inv(s) && Enabled(true, s, m)
      ensures Inv(Do(s, m))
    {
      StepKeepsInv(s, m);
    }
    Keeps(Protocol(true), s => Inv(s), INIT, run);
  }

  /** In every interleaving: what an operation uses is live, the cipher is freed
      at most once, an operation that took the lock after a Close returned reports
      ErrClosed, and one that reports it does so on a closed handle. */
  lemma OperationsAreSafe(run: seq<Move>, t: Tid)
    requires Legal(Protocol(true), INIT, run)
    ensures var s := After(Protocol(true), INIT, run);
            && (Enabled(true, s, Move(t, Use)) ==> s.frees == 0 && !s.cipherNil && !s.keyWiped)
            && s.frees <= 1
            && (s.closesReturned > 0 ==> s.frees == 1 && s.keyWiped)
            && (Pc(s, t).OpReturned? && Pc(s, t).late ==> Pc(s, t).outcome == ErrClosed)
            && (Pc(s, t).OpReturned? && Pc(s, t).outcome == ErrClosed ==> s.closed)
  {
    RunKeepsInv(run);
    var s := After(Protocol(true), INIT, run);
    assert ThreadFacts(s, Pc(s, t));
    if Enabled(true, s, Move(t, Use)) {
      assert LockFacts(s, t);
    }
  }

  predicate Closing(pc: PC) {
    pc.CloseWaiting? || Writing(pc)
  }

  /** Nobody is closing or has closed. */
  ghost predicate Untouched(s: State) {
    !s.closed && s.frees == 0 && forall t: Tid :: !Closing(Pc(s, t))
  }

  lemma {:induction false} StaysUntouched(s: State, run: seq<Move>)
    requires Inv(s) && Untouched(s) && Legal(Protocol(true), s, run)
    requires forall m :: m in run ==> m.a != BeginClose
    ensures Inv(After(Protocol(true), s, run)) && Untouched(After(Protocol(true), s, run))
    decreases |run|
  {
    if run != [] {
      var m, s' := run[0], Do(s, run[0]);
      assert !Closing(Pc(s, m.t));
      forall t: Tid ensures !Closing(Pc(s', t)) {
        assert !Closing(Pc(s, t));
      }
      StepKeepsInv(s, m);
      StaysUntouched(s', run[1..]);
    }
  }

  /** While nobody begins a Close the handle stays open, and every operation that
      returns has done its work. */
  lemma CompletesUntilClose(run: seq<Move>, t: Tid)
    requires Legal(Protocol(true), INIT, run)
    requires forall m :: m in run ==> m.a != BeginClose
    ensures var s := After(Protocol(true), INIT, run);
            !s.closed && s.frees == 0 && (Pc(s, t).OpReturned? ==> Pc(s, t).outcome == Completed)
  {
    assert forall t: Tid :: Pc(INIT, t) == Idle;
    StaysUntouched(INIT, run);
    assert ThreadFacts(After(Protocol(true), INIT, run), Pc(After(Protocol(true), INIT, run), t));
  }

  lemma Onwards(s: State, run: seq<Move>, m: Move) returns (longer: seq<Move>)
    requires Legal(Protocol(true), s, run) && Enabled(true, After(Protocol(true), s, run), m)
    ensures Legal(Protocol(true), s, longer)
    ensures After(Protocol(true), s, longer) == Do(After(Protocol(true), s, run), m)
  {
    longer := run + [m];
    Extended(Protocol(true), s, run, m);
  }

  predicate SameHandle(a: State, b: State) {
    && a.closed == b.closed && a.frees == b.frees && a.cipherNil == b.cipherNil && a.keyWiped == b.keyWiped
    && a.closesReturned == b.closesReturned
  }

  /** From any state in which nobody writes, an operation can run to its end; it does
      its work exactly on an open handle, and leaves the handle as it was. */
  lemma OperationRuns(s: State, t: Tid) returns (run: seq<Move>)
    requires (Pc(s, t).Idle? || Pc(s, t).OpReturned?) && s.writer.None? && t !in s.readers
    ensures Legal(Protocol(true), s, run)
    ensures var s' := After(Protocol(true), s, run);
            && SameHandle(s', s) && s'.readers == s.readers && s'.writer.None?
            && Pc(s', t) == OpReturned(s.closesReturned > 0, if s.closed then ErrClosed else Completed)
  {
    run := Onwards(s, [], Move(t, BeginOp));
    run := Onwards(s, run, Move(t, RLock));
    run := Onwards(s, run, Move(t, CheckClosed));
    if !s.closed {
      run := Onwards(s, run, Move(t, EndUse));
    }
    run := Onwards(s, run, Move(t, RUnlock));
  }

  /** So can a Close once nobody reads either: it frees the cipher and wipes the key the
      first time, and does nothing any other time. */
  lemma CloseRuns(s: State, t: Tid) returns (run: seq<Move>)
    requires (Pc(s, t).Idle? || Pc(s, t).OpReturned?) && s.writer.None? && s.readers == {}
    ensures Legal(Protocol(true), s, run)
    ensures var s' := After(Protocol(true), s, run);
            && SameHandle(s', (if s.closed then s else Released(s)).(closesReturned := s.closesReturned + 1))
            && s'.readers == {} && s'.writer.None? && Pc(s', t) == Idle
  {
    run := Onwards(s, [], Move(t, BeginClose));
    run := Onwards(s, run, Move(t, Lock));
    run := Onwards(s, run, Move(t, CheckAlreadyClosed));
    if !s.closed {
      run := Releases(s, run, t);
    }
    run := Onwards(s, run, Move(t, Unlock));
  }

  function Released(s: State): State {
    s.(closed := true, frees := s.frees + 1, cipherNil := true, keyWiped := true)
  }

  lemma Releases(s: State, entered: seq<Move>, t: Tid) returns (run: seq<Move>)
    requires Legal(Protocol(true), s, entered) && Pc(After(Protocol(true), s, entered), t) == CloseFreeing
    ensures Legal(Protocol(true), s, run)
    ensures var held, s' := After(Protocol(true), s, entered), After(Protocol(true), s, run);
            && SameHandle(s', Released(held)) && s'.readers == held.readers && s'.writer == held.writer
            && Pc(s', t) == CloseReleasing
  {
    run := Onwards(s, entered, Move(t, FreeCipher));
    run := Onwards(s, run, Move(t, ClearCipher));
    run := Onwards(s, run, Move(t, WipeKey));
    run := Onwards(s, run, Move(t, MarkClosed));
  }

  /** As `sync.RWMutex` has it: a reader does not overtake a waiting writer. */
  ghost predicate EnabledBehindWriters(s: State, m: Move) {
    Enabled(true, s, m) && (m.a == RLock ==> forall u: Tid :: !Pc(s, u).CloseWaiting?)
  }

  /** No interleaving gets stuck, whether or not readers wait behind waiting
      writers: while some call is under way, some thread in the middle of a call
      can take a step that brings it further. */
  lemma NeverStuck(run: seq<Move>, t: Tid)
    requires Legal(Protocol(true), INIT, run)
    requires var pc := Pc(After(Protocol(true), INIT, run), t); !pc.Idle? && !pc.OpReturned?
    ensures var s := After(Protocol(true), INIT, run);
            exists m: Move :: EnabledBehindWriters(s, m) && m.a != Use && !Pc(s, m.t).Idle? && !Pc(s, m.t).OpReturned?
  {
    RunKeepsInv(run);
    var s := After(Protocol(true), INIT, run);
    if s.writer.Some? {
      var w := s.writer.value;
      assert LockFacts(s, w);
      StepOfHolder(s, w);
    } else if s.readers != {} {
      var r :| r in s.readers;
      assert LockFacts(s, r);
      StepOfHolder(s, r);
    } else if u: Tid :| Pc(s, u).CloseWaiting? {
      assert EnabledBehindWriters(s, Move(u, Lock));
    } else {
      assert LockFacts(s, t);
      assert EnabledBehindWriters(s, Move(t, RLock));
    }
  }

  lemma StepOfHolder(s: State, t: Tid)
    requires Reading(Pc(s, t)) || Writing(Pc(s, t))
    ensures exists m: Move :: EnabledBehindWriters(s, m) && m.a != Use && m.t == t
  {
    var a := match Pc(s, t)
      case OpLocked(_) => CheckClosed
      case OpUsing(_) => EndUse
      case OpReleasing(_, _) => RUnlock
      case CloseLocked => CheckAlreadyClosed
      case CloseFreeing => FreeCipher
      case CloseClearing => ClearCipher
      case CloseWiping => WipeKey
      case CloseMarking => MarkClosed
      case _ => Unlock;
    assert EnabledBehindWriters(s, Move(t, a));
  }

  /** The same steps without waiting for the lock: an operation past its check
      uses a freed cipher. */
  lemma UnsafeWithoutTheLock() returns (run: seq<Move>)
    ensures Legal(Protocol(false), INIT, run)
    ensures var s := After(Protocol(false), INIT, run); Enabled(false, s, Move(0, Use)) && s.frees == 1
  {
    run := [];
    run := Then(run, Move(0, BeginOp));
    run := Then(run, Move(0, RLock));
    run := Then(run, Move(0, CheckClosed));
    run := Then(run, Move(1, BeginClose));
    run := Then(run, Move(1, Lock));
    run := Then(run, Move(1, CheckAlreadyClosed));
    run := Then(run, Move(1, FreeCipher));
  }

  lemma Then(run: seq<Move>, m: Move) returns (longer: seq<Move>)
    requires Legal(Protocol(false), INIT, run) && Enabled(false, After(Protocol(false), INIT, run), m)
    ensures Legal(Protocol(false), INIT, longer)
    ensures After(Protocol(false), INIT, longer) == Do(After(Protocol(false), INIT, run), m)
  {
    longer := run + [m];
    Extended(Protocol(false), INIT, run, m);
  }
}
