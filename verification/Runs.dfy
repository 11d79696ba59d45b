/** Runs of a state machine: sequences of moves, each enabled where it is made. */
module Runs {

  datatype System<!S, !M> = System(enabled: (S, M) -> bool, step: (S, M) -> S)

  predicate Legal<S, M>(sys: System<S, M>, s: S, run: seq<M>)
    decreases |run|
  {
    run == [] || (sys.enabled(s, run[0]) && Legal(sys, sys.step(s, run[0]), run[1..]))
  }

  function After<S, M>(sys: System<S, M>, s: S, run: seq<M>): S
    decreases |run|
  {
    if run == [] then s else After(sys, sys.step(s, run[0]), run[1..])
  }

  /** What every enabled move keeps holds after every run. */
  lemma {:induction false} Keeps<S(!new), M(!new)>(sys: System<S, M>, inv: S -> bool, s: S, run: seq<M>)
    requires inv(s) && Legal(sys, s, run)
    requires forall s: S, m: M :: inv(s) && sys.enabled(s, m) ==> inv(sys.step(s, m))
    ensures inv(After(sys, s, run))
    decreases |run|
  {
    if run != [] {
      Keeps(sys, inv, sys.step(s, run[0]), run[1..]);
    }
  }

  /** A relation that every enabled move extends relates the ends of every run. */
  lemma {:induction false} Relates<S(!new), M(!new)>(
      sys: System<S, M>, inv: S -> bool, rel: (S, S) -> bool, s: S, run: seq<M>)
    requires inv(s) && Legal(sys, s, run)
    requires forall s: S :: rel(s, s)
    requires forall a: S, b: S, c: S :: rel(a, b) && rel(b, c) ==> rel(a, c)
    requires forall s: S, m: M :: inv(s) && sys.enabled(s, m) ==> inv(sys.step(s, m)) && rel(s, sys.step(s, m))
    ensures rel(s, After(sys, s, run))
    decreases |run|
  {
    if run != [] {
      Relates(sys, inv, rel, sys.step(s, run[0]), run[1..]);
    }
  }

  lemma {:induction false} Joined<S, M>(sys: System<S, M>, s: S, first: seq<M>, second: seq<M>)
    requires Legal(sys, s, first) && Legal(sys, After(sys, s, first), second)
    ensures Legal(sys, s, first + second)
    ensures After(sys, s, first + second) == After(sys, After(sys, s, first), second)
    decreases |first|
  {
    if first == [] {
      assert first + second == second;
    } else {
      assert (first + second)[1..] == first[1..] + second;
      Joined(sys, sys.step(s, first[0]), first[1..], second);
    }
  }

  /** One more move at the end of a run. */
  lemma Extended<S, M>(sys: System<S, M>, s: S, run: seq<M>, m: M)
    requires Legal(sys, s, run) && sys.enabled(After(sys, s, run), m)
    ensures Legal(sys, s, run + [m])
    ensures After(sys, s, run + [m]) == sys.step(After(sys, s, run), m)
  {
    Joined(sys, s, run, [m]);
  }
}
