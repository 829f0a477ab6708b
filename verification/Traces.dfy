/** Finite runs of a machine given by its step relation. */
module Traces {

  ghost predicate IsRun<W>(step: (W, W) -> bool, trace: seq<W>) {
    |trace| > 0 && forall i | 0 <= i < |trace| - 1 :: step(trace[i], trace[i + 1])
  }

  /** Some run leads from one state to the other. */
  ghost predicate Reaches<W(!new)>(step: (W, W) -> bool, w: W, w': W) {
    exists trace :: IsRun(step, trace) && trace[0] == w && trace[|trace| - 1] == w'
  }

  lemma ReachesItself<W(!new)>(step: (W, W) -> bool, w: W)
    ensures Reaches(step, w, w)
  {
    assert IsRun(step, [w]) && [w][0] == w && [w][|[w]| - 1] == w;
  }

  lemma ReachesNext<W(!new)>(step: (W, W) -> bool, w: W, w': W, w'': W)
    requires Reaches(step, w, w') && step(w', w'')
    ensures Reaches(step, w, w'')
  {
    var trace :| IsRun(step, trace) && trace[0] == w && trace[|trace| - 1] == w';
    var longer := trace + [w''];
    forall i | 0 <= i < |longer| - 1 ensures step(longer[i], longer[i + 1]) {
      if i < |trace| - 1 { assert step(trace[i], trace[i + 1]); }
    }
    assert IsRun(step, longer) && longer[0] == w && longer[|longer| - 1] == w'';
  }

  lemma {:induction false} ReachesAlong<W(!new)>(step: (W, W) -> bool, w: W, trace: seq<W>, k: nat)
    requires IsRun(step, trace) && k < |trace| && Reaches(step, w, trace[0])
    ensures Reaches(step, w, trace[k])
  {
    if k > 0 {
      ReachesAlong(step, w, trace, k - 1);
      assert step(trace[k - 1], trace[k - 1 + 1]);
      ReachesNext(step, w, trace[k - 1], trace[k]);
    }
  }

  lemma ReachesFurther<W(!new)>(step: (W, W) -> bool, w: W, w': W, w'': W)
    requires Reaches(step, w, w') && Reaches(step, w', w'')
    ensures Reaches(step, w, w'')
  {
    var trace :| IsRun(step, trace) && trace[0] == w' && trace[|trace| - 1] == w'';
    ReachesAlong(step, w, trace, |trace| - 1);
  }

  /** What holds at first and survives every step holds throughout. */
  lemma {:induction false} HoldsThroughout<W(!new)>(step: (W, W) -> bool, inv: W -> bool, trace: seq<W>, k: nat)
    requires IsRun(step, trace) && inv(trace[0]) && k < |trace|
    requires forall w, w' :: inv(w) && step(w, w') ==> inv(w')
    ensures inv(trace[k])
  {
    if k > 0 {
      HoldsThroughout(step, inv, trace, k - 1);
      assert step(trace[k - 1], trace[k - 1 + 1]);
    }
  }
}
