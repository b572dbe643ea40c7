/** The score counter: an additive tally of points. */
module Score {

  class Progress {
    var points: int

    /** A fresh counter shows 0 points. */
    constructor ()
      ensures points == 0
    {
      points := 0;
      new;
      UpdateProgress(0);
    }

    /** Adds `point` to the tally; nothing else changes. */
    method UpdateProgress(point: int)
      modifies this
      ensures points == old(points) + point
    {
      points := points + point;
    }
  }

  /** The points of a fresh counter after the updates `deltas`, in order. */
  function Total(deltas: seq<int>): int
  {
    if deltas == [] then 0 else Total(deltas[..|deltas| - 1]) + deltas[|deltas| - 1]
  }

  /** With non-negative updates the tally never decreases: every earlier reading is at
      most every later one, and none is below the initial 0. */
  lemma {:induction false} TotalMonotone(deltas: seq<int>, k: nat)
    requires forall i :: 0 <= i < |deltas| ==> deltas[i] >= 0
    requires k <= |deltas|
    ensures 0 <= Total(deltas[..k]) <= Total(deltas)
  {
    if k < |deltas| {
      var init := deltas[..|deltas| - 1];
      assert init[..k] == deltas[..k];
      TotalMonotone(init, k);
      assert Total(deltas) == Total(init) + deltas[|deltas| - 1];
    } else {
      assert deltas[..k] == deltas;
      if deltas != [] {
        TotalMonotone(deltas[..|deltas| - 1], |deltas| - 1);
        assert deltas[..|deltas| - 1][..|deltas| - 1] == deltas[..|deltas| - 1];
      }
    }
  }
}
