/** The obstacle set: four pairs that scroll left every tick, are recycled to the
    right once they have left the play area, and score a point as they pass the midline. */
module Barriers {
  import opened Pairs
  import opened Score

  /** Horizontal distance every pair travels per tick. */
  const Speed: real := 2.5

  /** A pair whose left edge is at `x` and whose rendered width is `width` has left
      the play area entirely. */
  predicate Exits(x: real, width: real)
  {
    x + width < 0.0
  }

  /** A pair at `x` has just passed the midline: it is left of `middle`, and was not
      one tick earlier. */
  predicate Crossing(x: real, middle: real)
  {
    x + Speed >= middle && x < middle
  }

  /** One pair's share of a tick: move left by `Speed`; if the pair has then left the
      play area, redraw its gap from `r` and put it back at `space * count - width`. */
  function Advance(p: PairState, width: real, r: real, space: real, count: nat,
                   height: real, gap: real): PairState
    requires 0.0 <= r < 1.0
  {
    var moved := p.x - Speed;
    if Exits(moved, width) then
      PairState(space * count as real - width, SplitGap(height, gap, r))
    else
      PairState(moved, p.split)
  }

  /** A pair that stays on screen moves left by exactly `Speed` and keeps its gap; one
      that leaves gets a freshly drawn gap and its right edge at `space * count`, which
      is right of the left border whenever the pair is narrower than `count` spacings;
      either way the pair invariant is kept. */
  lemma AdvanceMovesOrRecycles(p: PairState, width: real, r: real, space: real, count: nat,
                               height: real, gap: real)
    requires 0.0 <= r < 1.0
    ensures var q := Advance(p, width, r, space, count, height, gap);
            (!Exits(p.x - Speed, width) ==> q.x == p.x - Speed && q.split == p.split) &&
            (Exits(p.x - Speed, width) ==>
               q.x + width == space * count as real && q.split == SplitGap(height, gap, r)) &&
            (Exits(p.x - Speed, width) && width < space * count as real ==> 0.0 < q.x) &&
            (WellSplit(height, gap, p.split) ==> WellSplit(height, gap, q.split))
  {
  }

  /** The pair after `k` ticks with an unchanging rendered width and random draw. */
  function Run(p: PairState, k: nat, width: real, r: real, space: real, count: nat,
               height: real, gap: real): PairState
    requires 0.0 <= r < 1.0
  {
    if k == 0 then p
    else Advance(Run(p, k - 1, width, r, space, count, height, gap), width, r, space, count, height, gap)
  }

  /** As long as a pair stays on screen, it drifts left by exactly `Speed` per tick and
      keeps its gap. */
  lemma {:induction false} RunDrifts(p: PairState, k: nat, width: real, r: real, space: real,
                                     count: nat, height: real, gap: real)
    requires 0.0 <= r < 1.0
    requires !Exits(p.x - k as real * Speed, width)
    ensures Run(p, k, width, r, space, count, height, gap).x == p.x - k as real * Speed
    ensures Run(p, k, width, r, space, count, height, gap).split == p.split
  {
    if k > 0 {
      RunDrifts(p, k - 1, width, r, space, count, height, gap);
      AdvanceMovesOrRecycles(Run(p, k - 1, width, r, space, count, height, gap),
                             width, r, space, count, height, gap);
    }
  }

  /** A pair that starts at or right of the midline, stays on screen for `ticks` ticks
      and is left of the midline after them, scores in exactly one of those ticks. */
  lemma CrossesExactlyOnce(p: PairState, ticks: nat, width: real, r: real, space: real,
                           count: nat, height: real, gap: real, middle: real)
    requires 0.0 <= r < 1.0
    requires middle <= p.x
    requires !Exits(p.x - ticks as real * Speed, width)
    requires p.x - ticks as real * Speed < middle
    ensures exists k :: 1 <= k <= ticks &&
              Crossing(Run(p, k, width, r, space, count, height, gap).x, middle)
    ensures forall k1, k2 ::
              (1 <= k1 <= ticks && 1 <= k2 <= ticks &&
               Crossing(Run(p, k1, width, r, space, count, height, gap).x, middle) &&
               Crossing(Run(p, k2, width, r, space, count, height, gap).x, middle)) ==> k1 == k2
  {
    forall k | 0 <= k <= ticks
      ensures Run(p, k, width, r, space, count, height, gap).x == p.x - k as real * Speed
    {
      RunDrifts(p, k, width, r, space, count, height, gap);
    }
    var f := ((p.x - middle) / Speed).Floor;
    var k := f + 1;
    assert 1 <= k <= ticks;
    assert Crossing(Run(p, k, width, r, space, count, height, gap).x, middle);
  }

  /** How many of the positions `xs` have just passed the midline. */
  function Crossings(xs: seq<real>, middle: real): (n: nat)
    ensures n <= |xs|
  {
    if xs == [] then 0
    else
      Crossings(xs[..|xs| - 1], middle) + (if Crossing(xs[|xs| - 1], middle) then 1 else 0)
  }

  /** No point is scored exactly when no position has just passed the midline. */
  lemma {:induction false} NoCrossings(xs: seq<real>, middle: real)
    ensures Crossings(xs, middle) == 0 <==> forall k :: 0 <= k < |xs| ==> !Crossing(xs[k], middle)
  {
    if xs != [] {
      var init := xs[..|xs| - 1];
      NoCrossings(init, middle);
      assert forall k :: 0 <= k < |init| ==> init[k] == xs[k];
    }
  }

  /** Scoring one more position adds its own point to the count. */
  lemma CrossingsAppend(xs: seq<real>, x: real, middle: real)
    ensures Crossings(xs + [x], middle) == Crossings(xs, middle) + (if Crossing(x, middle) then 1 else 0)
  {
    assert (xs + [x])[..|xs|] == xs;
  }

  /** Pairs at least one tick's travel apart score at most one point per tick. */
  lemma {:induction false} SpacedPairsScoreAtMostOnce(xs: seq<real>, middle: real)
    requires forall i, j :: 0 <= i < |xs| && 0 <= j < |xs| && i != j ==>
               xs[i] + Speed <= xs[j] || xs[j] + Speed <= xs[i]
    ensures Crossings(xs, middle) <= 1
  {
    if xs != [] {
      var init := xs[..|xs| - 1];
      SpacedPairsScoreAtMostOnce(init, middle);
      if Crossing(xs[|xs| - 1], middle) {
        NoCrossings(init, middle);
        assert forall k :: 0 <= k < |init| ==> !Crossing(init[k], middle) by {
          forall k | 0 <= k < |init|
            ensures !Crossing(init[k], middle)
          {
            assert init[k] == xs[k];
          }
        }
      }
    }
  }

  class BarriersSet {
    /** The pairs, in the order they were built. */
    const pairs: array<BarrierPair>
    /** Horizontal distance between consecutive pairs at construction. */
    const space: real
    /** Gap height of every pair. */
    const gap: real
    /** Play-area height every pair was built for. */
    const height: real
    /** The counter that a pair passing the midline scores on. */
    const upScore: Progress
    ghost const Repr: set<BarrierPair>

    ghost predicate Valid()
      reads this, pairs, Repr
    {
      pairs.Length == 4 &&
      (forall k :: 0 <= k < pairs.Length ==>
         pairs[k] in Repr && pairs[k].gap == gap && pairs[k].height == height &&
         pairs[k].Valid()) &&
      (forall i, j :: 0 <= i < j < pairs.Length ==> pairs[i] != pairs[j])
    }

    /** The left positions of the pairs, in order. */
    function Positions(): (xs: seq<real>)
      reads this, pairs, Repr
      requires Valid()
      ensures |xs| == pairs.Length
      ensures forall k :: 0 <= k < pairs.Length ==> xs[k] == pairs[k].x
    {
      [pairs[0].x, pairs[1].x, pairs[2].x, pairs[3].x]
    }

    /** What the simulation sees of the pairs, in order. */
    function Views(): (vs: seq<PairState>)
      reads this, pairs, Repr
      requires Valid()
      ensures |vs| == pairs.Length
      ensures forall k :: 0 <= k < pairs.Length ==> vs[k] == pairs[k].View()
    {
      [pairs[0].View(), pairs[1].View(), pairs[2].View(), pairs[3].View()]
    }

    /** Builds four pairs, `space` apart from the right edge `gameWidth` on, each with
        its gap drawn from its own fraction in `rs`. */
    constructor (gap: real, space: real, upScore: Progress, gameWidth: real, gameHeight: real,
                 rs: seq<real>)
      requires |rs| == 4
      requires forall k :: 0 <= k < |rs| ==> 0.0 <= rs[k] < 1.0
      ensures Valid() && fresh(pairs) && fresh(Repr)
      ensures this.gap == gap && this.space == space && this.height == gameHeight
      ensures this.upScore == upScore
      ensures pairs[0].x == gameWidth
      ensures forall k :: 0 < k < pairs.Length ==> pairs[k].x == pairs[k - 1].x + space
      ensures forall k :: 0 <= k < pairs.Length ==>
                pairs[k].Segments() == SplitGap(gameHeight, gap, rs[k])
    {
      var p0 := new BarrierPair(gap, gameWidth, gameHeight, rs[0]);
      var p1 := new BarrierPair(gap, gameWidth + space, gameHeight, rs[1]);
      var p2 := new BarrierPair(gap, gameWidth + space * 2.0, gameHeight, rs[2]);
      var p3 := new BarrierPair(gap, gameWidth + space * 3.0, gameHeight, rs[3]);
      var a := new BarrierPair[4] [p0, p1, p2, p3];
      assert a[0] == p0 && a[1] == p1 && a[2] == p2 && a[3] == p3;
      pairs := a;
      this.space := space;
      this.gap := gap;
      this.height := gameHeight;
      this.upScore := upScore;
      Repr := {p0, p1, p2, p3};
      forall i, j | 0 <= i < j < 4
        ensures a[i] != a[j]
      {
        if i == 0 { assert a[i] == p0; } else if i == 1 { assert a[i] == p1; }
      }
      forall k | 0 < k < 4
        ensures a[k].x == a[k - 1].x + space
      {
        if k == 1 { } else if k == 2 { } else { }
      }
    }

    /** One tick of the obstacle set: every pair advances in order, and each pair that
        has just passed the midline adds one point to `upScore`. `widths` are the
        rendered pair widths read this tick and `rs` the random draws for recycled pairs. */
    method Animate(gameWidth: real, widths: seq<real>, rs: seq<real>)
      requires Valid()
      requires |widths| == pairs.Length && |rs| == pairs.Length
      requires forall k :: 0 <= k < |rs| ==> 0.0 <= rs[k] < 1.0
      modifies Repr, upScore
      ensures Valid()
      ensures forall k :: 0 <= k < pairs.Length ==>
                pairs[k].View() ==
                Advance(old(pairs[k].View()), widths[k], rs[k], space, pairs.Length, height, gap)
      ensures upScore.points == old(upScore.points) + Crossings(Positions(), gameWidth / 2.0)
    {
      var middle := gameWidth / 2.0;
      ghost var before := Views();
      ghost var xs: seq<real> := [];
      var i := 0;
      while i < pairs.Length
        invariant 0 <= i <= pairs.Length
        invariant |xs| == i
        invariant Valid()
        invariant forall k :: 0 <= k < i ==>
                    xs[k] == pairs[k].x &&
                    pairs[k].View() == Advance(before[k], widths[k], rs[k], space, pairs.Length, height, gap)
        invariant forall k :: i <= k < pairs.Length ==> pairs[k].View() == before[k]
        invariant upScore.points == old(upScore.points) + Crossings(xs, middle)
      {
        AnimatePair(i, middle, widths[i], rs[i]);
        CrossingsAppend(xs, pairs[i].x, middle);
        xs := xs + [pairs[i].x];
        i := i + 1;
      }
      assert xs == Positions();
    }

    /** The step of the pair at index `i`: move, recycle if it has left the play area,
        then score if it has just passed `middle`. Only that pair and the counter change. */
    method AnimatePair(i: nat, middle: real, width: real, r: real)
      requires Valid()
      requires i < pairs.Length
      requires 0.0 <= r < 1.0
      modifies pairs[i], upScore
      ensures Valid()
      ensures forall k :: 0 <= k < pairs.Length && k != i ==> pairs[k].View() == old(pairs[k].View())
      ensures pairs[i].View() ==
              Advance(old(pairs[i].View()), width, r, space, pairs.Length, height, gap)
      ensures upScore.points ==
              old(upScore.points) + (if Crossing(pairs[i].x, middle) then 1 else 0)
    {
      var pair := pairs[i];
      pair.x := pair.x - Speed;
      if pair.x + width < 0.0 {
        pair.SortGap(r);
        pair.x := space * pairs.Length as real - width;
      }
      if pair.x + Speed >= middle && pair.x < middle {
        upScore.UpdateProgress(1);
      }
    }
  }
}
