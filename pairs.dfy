/** One obstacle of the game: a top and a bottom segment around a passable gap,
    at a horizontal position that the obstacle set moves every tick. */
module Pairs {

  /** Heights of the two segments of a pair, top first. */
  datatype Split = Split(top: real, bottom: real)

  /** What a pair looks like to the simulation: its left position and its segments. */
  datatype PairState = PairState(x: real, split: Split)

  /** The gap split drawn from a random fraction `r` in [0, 1): the top segment takes
      the fraction `r` of the height the gap leaves over, the bottom segment the rest. */
  function SplitGap(height: real, gap: real, r: real): (s: Split)
    requires 0.0 <= r < 1.0
    ensures s.top + gap + s.bottom == height
    ensures gap < height ==> 0.0 <= s.top < height - gap && 0.0 < s.bottom
    ensures gap == height ==> s.top == 0.0 && s.bottom == 0.0
    ensures height < gap ==> height - gap < s.top <= 0.0
  {
    var rest := height - gap;
    var top := Share(r, rest);
    Split(top, rest - top)
  }

  /** The share `r * d` of a length `d` for a fraction `r` in [0, 1): between 0 and `d`,
      `d` itself excluded unless it is 0. */
  function Share(r: real, d: real): (p: real)
    requires 0.0 <= r < 1.0
    ensures d > 0.0 ==> 0.0 <= p < d
    ensures d == 0.0 ==> p == 0.0
    ensures d < 0.0 ==> d < p <= 0.0
  {
    if d > 0.0 then
      assert (1.0 - r) * d > 0.0;
      r * d
    else if d < 0.0 then
      ProductSign(1.0 - r, -d);
      ProductSign(r, -d);
      assert (1.0 - r) * (-d) == r * d - d && r * (-d) == -(r * d);
      r * d
    else
      r * d
  }

  /** Multiplying by a positive `d` keeps the sign. */
  lemma ProductSign(a: real, d: real)
    requires d > 0.0
    ensures a > 0.0 <==> a * d > 0.0
    ensures a >= 0.0 <==> a * d >= 0.0
  {
    if a > 0.0 {
      assert a * d > 0.0;
    } else {
      assert (-a) * d >= 0.0;
    }
  }

  /** Every top height in [0, height - gap) is drawn by some fraction: the split
      reaches the whole range the random draw is meant to cover. */
  lemma SplitGapCovers(height: real, gap: real, top: real)
    requires gap < height
    requires 0.0 <= top < height - gap
    ensures exists r :: 0.0 <= r < 1.0 && SplitGap(height, gap, r).top == top
  {
    var d := height - gap;
    var r := top / d;
    assert r * d == top;
    assert (1.0 - r) * d == d - top;
    ProductSign(r, d);
    ProductSign(1.0 - r, d);
    assert SplitGap(height, gap, r).top == top;
  }

  /** The pair invariant: the segments and the gap fill the play-area height, and no
      segment is negative when the gap fits. */
  predicate WellSplit(height: real, gap: real, s: Split)
  {
    s.top + gap + s.bottom == height &&
    (gap <= height ==> 0.0 <= s.top && 0.0 <= s.bottom)
  }

  class BarrierPair {
    /** Left edge of the pair in the play area. */
    var x: real
    /** Height of the top segment. */
    var top: real
    /** Height of the bottom segment. */
    var bottom: real
    /** Play-area height the pair was built for. */
    const height: real
    /** Height of the passable gap. */
    const gap: real

    function Segments(): Split
      reads this
    {
      Split(top, bottom)
    }

    function View(): PairState
      reads this
    {
      PairState(x, Segments())
    }

    ghost predicate Valid()
      reads this
    {
      WellSplit(height, gap, Segments())
    }

    /** Builds a pair at `x` and draws its gap once, from the fraction `r`. */
    constructor (gap: real, x: real, height: real, r: real)
      requires 0.0 <= r < 1.0
      ensures this.x == x && this.gap == gap && this.height == height
      ensures Segments() == SplitGap(height, gap, r)
      ensures Valid()
    {
      this.x := x;
      this.height := height;
      this.gap := gap;
      new;
      SortGap(r);
    }

    /** Redraws the gap from the fraction `r`; the position is untouched. */
    method SortGap(r: real)
      requires 0.0 <= r < 1.0
      modifies this
      ensures x == old(x)
      ensures Segments() == SplitGap(height, gap, r)
      ensures Valid()
    {
      var s := SplitGap(height, gap, r);
      top := s.top;
      bottom := s.bottom;
    }
  }
}
