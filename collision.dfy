/** The collision test between the bird and the obstacle segments: an overlap test of
    axis-aligned boxes with a deliberately lenient, asymmetric tolerance. */
module Collision {

  /** A rectangle on the page: left and top edge, width and height (y grows downward). */
  datatype Box = Box(left: real, top: real, width: real, height: real)

  /** The two segments of one obstacle pair, as boxes on the page. */
  datatype PairBoxes = PairBoxes(top: Box, bottom: Box)

  /** Forgiveness on the right edge of the first box. */
  const SlackRight: real := 10.0
  /** Forgiveness on the bottom edge of the first box. */
  const SlackBottom: real := 1.0

  /** Whether box `a` (the bird) hits box `b` (a segment): their horizontal extents overlap
      once `a` is narrowed by `SlackRight` on the right, and their vertical extents overlap
      once `a` is shortened by `SlackBottom` at the bottom. */
  predicate Collides(a: Box, b: Box)
  {
    (a.left + a.width - SlackRight >= b.left && b.left + b.width >= a.left) &&
    (a.top + a.height - SlackBottom >= b.top && b.top + b.height >= a.top)
  }

  /** The first box with its tolerances taken off. */
  function Shrunk(a: Box): Box
  {
    Box(a.left, a.top, a.width - SlackRight, a.height - SlackBottom)
  }

  /** The point (px, py) lies in the closed box `b`. */
  predicate Contains(b: Box, px: real, py: real)
  {
    b.left <= px <= b.left + b.width && b.top <= py <= b.top + b.height
  }

  /** For a first box at least `SlackRight` wide and `SlackBottom` high and a second box
      of non-negative size, the test holds exactly when the shrunk first box
      and the second box share a point. */
  lemma CollidesIffSharedPoint(a: Box, b: Box)
    requires a.width >= SlackRight && a.height >= SlackBottom
    requires b.width >= 0.0 && b.height >= 0.0
    ensures Collides(a, b) <==> exists px, py :: Contains(Shrunk(a), px, py) && Contains(b, px, py)
  {
    if Collides(a, b) {
      var px := if a.left >= b.left then a.left else b.left;
      var py := if a.top >= b.top then a.top else b.top;
      assert Contains(Shrunk(a), px, py) && Contains(b, px, py);
    }
  }

  /** The test is not symmetric: a bird whose right edge reaches 5 units into a segment
      misses it, while the segment tested as the first box would hit the bird. */
  lemma CollidesNotSymmetric()
    ensures var bird := Box(0.0, 0.0, 20.0, 20.0);
            var segment := Box(15.0, 0.0, 20.0, 20.0);
            !Collides(bird, segment) && Collides(segment, bird)
  {
  }

  /** The bird hits the pair `p` when it hits its bottom or its top segment. */
  predicate HitsPair(bird: Box, p: PairBoxes)
  {
    Collides(bird, p.bottom) || Collides(bird, p.top)
  }

  /** Scans the pairs in order and stops testing once a hit is found. The result says
      whether some pair is hit, whatever its place in the order. */
  method CheckCollision(bird: Box, pairs: seq<PairBoxes>) returns (hit: bool)
    ensures hit <==> exists k :: 0 <= k < |pairs| && HitsPair(bird, pairs[k])
  {
    hit := false;
    for i := 0 to |pairs|
      invariant hit <==> exists k :: 0 <= k < i && HitsPair(bird, pairs[k])
    {
      if !hit {
        hit := Collides(bird, pairs[i].bottom) || Collides(bird, pairs[i].top);
      }
    }
  }
}
