/** The game controller: a menu, a run that ticks until the bird hits an obstacle, and
    restarts that keep the best score of all runs. */
module Game {
  import opened Pairs
  import opened Barriers
  import opened Avatar
  import opened Score
  import opened Collision

  /** Gap height of every obstacle pair. */
  const GapHeight: real := 200.0
  /** Distance between consecutive obstacle pairs at the start of a run. */
  const Spacing: real := 400.0

  datatype Phase = Menu | Playing | Stopped

  /** The larger of two scores. */
  function Max(a: int, b: int): (m: int)
    ensures m >= a && m >= b
    ensures m == a || m == b
  {
    if a >= b then a else b
  }

  class FlappyBird {
    /** Width of the play area. */
    const width: real
    /** Height of the play area. */
    const height: real
    /** The best score of all finished runs. */
    const highScore: Progress
    /** The score of the current run (none before the first run). */
    var score: Progress?
    var bird: Bird?
    var barriers: BarriersSet?
    var phase: Phase
    ghost var Repr: set<object>

    ghost predicate Valid()
      reads this, Repr
    {
      this in Repr && highScore in Repr &&
      (phase == Menu ==> score == null && bird == null && barriers == null) &&
      (phase != Menu ==> RunValid())
    }

    /** The objects of the current run are in place and consistent. */
    ghost predicate RunValid()
      reads this, Repr
    {
      score != null && bird != null && barriers != null &&
      score in Repr && bird in Repr && barriers in Repr && barriers.pairs in Repr &&
      barriers.Repr <= Repr &&
      score != highScore && barriers.upScore == score &&
      barriers.Valid() &&
      bird.maxHeight == height - Margin &&
      barriers.gap == GapHeight && barriers.space == Spacing && barriers.height == height
    }

    /** A game on a play area of the given size, showing the menu, with no best score yet. */
    constructor (width: real, height: real)
      ensures Valid() && fresh(Repr)
      ensures this.width == width && this.height == height
      ensures phase == Menu && highScore.points == 0
    {
      this.width := width;
      this.height := height;
      highScore := new Progress();
      score, bird, barriers := null, null, null;
      phase := Menu;
      new;
      Repr := {this, highScore};
    }

    /** Starts a run: a fresh score at 0, a fresh bird halfway up, and four fresh obstacle
        pairs staggered from the right edge on, with gaps drawn from `rs`. */
    method Play(rs: seq<real>)
      requires Valid()
      requires |rs| == 4
      requires forall k :: 0 <= k < |rs| ==> 0.0 <= rs[k] < 1.0
      modifies this
      ensures Valid() && fresh(Repr - old(Repr))
      ensures phase == Playing && highScore.points == old(highScore.points)
      ensures fresh(score) && fresh(bird) && fresh(barriers)
      ensures score.points == 0
      ensures bird.y == bird.maxHeight / 2.0 && !bird.flying
      ensures barriers.pairs[0].x == width
      ensures forall k :: 0 < k < barriers.pairs.Length ==>
                barriers.pairs[k].x == barriers.pairs[k - 1].x + Spacing
      ensures forall k :: 0 <= k < barriers.pairs.Length ==>
                barriers.pairs[k].Segments() == SplitGap(height, GapHeight, rs[k])
    {
      score := new Progress();
      bird := new Bird(height);
      barriers := new BarriersSet(GapHeight, Spacing, score, width, height, rs);
      phase := Playing;
      Repr := Repr + {score, bird, barriers, barriers.pairs} + barriers.Repr;
    }

    /** One tick of a run, in order: the bird step, the obstacle step (which scores), then
        the collision check against the boxes the page reports; a hit stops the run.
        `h` is the bird's inline style height (0, as the game never sets it), `widths`
        the pair widths and `rs` the random draws for pairs that are recycled. */
    method Tick(h: real, widths: seq<real>, rs: seq<real>, birdBox: Box, pairBoxes: seq<PairBoxes>)
      requires Valid() && phase == Playing
      requires |widths| == barriers.pairs.Length && |rs| == barriers.pairs.Length
      requires forall k :: 0 <= k < |rs| ==> 0.0 <= rs[k] < 1.0
      requires |pairBoxes| == barriers.pairs.Length
      modifies bird, barriers.Repr, score, this`phase
      ensures Valid()
      ensures bird.flying == old(bird.flying)
      ensures bird.y == StepY(old(bird.y), bird.flying, bird.maxHeight, h)
      ensures 0.0 <= h <= bird.maxHeight ==> bird.InBounds()
      ensures forall k :: 0 <= k < barriers.pairs.Length ==>
                barriers.pairs[k].View() ==
                Advance(old(barriers.pairs[k].View()), widths[k], rs[k], Spacing,
                        barriers.pairs.Length, height, GapHeight)
      ensures score.points == old(score.points) + Crossings(barriers.Positions(), width / 2.0)
      ensures highScore.points == old(highScore.points)
      ensures phase == if exists k :: 0 <= k < |pairBoxes| && HitsPair(birdBox, pairBoxes[k])
                       then Stopped else Playing
    {
      Move(h, widths, rs);
      var hit := CheckCollision(birdBox, pairBoxes);
      if hit {
        Stop();
      }
    }

    /** The moving half of a tick: the bird step, then the obstacle step. */
    method Move(h: real, widths: seq<real>, rs: seq<real>)
      requires Valid() && phase == Playing
      requires |widths| == barriers.pairs.Length && |rs| == barriers.pairs.Length
      requires forall k :: 0 <= k < |rs| ==> 0.0 <= rs[k] < 1.0
      modifies bird, barriers.Repr, score
      ensures Valid()
      ensures bird.flying == old(bird.flying)
      ensures bird.y == StepY(old(bird.y), bird.flying, bird.maxHeight, h)
      ensures 0.0 <= h <= bird.maxHeight ==> bird.InBounds()
      ensures forall k :: 0 <= k < barriers.pairs.Length ==>
                barriers.pairs[k].View() ==
                Advance(old(barriers.pairs[k].View()), widths[k], rs[k], Spacing,
                        barriers.pairs.Length, height, GapHeight)
      ensures score.points == old(score.points) + Crossings(barriers.Positions(), width / 2.0)
    {
      bird.Animate(h);
      barriers.Animate(width, widths, rs);
    }

    /** Stops the run: no further tick happens until a restart. */
    method Stop()
      requires Valid() && phase != Menu
      modifies this`phase
      ensures Valid() && phase == Stopped
    {
      phase := Stopped;
    }

    /** Folds the run's score into the best score, then starts a fresh run. */
    method Restart(rs: seq<real>)
      requires Valid() && phase != Menu
      requires |rs| == 4
      requires forall k :: 0 <= k < |rs| ==> 0.0 <= rs[k] < 1.0
      modifies this, highScore
      ensures Valid() && fresh(Repr - old(Repr))
      ensures highScore.points == Max(old(highScore.points), old(score.points))
      ensures phase == Playing
      ensures fresh(score) && fresh(bird) && fresh(barriers)
      ensures score.points == 0
      ensures bird.y == bird.maxHeight / 2.0 && !bird.flying
      ensures barriers.pairs[0].x == width
      ensures forall k :: 0 < k < barriers.pairs.Length ==>
                barriers.pairs[k].x == barriers.pairs[k - 1].x + Spacing
      ensures forall k :: 0 <= k < barriers.pairs.Length ==>
                barriers.pairs[k].Segments() == SplitGap(height, GapHeight, rs[k])
    {
      if score.points > highScore.points {
        highScore.points := 0;
        highScore.UpdateProgress(score.points);
      }
      Stop();
      Play(rs);
    }
  }
}
