# Flappy Bird simulation core in Dafny

This project models the simulation core of a browser Flappy Bird clone
(`assets/js/flappy.js`). The core consists of:

- **Obstacle pairs** (`Pairs`). A pair is a top and a bottom segment around a fixed gap.
  Its gap is drawn from a random fraction, once at construction and again every time
  the pair is recycled.
- **The obstacle set** (`Barriers`). Four pairs, 400 units apart, start at the right
  edge of the play area. Every tick each pair moves left by 2.5. A pair that has left
  the play area is recycled to `space * 4 - width` with a fresh gap. A pair that has
  just passed the midline scores one point.
- **The bird** (`Avatar`). Each tick the bird moves up 8 while a key is held and down
  5 otherwise. It has no velocity. Its height is clamped to the floor 0 and to the
  ceiling `maxHeight = H - 50`, where H is the play-area height.
- **The score counter** (`Score`). An additive tally that starts at 0.
- **The collision test** (`Collision`). An overlap test of axis-aligned boxes. The
  first box (the bird) gets 10 units of forgiveness on its right edge and 1 unit on its
  bottom edge. A scan of all pairs stops testing once it finds a hit.
- **The game controller** (`Game`). A small state machine: Menu, then Playing, then
  Stopped; a restart goes back to Playing. A tick runs the bird step, then the obstacle
  step, then the collision check, and a hit stops the run. A restart folds the run's
  score into the best score, as a maximum, and then starts a fresh run.

Objects whose fields the game updates in place are classes: `BarrierPair`,
`BarriersSet` (over an `array` of pairs), `Bird`, `Progress` and `FlappyBird`. Their
methods are specified against pure functions: `SplitGap`, `Advance`, `Crossings`,
`StepY` and `Collides`. The properties the game relies on are proved about those
functions as lemmas.

Positions are `real`. The page's own measurements become parameters:
- the play-area size;
- the rendered pair widths;
- the bird's inline style height, which the game never sets, so it reads 0;
- the bounding boxes of the bird and of the segments.

`Math.random()` becomes a fraction `r` with `0 <= r < 1`.

One might expect the collision test to be symmetric in its two boxes. The code's test
is not, because only the first box gets the tolerances, and the model follows the code:
`CollidesNotSymmetric` gives a bird box and a segment box that the test separates in
one order and not in the other.

## Model

| member | source | states |
|---|---|---|
| Pairs.SplitGap | assets/js/flappy.js:49-54 | the top segment, the gap and the bottom segment add up to the play-area height; when the gap fits, the top lies in [0, height - gap) and the bottom is positive; when the gap fills the height, both are 0 |
| Pairs.SplitGapCovers | assets/js/flappy.js:50 | every top height in [0, height - gap) comes from some fraction in [0, 1), so the draw covers its whole range |
| Pairs.BarrierPair.constructor | assets/js/flappy.js:27-46 | a new pair sits at the given x with the given gap and height, and its gap is drawn once from the fraction |
| Pairs.BarrierPair.SortGap | assets/js/flappy.js:49-54 | redrawing the gap sets both segments to the split of the fraction, keeps the pair invariant, and leaves x alone |
| Barriers.Exits | assets/js/flappy.js:76 | defines when a pair has left the play area: its right edge `x + width` is left of 0 |
| Barriers.Crossing | assets/js/flappy.js:82 | defines when a pair at its new `x` has just passed the midline: `x < middle <= x + 2.5` |
| Barriers.Advance | assets/js/flappy.js:72-80 | defines one pair's share of a tick: move left by 2.5, then, if it has left the play area, redraw its gap and put it at `space * count - width` |
| Barriers.AdvanceMovesOrRecycles | assets/js/flappy.js:70-80 | a pair that stays on screen moves left by exactly 2.5 and keeps its gap; a pair that leaves gets a fresh gap and its right edge at `space * count`, so its x is positive when it is narrower than `count` spacings; either way the pair invariant is kept |
| Barriers.RunDrifts | assets/js/flappy.js:71-73 | a pair that does not leave the screen is at `x - 2.5k` after k ticks, with its gap unchanged |
| Barriers.CrossesExactlyOnce | assets/js/flappy.js:81-84 | a pair that starts at or right of the midline, stays on screen and ends left of it scores in exactly one tick: some tick scores, and no two ticks do |
| Barriers.Crossings | assets/js/flappy.js:81-84 | the number of points one tick scores, one per pair whose new position is just past the midline; never more than the number of pairs |
| Barriers.NoCrossings | assets/js/flappy.js:81-84 | a tick scores nothing exactly when no pair's position is in [middle - 2.5, middle) |
| Barriers.SpacedPairsScoreAtMostOnce | assets/js/flappy.js:81-84 | pairs at least 2.5 apart score at most one point in a tick |
| Barriers.BarriersSet.constructor | assets/js/flappy.js:56-68 | exactly 4 fresh, distinct pairs, the first at the play-area width and each next one `space` further right, each with its gap drawn from its own fraction |
| Barriers.BarriersSet.Animate | assets/js/flappy.js:70-86 | every pair becomes `Advance` of its old state, in array order, and the counter grows by the number of pairs whose new x satisfies `x < W/2 <= x + 2.5`; the pair invariants are kept |
| Barriers.BarriersSet.AnimatePair | assets/js/flappy.js:72-85 | the step of one pair: that pair becomes `Advance` of its old state, the counter grows by 1 exactly when its new x has just passed the midline, and the other pairs are untouched |
| Avatar.Delta | assets/js/flappy.js:109 | defines the step the key state selects: up 8 while flying, down 5 otherwise |
| Avatar.StepY | assets/js/flappy.js:108-117 | with 0 <= h <= maxHeight the new height is in [0, maxHeight]; an unclamped step is applied exactly; a step below the floor gives 0; a step at or above the ceiling gives `maxHeight - h` |
| Avatar.ClampsHold | assets/js/flappy.js:110-113 | a bird on the floor that is not flying stays at 0; a flying bird at the ceiling stays at maxHeight when h reads 0 |
| Avatar.FallingReachesFloor | assets/js/flappy.js:109-115 | a bird within [0, maxHeight] that is not flying is at `max(0, y - 5k)` after k ticks: it sinks by a fixed step, with no acceleration |
| Avatar.Bird.constructor | assets/js/flappy.js:89-105 | maxHeight is the play-area height minus 50, the bird starts halfway up and not flying, and it starts within [0, maxHeight] when the area is at least 50 high |
| Avatar.Bird.SetFlying | assets/js/flappy.js:103-104 | a key press or release only sets the flag |
| Avatar.Bird.Animate | assets/js/flappy.js:108-117 | the new y is `StepY` of the old one; the flag is unchanged; y stays in [0, maxHeight] when 0 <= h <= maxHeight |
| Score.Progress.constructor | assets/js/flappy.js:120-125 | a new counter holds 0 points |
| Score.Progress.UpdateProgress | assets/js/flappy.js:126-129 | the points grow by exactly the delta |
| Score.TotalMonotone | assets/js/flappy.js:126-128 | with non-negative deltas, every earlier total is at most every later one and at least 0 |
| Collision.Collides | assets/js/flappy.js:185-192 | defines the overlap test: the horizontal extents overlap once the first box loses 10 on its right edge, and the vertical extents overlap once it loses 1 at its bottom edge |
| Collision.CollidesIffSharedPoint | assets/js/flappy.js:185-192 | for a first box at least 10 wide and 1 high and a second box of non-negative size, the test holds exactly when the first box, less its tolerances, shares a point with the second |
| Collision.CollidesNotSymmetric | assets/js/flappy.js:188-189 | the test gives different answers for some pair of boxes depending on their order |
| Collision.CheckCollision | assets/js/flappy.js:194-206 | the short-circuiting scan returns true exactly when the bird hits the bottom or the top segment of some pair |
| Collision.HitsPair | assets/js/flappy.js:200-202 | defines a hit on one pair: the bird collides with its bottom segment or with its top segment |
| Game.Max | assets/js/flappy.js:176-179 | the best score after a fold is at least both scores and is one of them |
| Game.FlappyBird.constructor | assets/js/flappy.js:133-138 | a new game shows the menu and has a best score of 0 |
| Game.FlappyBird.Play | assets/js/flappy.js:153-169 | a run starts with a fresh score of 0, a fresh bird halfway up, and four fresh pairs staggered 400 apart from the right edge with gap 200; the best score is kept |
| Game.FlappyBird.Tick | assets/js/flappy.js:162-168 | the bird step, then the obstacle step with its scoring, then the collision check; the run is Stopped exactly when some pair is hit and is still Playing otherwise; the best score is untouched |
| Game.FlappyBird.Move | assets/js/flappy.js:163-164 | the bird moves by `StepY`, then every pair by `Advance`, and the run score grows by the pairs that passed the midline |
| Game.FlappyBird.Stop | assets/js/flappy.js:171-173 | stopping moves the game to Stopped, after which no tick runs |
| Game.FlappyBird.Restart | assets/js/flappy.js:175-183 | the best score becomes the maximum of the old best and the run's score; then a fresh run starts with score 0 |

## Left out

- Building and tearing down the page is not modelled, because it is presentation only. This covers `createElementWithClass`, `createElementWithId`, the `Barrier` class and `setHeight`, `menu`, `insertElements`, `removeElements`, and the score display updates.
- The `"NNpx"` style strings behind the `x` and `y` accessors are plain numeric fields.
- The play-area size is read once, when the game is built. The source queries the page on every call, so a window resized during a run is not modelled.
- Pair widths, the bird's inline style height and the bounding boxes are parameters. The model does not relate the boxes to the modelled positions, because page layout is not part of the core.
- The pair's `width` field is not stored. The source writes it each tick and reads it only within that same step, so the model takes it as a per-tick input (`widths`).
- `Math.random()` becomes parameters: one fraction per pair at construction, and one per pair per tick, used only if that pair is recycled.
- Timing and input are not modelled. This covers the 20 ms `setInterval` and `clearInterval`, and the key handlers, which become `Bird.SetFlying`. `Tick` requires a running game because the timer only fires while registered.
- `console.log` calls are left out.
- Avatar.StepY: takes the bird's inline style height as a number `h`. The source subtracts the style string, which the game never sets, so it is empty and reads as 0. A `"NNpx"` value would give NaN; the model does not cover that case.
- The run phase (Menu, Playing, Stopped) records what the source's `loop` field cannot: whether its interval timer is still registered. `stop` clears the timer but leaves the stale handle in `loop`; the handle itself is not modelled.
- Arithmetic is exact on reals, so IEEE float rounding is not modelled.
- Game.FlappyBird.Tick: requires one width, one fraction and one pair of boxes per pair. The source reads one width per pair per tick from the page. It draws a fraction only for a recycled pair, so the other fractions go unused. It reads boxes only up to the first hit, so the boxes after it go unused.
- Barriers.RunDrifts: covers runs with one unchanging width and fraction per tick, where the source reads a new width each tick.
- Barriers.CrossesExactlyOnce: covers runs with one unchanging width and fraction per tick, where the source reads a new width each tick.
