/** The bird: a vertical position that moves a fixed step per tick, up while the key is
    held and down otherwise, clamped to the floor and the ceiling of the play area. */
module Avatar {

  /** Upward step per tick while flying. */
  const Rise: real := 8.0
  /** Downward step per tick while not flying. */
  const Fall: real := 5.0
  /** Distance between the ceiling of the bird and the top of the play area. */
  const Margin: real := 50.0

  /** The step the input selects: there is no velocity, only the current key state. */
  function Delta(flying: bool): real
  {
    if flying then Rise else -Fall
  }

  /** The next height of a bird at `y` whose inline style height reads `h`: the stepped
      height, pulled up to the floor 0 when it falls below it, and put at
      `maxHeight - h` when it reaches the ceiling. */
  function StepY(y: real, flying: bool, maxHeight: real, h: real): (y': real)
    ensures 0.0 <= h <= maxHeight ==> 0.0 <= y' <= maxHeight
    ensures 0.0 <= y + Delta(flying) < maxHeight ==> y' == y + Delta(flying)
    ensures y + Delta(flying) < 0.0 ==> y' == 0.0
    ensures 0.0 <= y + Delta(flying) && maxHeight <= y + Delta(flying) ==> y' == maxHeight - h
  {
    var newY := y + Delta(flying);
    if newY < 0.0 then 0.0
    else if newY >= maxHeight then maxHeight - h
    else newY
  }

  /** A bird on the floor that is not flying stays on the floor; a bird at the ceiling
      that is flying stays at the ceiling when its style height reads 0, which it always
      does, since the game never sets it. */
  lemma ClampsHold(maxHeight: real)
    requires maxHeight >= 0.0
    ensures StepY(0.0, false, maxHeight, 0.0) == 0.0
    ensures StepY(maxHeight, true, maxHeight, 0.0) == maxHeight
  {
  }

  /** The height of a bird after `k` ticks without flying. */
  function FallFor(y: real, k: nat, maxHeight: real, h: real): real
  {
    if k == 0 then y else StepY(FallFor(y, k - 1, maxHeight, h), false, maxHeight, h)
  }

  /** A bird within its bounds that does not fly sinks by exactly `Fall` per tick until
      the next step would take it below the floor, and then rests on the floor. */
  lemma {:induction false} FallingReachesFloor(y: real, k: nat, maxHeight: real, h: real)
    requires 0.0 <= y <= maxHeight
    ensures FallFor(y, k, maxHeight, h) == if y - k as real * Fall < 0.0 then 0.0 else y - k as real * Fall
  {
    if k > 0 {
      FallingReachesFloor(y, k - 1, maxHeight, h);
    }
  }

  class Bird {
    /** Height of the bird's bottom edge above the floor of the play area. */
    var y: real
    /** Whether a key is held. */
    var flying: bool
    /** Highest position the bird may reach. */
    const maxHeight: real

    ghost predicate InBounds()
      reads this
    {
      0.0 <= y <= maxHeight
    }

    /** A bird not flying, halfway up a play area of height `gameHeight`. */
    constructor (gameHeight: real)
      ensures maxHeight == gameHeight - Margin
      ensures y == maxHeight / 2.0 && !flying
      ensures gameHeight >= Margin ==> InBounds()
    {
      flying := false;
      maxHeight := gameHeight - Margin;
      y := (gameHeight - Margin) / 2.0;
    }

    /** The input port: a key press sets the flag, a key release clears it. */
    method SetFlying(f: bool)
      modifies this
      ensures flying == f && y == old(y)
    {
      flying := f;
    }

    /** One tick of the bird. `h` is the bird's inline style height (never set by
        the game, so it reads 0). */
    method Animate(h: real)
      modifies this
      ensures flying == old(flying)
      ensures y == StepY(old(y), flying, maxHeight, h)
      ensures 0.0 <= h <= maxHeight ==> InBounds()
    {
      var newY := y + Delta(flying);
      if newY < 0.0 {
        y := 0.0;
      } else if newY >= maxHeight {
        y := maxHeight - h;
      } else {
        y := newY;
      }
    }
  }
}
