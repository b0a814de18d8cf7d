/**
 * The per-class gravity and terminal-velocity constants. The class holding their
 * values is not part of this model, so they are parameters, each one positive.
 */
module Physics {
  datatype Constants = Constants(
    marioGravity: real, marioTerminal: real,
    barrelGravity: real, barrelTerminal: real,
    ladderGravity: real, ladderTerminal: real,
    donkeyGravity: real, donkeyTerminal: real)
  {
    predicate Valid() {
      marioGravity > 0.0 && marioTerminal > 0.0 && barrelGravity > 0.0 && barrelTerminal > 0.0
      && ladderGravity > 0.0 && ladderTerminal > 0.0 && donkeyGravity > 0.0 && donkeyTerminal > 0.0
    }
  }

  /** `if (v > terminal) v = terminal`, which is also `Math.min(terminal, v)`. */
  function Cap(v: real, terminal: real): (r: real)
    ensures r <= terminal && r <= v
    ensures r == v || r == terminal
  {
    if v > terminal then terminal else v
  }

  /** Adding a positive increment to a capped velocity and capping again is the same as capping
      once after the addition: a body at its terminal velocity stays there. */
  lemma CapAbsorbs(v: real, dv: real, terminal: real)
    requires dv > 0.0
    ensures Cap(Cap(v, terminal) + dv, terminal) == Cap(v + dv, terminal)
  {
  }
}
