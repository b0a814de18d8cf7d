/**
 * Ladders: they fall like barrels until they rest on a platform. The ladder
 * image's width and height are static in the source, so every ladder of a level
 * has the same size (an invariant of the level's list of ladders).
 */
module Ladders {
  import opened Geometry
  import opened Physics
  import opened Platforms
  import opened Falling

  /** Every field of a ladder; `x` is final. */
  datatype LadderState = LadderState(x: real, y: real, vy: real)

  /** One call of `update`: integrate, cap and rest on the first intersecting platform. */
  function LadderStep(s: LadderState, size: Size, phys: Constants, ps: seq<Platform>): (r: LadderState)
    requires phys.Valid()
    ensures r.x == s.x && r.vy <= phys.ladderTerminal
    ensures var v := Cap(s.vy + phys.ladderGravity, phys.ladderTerminal);
            var hit := FirstHit(CentredAt(s.x, s.y + v, size.w, size.h), ps);
            && (hit.None? ==> r.y - s.y == v && r.vy == v)
            && (hit.Some? ==> r.y + size.h / 2.0 == ps[hit.value].TopY() && r.vy == 0.0)
  {
    var m := FallStep(Motion(s.y, s.vy), s.x, size.w, size.h, phys.ladderGravity, phys.ladderTerminal, ps);
    s.(y := m.y, vy := m.vy)
  }

  class Ladder {
    const x: real
    const size: Size
    const phys: Constants
    var y: real
    var velocityY: real

    ghost predicate Valid() { size.Valid() && phys.Valid() }

    function State(): LadderState
      reads this
    {
      LadderState(x, y, velocityY)
    }

    constructor (x0: real, y0: real, size: Size, phys: Constants)
      requires size.Valid() && phys.Valid()
      ensures Valid() && this.size == size && this.phys == phys
      ensures State() == LadderState(x0, y0, 0.0)
    {
      x, y, velocityY := x0, y0, 0.0;
      this.size, this.phys := size, phys;
    }

    /** The box centred on (x, y) with the ladder image's size. */
    function BoundingBox(): (r: Rect)
      reads this
      ensures r.left + size.w / 2.0 == x && r.top + size.h / 2.0 == y
      ensures r.width == size.w && r.height == size.h
    {
      CentredAt(x, y, size.w, size.h)
    }

    method Update(ps: seq<Platform>)
      requires Valid()
      modifies this
      ensures State() == LadderStep(old(State()), size, phys, ps)
    {
      var m := FallScan(Motion(y, velocityY), x, size.w, size.h, phys.ladderGravity, phys.ladderTerminal, ps);
      y, velocityY := m.y, m.vy;
    }
  }
}
