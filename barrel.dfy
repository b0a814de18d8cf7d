/**
 * Barrels: falling hazards that rest on platforms. A destroyed barrel is inert:
 * it neither moves nor collides (its box is the off-screen degenerate one).
 */
module Barrels {
  import opened Geometry
  import opened Physics
  import opened Platforms
  import opened Falling

  /** Every field of a barrel; `x` is final. */
  datatype BarrelState = BarrelState(x: real, y: real, vy: real, destroyed: bool)

  /** One call of `update`: nothing once destroyed, otherwise one capped falling-body frame. */
  function BarrelStep(s: BarrelState, size: Size, phys: Constants, ps: seq<Platform>): (r: BarrelState)
    requires phys.Valid()
    ensures r.x == s.x && r.destroyed == s.destroyed
    ensures s.destroyed ==> r == s
    ensures !s.destroyed ==> r.vy <= phys.barrelTerminal
    ensures !s.destroyed ==>
              var v := Cap(s.vy + phys.barrelGravity, phys.barrelTerminal);
              var hit := FirstHit(CentredAt(s.x, s.y + v, size.w, size.h), ps);
              && (hit.None? ==> r.y == s.y + v && r.vy == v)
              && (hit.Some? ==> r.y + size.h / 2.0 == ps[hit.value].TopY() && r.vy == 0.0)
  {
    if s.destroyed then s
    else
      var m := FallStep(Motion(s.y, s.vy), s.x, size.w, size.h, phys.barrelGravity, phys.barrelTerminal, ps);
      s.(y := m.y, vy := m.vy)
  }

  /** A live barrel's box is centred on it with the image's size; a destroyed one reports the off-screen box. */
  function BarrelBox(s: BarrelState, size: Size): (r: Rect)
    ensures s.destroyed ==> r == OffScreen
    ensures !s.destroyed ==>
              r.width == size.w && r.height == size.h && r.left + size.w / 2.0 == s.x && r.top + size.h / 2.0 == s.y
  {
    if s.destroyed then OffScreen else CentredAt(s.x, s.y, size.w, size.h)
  }

  class Barrel {
    const x: real
    const size: Size
    const phys: Constants
    var y: real
    var velocityY: real
    var isDestroyed: bool

    ghost predicate Valid() { size.Valid() && phys.Valid() }

    function State(): BarrelState
      reads this
    {
      BarrelState(x, y, velocityY, isDestroyed)
    }

    constructor (x0: real, y0: real, size: Size, phys: Constants)
      requires size.Valid() && phys.Valid()
      ensures Valid() && this.size == size && this.phys == phys
      ensures State() == BarrelState(x0, y0, 0.0, false)
    {
      x, y, velocityY, isDestroyed := x0, y0, 0.0, false;
      this.size, this.phys := size, phys;
    }

    function BoundingBox(): Rect
      reads this
    {
      BarrelBox(State(), size)
    }

    method Update(ps: seq<Platform>)
      requires Valid()
      modifies this
      ensures State() == BarrelStep(old(State()), size, phys, ps)
    {
      if !isDestroyed {
        var m := FallScan(Motion(y, velocityY), x, size.w, size.h, phys.barrelGravity, phys.barrelTerminal, ps);
        y, velocityY := m.y, m.vy;
      }
    }

    /** One-way: a destroyed barrel stays destroyed and keeps its position. */
    method Destroy()
      modifies this
      ensures State() == old(State()).(destroyed := true)
    {
      isDestroyed := true;
    }
  }
}
