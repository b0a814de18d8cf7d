/**
 * Bananas thrown by intelligent monkeys: fixed horizontal speed, a range, and a
 * one-way `expired` flag. The position is the top-left corner of the image.
 */
module Bananas {
  import opened Geometry

  const Speed: real := 1.8
  const MaxDistance: real := 300.0

  /** Every field of a banana; `y` and the direction are final. */
  datatype BananaState = BananaState(x: real, y: real, movingRight: bool, distance: real, expired: bool) {
    /** A live banana has not yet reached its range. */
    predicate Valid() { 0.0 <= distance && (!expired ==> distance < MaxDistance) }
  }

  /** A fresh banana at (x, y). */
  function Thrown(x: real, y: real, movingRight: bool): (r: BananaState)
    ensures r.Valid() && !r.expired && r.distance == 0.0
  {
    BananaState(x, y, movingRight, 0.0, false)
  }

  /** The image's box with its top-left corner at (x, y). */
  function BananaBox(s: BananaState, size: Size): (r: Rect)
    ensures r.left == s.x && r.top == s.y && r.width == size.w && r.height == size.h
  {
    CentredAt(s.x + size.w / 2.0, s.y + size.h / 2.0, size.w, size.h)
  }

  /** One call of `update()`. Unlike a bullet's, the range test is non-strict. */
  function BananaStep(s: BananaState): (r: BananaState)
    ensures s.expired ==> r == s
    ensures r.y == s.y && r.movingRight == s.movingRight
    ensures !s.expired ==> r.x == s.x + (if s.movingRight then Speed else -Speed) && r.distance == s.distance + Speed
    ensures !s.expired ==> (r.expired <==> r.distance >= MaxDistance)
    ensures s.Valid() ==> r.Valid()
    ensures s.Valid() && !s.expired && r.expired ==> MaxDistance <= r.distance < MaxDistance + Speed
  {
    if s.expired then s
    else
      var dx := if s.movingRight then Speed else -Speed;
      var d := s.distance + Speed;
      s.(x := s.x + dx, distance := d, expired := d >= MaxDistance)
  }

  class Banana {
    var x: real
    const y: real
    const movingRight: bool
    var distanceTraveled: real
    var expired: bool
    const size: Size
    /** The slot of the monkey that threw it: a proof device that keeps the monkeys' footprints
        apart. */
    ghost const owner: int

    ghost predicate Valid()
      reads this
    {
      size.Valid() && State().Valid()
    }

    function State(): BananaState
      reads this
    {
      BananaState(x, y, movingRight, distanceTraveled, expired)
    }

    constructor (x0: real, y0: real, movingRight: bool, size: Size, ghost owner: int)
      requires size.Valid()
      ensures Valid() && this.size == size && this.owner == owner
      ensures State() == Thrown(x0, y0, movingRight)
    {
      x, y, this.movingRight := x0, y0, movingRight;
      distanceTraveled, expired := 0.0, false;
      this.size, this.owner := size, owner;
    }

    function BoundingBox(): Rect
      reads this
    {
      BananaBox(State(), size)
    }

    method Update()
      requires Valid()
      modifies this
      ensures Valid()
      ensures State() == BananaStep(old(State()))
    {
      if expired {
        return;
      }
      var dx := if movingRight then Speed else -Speed;
      x := x + dx;
      distanceTraveled := distanceTraveled + Speed;
      if distanceTraveled >= MaxDistance {
        expired := true;
      }
    }

    /** One-way. */
    method Expire()
      requires Valid()
      modifies this
      ensures Valid()
      ensures State() == old(State()).(expired := true)
    {
      expired := true;
    }
  }
}
