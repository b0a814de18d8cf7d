/**
 * Mario's bullets: fixed horizontal speed, a range, and a one-way `spent` flag.
 */
module Bullets {
  import opened Geometry
  import opened Platforms

  const Speed: real := 3.8
  const MaxDistance: real := 300.0

  /** Every field of a bullet; `y` and the direction are final. */
  datatype BulletState = BulletState(x: real, y: real, movingRight: bool, distance: real, spent: bool) {
    /** A live bullet has not yet exceeded its range. */
    predicate Valid() { 0.0 <= distance && (!spent ==> distance <= MaxDistance) }
  }

  /** The sizes of the left- and right-facing bullet images. */
  datatype BulletArt = BulletArt(left: Size, right: Size) {
    predicate Valid() { left.Valid() && right.Valid() }
  }

  /** A fresh bullet at (x, y). */
  function Fired(x: real, y: real, movingRight: bool): (r: BulletState)
    ensures r.Valid() && !r.spent && r.distance == 0.0
  {
    BulletState(x, y, movingRight, 0.0, false)
  }

  /** The box of the image for the bullet's direction, centred on (x, y). */
  function BulletBox(s: BulletState, art: BulletArt): (r: Rect)
    ensures var img := if s.movingRight then art.right else art.left;
            r.width == img.w && r.height == img.h && r.left + img.w / 2.0 == s.x && r.top + img.h / 2.0 == s.y
  {
    var img := if s.movingRight then art.right else art.left;
    CentredAt(s.x, s.y, img.w, img.h)
  }

  /** `box` meets some platform; the same as the first-hit scan finding one. */
  predicate HitsAnyPlatform(box: Rect, ps: seq<Platform>)
    ensures HitsAnyPlatform(box, ps) <==> FirstHit(box, ps).Some?
  {
    exists j :: 0 <= j < |ps| && Intersects(box, ps[j].BoundingBox())
  }

  /** One call of `update(platforms, screenWidth)`. */
  function BulletStep(s: BulletState, art: BulletArt, ps: seq<Platform>, screenWidth: real): (r: BulletState)
    ensures s.spent ==> r == s
    ensures r.y == s.y && r.movingRight == s.movingRight
    ensures !s.spent ==> r.x == s.x + (if s.movingRight then Speed else -Speed) && r.distance == s.distance + Speed
    ensures !s.spent ==>
              (r.spent <==> r.distance > MaxDistance || r.x < 0.0 || r.x > screenWidth
                            || HitsAnyPlatform(BulletBox(r, art), ps))
    ensures s.Valid() ==> r.Valid()
    ensures s.Valid() && !s.spent && r.distance > MaxDistance ==> r.distance <= MaxDistance + Speed
  {
    if s.spent then s
    else
      var dx := if s.movingRight then Speed else -Speed;
      var moved := s.(x := s.x + dx, distance := s.distance + Speed);
      var out := moved.distance > MaxDistance || moved.x < 0.0 || moved.x > screenWidth;
      moved.(spent := out || FirstHit(BulletBox(moved, art), ps).Some?)
  }

  class Bullet {
    var x: real
    const y: real
    const movingRight: bool
    var distanceTravelled: real
    var spent: bool
    const art: BulletArt

    ghost predicate Valid()
      reads this
    {
      art.Valid() && State().Valid()
    }

    function State(): BulletState
      reads this
    {
      BulletState(x, y, movingRight, distanceTravelled, spent)
    }

    constructor (startX: real, startY: real, movingRight: bool, art: BulletArt)
      requires art.Valid()
      ensures Valid() && this.art == art
      ensures State() == Fired(startX, startY, movingRight)
    {
      x, y, this.movingRight := startX, startY, movingRight;
      distanceTravelled, spent := 0.0, false;
      this.art := art;
    }

    function BoundingBox(): Rect
      reads this
    {
      BulletBox(State(), art)
    }

    method Update(ps: seq<Platform>, screenWidth: real)
      requires Valid()
      modifies this
      ensures Valid()
      ensures State() == BulletStep(old(State()), art, ps, screenWidth)
    {
      if spent {
        return;
      }
      var dx := if movingRight then Speed else -Speed;
      x := x + dx;
      distanceTravelled := distanceTravelled + Speed;
      if distanceTravelled > MaxDistance || x < 0.0 || x > screenWidth {
        spent := true;
      }
      ghost var outOfRange := spent;
      var i := 0;
      while i < |ps|
        invariant 0 <= i <= |ps|
        invariant spent == outOfRange
        invariant forall j :: 0 <= j < i ==> !Intersects(BoundingBox(), ps[j].BoundingBox())
      {
        if Intersects(BoundingBox(), ps[i].BoundingBox()) {
          spent := true;
          break;
        }
        i := i + 1;
      }
    }

    /** One-way and idempotent. */
    method MarkSpent()
      requires Valid()
      modifies this
      ensures Valid()
      ensures State() == old(State()).(spent := true)
    {
      spent := true;
    }

    /** Marks the bullet spent when `hit` holds, and leaves it as it is otherwise. */
    method SpendIf(hit: bool)
      requires Valid()
      modifies this
      ensures Valid()
      ensures State() == old(State()).(spent := old(spent) || hit)
    {
      spent := spent || hit;
    }
  }
}
