/**
 * The collectible weapons. A hammer is centre-based and reports the off-screen
 * box once collected; a blaster is top-left based and keeps its box after
 * collection (its doc comment says otherwise), so callers test `collected`.
 */
module Hammers {
  import opened Geometry

  /** The box of a hammer at (x, y). */
  function HammerBox(x: real, y: real, size: Size, collected: bool): (r: Rect)
    ensures collected ==> r == OffScreen
    ensures !collected ==>
              r.width == size.w && r.height == size.h && r.left + size.w / 2.0 == x && r.top + size.h / 2.0 == y
  {
    if collected then OffScreen else CentredAt(x, y, size.w, size.h)
  }

  class Hammer {
    const x: real
    const y: real
    const size: Size
    var isCollected: bool

    constructor (x0: real, y0: real, size: Size)
      ensures x == x0 && y == y0 && this.size == size && !isCollected
    {
      x, y, this.size, isCollected := x0, y0, size, false;
    }

    function BoundingBox(): Rect
      reads this
    {
      HammerBox(x, y, size, isCollected)
    }

    /** Drawn only while not collected. */
    predicate Visible()
      reads this
    {
      !isCollected
    }

    /** One-way. */
    method Collect()
      modifies this
      ensures isCollected
    {
      isCollected := true;
    }
  }
}

module Blasters {
  import opened Geometry

  const DefaultAmmo: int := 5

  /** The box of a blaster whose top-left corner is (x, y); collection does not change it. */
  function BlasterBox(x: real, y: real, size: Size): (r: Rect)
    ensures r.left == x && r.top == y && r.width == size.w && r.height == size.h
  {
    CentredAt(x + size.w / 2.0, y + size.h / 2.0, size.w, size.h)
  }

  class Blaster {
    const x: real
    const y: real
    const size: Size
    var bullets: int
    var collected: bool

    constructor (x0: real, y0: real, size: Size)
      ensures x == x0 && y == y0 && this.size == size
      ensures bullets == DefaultAmmo && !collected
    {
      x, y, this.size := x0, y0, size;
      bullets, collected := DefaultAmmo, false;
    }

    function BoundingBox(): Rect
      reads this
    {
      BlasterBox(x, y, size)
    }

    predicate Visible()
      reads this
    {
      !collected
    }

    function GetAmmo(): int
      reads this
    {
      bullets
    }

    /** One-way; the ammo is left as it is. */
    method Collect()
      modifies this
      ensures collected && bullets == old(bullets)
    {
      collected := true;
    }

    /** Assigns the ammo exactly. */
    method SetBullets(b: int)
      modifies this
      ensures bullets == b && collected == old(collected)
    {
      bullets := b;
    }
  }
}
