/**
 * Axis-aligned rectangles as the game's graphics library gives them: a top-left
 * corner and a size, y growing downwards.
 *
 * Boundary convention: the library's intersection test is not part of this model;
 * here it is closed, so two rectangles that only touch along an edge intersect.
 * Every collision of the model uses this one predicate.
 */
module Geometry {
  datatype Rect = Rect(left: real, top: real, width: real, height: real) {
    function Right(): real { left + width }
    function Bottom(): real { top + height }
  }

  /** Both the horizontal and the vertical extents overlap (edges included). */
  predicate Intersects(a: Rect, b: Rect) {
    a.left <= b.Right() && b.left <= a.Right() && a.top <= b.Bottom() && b.top <= a.Bottom()
  }

  /** The size of an image: positive width and height. */
  datatype Size = Size(w: real, h: real) {
    predicate Valid() { w > 0.0 && h > 0.0 }
  }

  /** A box of size (w, h) whose centre is (cx, cy): `new Rectangle(x - w/2, y - h/2, w, h)`
      and `Image.getBoundingBoxAt(point)`. */
  function CentredAt(cx: real, cy: real, w: real, h: real): (r: Rect)
    ensures r.width == w && r.height == h
    ensures r.left + w / 2.0 == cx && r.top + h / 2.0 == cy
  {
    Rect(cx - w / 2.0, cy - h / 2.0, w, h)
  }

  /** The degenerate box a destroyed barrel or a collected hammer reports. */
  const OffScreen: Rect := Rect(-1000.0, -1000.0, 0.0, 0.0)
}
