/** The Qt value types the core passes around, with real coordinates. */
module Geometry {

  /** An integer size (QSize) of an image, a widget or a screen. */
  datatype Size = Size(width: nat, height: nat)

  /** A rectangle (QRectF) given by its top-left corner and its extent. */
  datatype Rect = Rect(x: real, y: real, width: real, height: real)

  /** Componentwise minimum of two sizes (QSize::boundedTo). */
  function BoundedTo(s: Size, bound: Size): (r: Size)
    ensures r.width <= s.width && r.width <= bound.width
    ensures r.width == s.width || r.width == bound.width
    ensures r.height <= s.height && r.height <= bound.height
    ensures r.height == s.height || r.height == bound.height
  {
    Size(if s.width <= bound.width then s.width else bound.width,
         if s.height <= bound.height then s.height else bound.height)
  }

  /** The integer point (x, y) lies in the rectangle (0, 0, size) (QRect::contains). */
  predicate Contains(size: Size, x: int, y: int)
  {
    0 <= x < size.width && 0 <= y < size.height
  }
}
