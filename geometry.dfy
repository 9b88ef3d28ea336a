/**
 * The vocabulary the image meter's layout code works in: rectangles in the
 * `Rect(x, y, width, height)` form of the drawing calls, the draw operations
 * the meter issues, scale margins, and C++ integer division, which the
 * layout arithmetic relies on and which truncates toward zero.
 */
module Geometry {

  /** A rectangle as the drawing calls take it. Width and height are plain
      integers: nothing in the meter clamps them at zero. */
  datatype Rect = Rect(x: int, y: int, w: int, h: int)

  /** One call of the drawing primitive: copy the bitmap's `src` rectangle
      onto `dst`, stretched, or wrap-repeated when `tiled`. */
  datatype Op = Op(src: Rect, dst: Rect, tiled: bool)

  /** Natural pixel size of a loaded bitmap; the loader reports unsigned values. */
  datatype ImageSize = ImageSize(w: nat, h: nat)

  /** The `ScaleMargins` insets, in the field order of a Win32 `RECT`. */
  datatype Margins = Margins(left: int, top: int, right: int, bottom: int)

  const NoMargins := Margins(0, 0, 0, 0)

  /** The whole bitmap as a source rectangle. */
  function FullImage(img: ImageSize): Rect {
    Rect(0, 0, img.w, img.h)
  }

  /** `r` lies inside `outer`. */
  predicate Within(r: Rect, outer: Rect) {
    outer.x <= r.x && r.x + r.w <= outer.x + outer.w &&
    outer.y <= r.y && r.y + r.h <= outer.y + outer.h
  }

  /** `a` and `b` share no interior point. */
  predicate Disjoint(a: Rect, b: Rect) {
    a.x + a.w <= b.x || b.x + b.w <= a.x || a.y + a.h <= b.y || b.y + b.h <= a.y
  }

  /** C++ `a / b` for a positive divisor: the exact quotient truncated toward
      zero, so that a negative dividend rounds up rather than down. */
  function CDiv(a: int, b: int): (q: int)
    requires b > 0
    ensures 0 <= a ==> 0 <= q && q * b <= a < q * b + b
    ensures a < 0 ==> q <= 0 && q * b - b < a <= q * b
  {
    if a >= 0 then a / b else -((-a) / b)
  }

  /** C++ `a / b` for any non-zero divisor: the exact quotient truncated
      toward zero, non-negative when the signs agree and non-positive when
      they differ. */
  function Quot(a: int, b: int): (q: int)
    requires b != 0
    ensures b > 0 && 0 <= a ==> 0 <= q && q * b <= a < q * b + b
    ensures b > 0 && a < 0 ==> q <= 0 && q * b - b < a <= q * b
    ensures b < 0 && 0 <= a ==> q <= 0 && q * b <= a < q * b - b
    ensures b < 0 && a < 0 ==> 0 <= q && q * b + b < a <= q * b
  {
    if b > 0 then CDiv(a, b) else CDiv(-a, -b)
  }
}
