/**
 * How the image meter fills in the dimensions its configuration left unset,
 * once a bitmap of known natural size has been loaded.
 */
module Sizing {
  import opened Geometry
  import opened DrawModes

  /** The meter size `(w, h)` after a load of a bitmap of natural size `img`,
      given the current size and which of its dimensions were set explicitly.
      An explicit dimension is never touched. A single missing dimension
      follows the bitmap's aspect ratio, truncated as C++ integer division
      truncates, except that tiling takes the bitmap's own extent and a zero
      natural extent on the other axis gives 0 instead of dividing by it.
      With neither dimension set, the meter takes the natural size. */
  function ResolveSize(mode: DrawMode, img: ImageSize, wDefined: bool, hDefined: bool, w: int, h: int): (r: (int, int))
    ensures wDefined ==> r.0 == w
    ensures hDefined ==> r.1 == h
    ensures !wDefined && !hDefined ==> r == (img.w, img.h)
    // width given, height derived
    ensures wDefined && !hDefined && img.w == 0 ==> r.1 == 0
    ensures wDefined && !hDefined && img.w > 0 && mode == Tile ==> r.1 == img.h
    ensures wDefined && !hDefined && img.w > 0 && mode != Tile && w >= 0 ==>
              0 <= r.1 && r.1 * img.w <= w * img.h < r.1 * img.w + img.w
    ensures wDefined && !hDefined && img.w > 0 && mode != Tile && w < 0 ==>
              r.1 <= 0 && r.1 * img.w - img.w < w * img.h <= r.1 * img.w
    // height given, width derived
    ensures !wDefined && hDefined && img.h == 0 ==> r.0 == 0
    ensures !wDefined && hDefined && img.h > 0 && mode == Tile ==> r.0 == img.w
    ensures !wDefined && hDefined && img.h > 0 && mode != Tile && h >= 0 ==>
              0 <= r.0 && r.0 * img.h <= h * img.w < r.0 * img.h + img.h
    ensures !wDefined && hDefined && img.h > 0 && mode != Tile && h < 0 ==>
              r.0 <= 0 && r.0 * img.h - img.h < h * img.w <= r.0 * img.h
  {
    ProductSign(w, img.h);
    ProductSign(h, img.w);
    if wDefined then
      if hDefined then (w, h)
      else (w, if img.w == 0 then 0 else if mode == Tile then img.h else CDiv(w * img.h, img.w))
    else if hDefined then
      (if img.h == 0 then 0 else if mode == Tile then img.w else CDiv(h * img.w, img.h), h)
    else (img.w, img.h)
  }

  /** The sign of a product with a natural factor follows the other factor. */
  lemma ProductSign(a: int, n: nat)
    ensures a >= 0 ==> a * n >= 0
    ensures a < 0 ==> a * n <= 0
  {
  }

  /** Loading the same bitmap again leaves the meter's size where the first
      load put it: the derived dimension depends only on the explicit one. */
  lemma {:induction false} ResolveSizeStable(mode: DrawMode, img: ImageSize, wDefined: bool, hDefined: bool, w: int, h: int)
    ensures var r := ResolveSize(mode, img, wDefined, hDefined, w, h);
            ResolveSize(mode, img, wDefined, hDefined, r.0, r.1) == r
  {
  }

  /** A bitmap of 100 x 50 under an explicit width of 200 gives a meter 100 high. */
  lemma ResolveSizeExample()
    ensures ResolveSize(KeepRatio, ImageSize(100, 50), true, false, 200, 0) == (200, 100)
  {
  }
}
