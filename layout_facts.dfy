/**
 * What the image meter's layout guarantees: which branch wins, that the
 * aspect modes neither crop (KeepRatio) nor letterbox (KeepRatioAndCrop),
 * and how nine-slice scaling selects, orders and places its cells.
 */
module LayoutFacts {
  import opened Geometry
  import opened DrawModes
  import opened MeterLayout

  /** `inner` sits in the middle of `outer` on both axes: the slack after it
      is the slack before it, or one pixel more when the total is odd. */
  predicate Centred(inner: Rect, outer: Rect) {
    var left := inner.x - outer.x;
    var right := outer.x + outer.w - (inner.x + inner.w);
    var top := inner.y - outer.y;
    var bottom := outer.y + outer.h - (inner.y + inner.h);
    0 <= right - left <= 1 && 0 <= bottom - top <= 1
  }

  // ---------------------------------------------------------------------
  // Branch precedence

  /** A zero extent in the bitmap or the meter draws nothing, in every mode
      and with any margins. */
  lemma DegenerateDrawsNothing(mode: DrawMode, img: ImageSize, p: Placement, m: Margins)
    requires img.w == 0 || img.h == 0 || p.w == 0 || p.h == 0
    ensures Layout(mode, img, p, m) == []
  {
  }

  /** A meter exactly the bitmap's size and without margins is drawn by one
      plain copy of the whole bitmap, whatever the mode. */
  lemma ExactFitIsOneCopy(mode: DrawMode, img: ImageSize, p: Placement)
    requires img.w > 0 && img.h > 0 && p.w == img.w && p.h == img.h
    ensures Layout(mode, img, p, NoMargins) == [Op(Rect(0, 0, img.w, img.h), Rect(p.x, p.y, p.w, p.h), false)]
  {
  }

  /** Outside the exact fit, tiling is one wrap-repeated copy of the meter's
      own extent of the bitmap onto the whole meter, margins or not. */
  lemma TileIsOneTiledCopy(img: ImageSize, p: Placement, m: Margins)
    requires !Degenerate(img, p) && !ExactFit(img, p, m)
    ensures Layout(Tile, img, p, m) == [Op(Rect(0, 0, p.w, p.h), Rect(p.x, p.y, p.w, p.h), true)]
  {
  }

  // ---------------------------------------------------------------------
  // Aspect-ratio modes

  /** Comparing quotients of positive denominators is comparing cross products. */
  lemma RatioCross(a: int, b: int, c: int, d: int)
    requires b > 0 && d > 0
    ensures (a as real / b as real > c as real / d as real) <==> a * d > c * b
  {
    var A, B, C, D := a as real, b as real, c as real, d as real;
    assert A / B * (B * D) == A * D;
    assert C / D * (B * D) == C * B;
    assert (a * d) as real == A * D;
    assert (c * b) as real == C * B;
  }

  /** Cancelling a positive factor from a strict inequality. */
  lemma CancelLess(a: int, b: int, n: int)
    requires n > 0 && a * n < b * n
    ensures a < b
  {
  }

  /** The truncated quotient `CDiv(a, n)` of a dividend below `k * n` stays
      below `k`, and is non-negative for a non-negative dividend. */
  lemma QuotientBelow(a: int, n: int, k: int)
    requires n > 0 && 0 <= a < k * n
    ensures 0 <= CDiv(a, n) < k
  {
    var q := CDiv(a, n);
    CancelLess(q, k, n);
  }

  /** Half of a non-negative slack, truncated, leaves the far side at most
      one pixel larger than the near side. */
  lemma HalfSlack(s: int)
    requires s >= 0
    ensures 0 <= CDiv(s, 2) && 0 <= s - 2 * CDiv(s, 2) <= 1
  {
  }

  /** KeepRatio never crops: the whole bitmap is drawn, untiled, into one
      rectangle, which is the whole meter unless the ratio applies. For a
      meter of positive size that rectangle lies inside the meter, centred;
      when the bitmap is relatively wider it spans the meter's width and its
      height is the width scaled by the bitmap's aspect ratio, truncated, and
      when the bitmap is relatively taller the other way round. */
  lemma {:induction false} KeepRatioLetterboxes(img: ImageSize, p: Placement, m: Margins)
    requires !Degenerate(img, p) && !ExactFit(img, p, m)
    ensures var ops := Layout(KeepRatio, img, p, m);
            |ops| == 1 && !ops[0].tiled && ops[0].src == FullImage(img)
    ensures var d := Layout(KeepRatio, img, p, m)[0].dst;
            !RatioApplies(img, p) ==> d == TargetRect(p)
    ensures var d := Layout(KeepRatio, img, p, m)[0].dst;
            p.w > 0 && p.h > 0 ==> Within(d, TargetRect(p)) && Centred(d, TargetRect(p))
    ensures var d := Layout(KeepRatio, img, p, m)[0].dst;
            p.w > 0 && p.h > 0 && p.wDefined && p.hDefined && img.w * p.h == p.w * img.h ==>
              d == TargetRect(p)
    ensures var d := Layout(KeepRatio, img, p, m)[0].dst;
            p.w > 0 && p.h > 0 && p.wDefined && p.hDefined && img.w * p.h > p.w * img.h ==>
              d.w == p.w && d.h * img.w <= p.w * img.h < d.h * img.w + img.w
    ensures var d := Layout(KeepRatio, img, p, m)[0].dst;
            p.w > 0 && p.h > 0 && p.wDefined && p.hDefined && img.w * p.h < p.w * img.h ==>
              d.h == p.h && d.w * img.h <= p.h * img.w < d.w * img.h + img.h
  {
    if p.w > 0 && p.h > 0 {
      RatioCross(img.w, img.h, p.w, p.h);
      RatioCross(p.w, p.h, img.w, img.h);
      if RatioApplies(img, p) {
        if ImageRatio(img) > MeterRatio(p) {
          var drawH := CDiv(p.w * img.h, img.w);
          QuotientBelow(p.w * img.h, img.w, p.h);
          HalfSlack(p.h - drawH);
        } else {
          var drawW := CDiv(p.h * img.w, img.h);
          QuotientBelow(p.h * img.w, img.h, p.w);
          HalfSlack(p.w - drawW);
        }
      }
    }
  }

  /** The crop rectangle lies inside the bitmap, centred, and has the
      meter's aspect ratio up to truncation: when the bitmap is relatively
      wider it keeps the bitmap's height and its width is that height scaled
      by the meter's ratio, truncated; when the bitmap is relatively taller
      it keeps the width and scales the height. Otherwise it is the whole
      bitmap. */
  lemma CropRectInside(img: ImageSize, p: Placement)
    requires img.w > 0 && img.h > 0 && p.w > 0 && p.h > 0
    ensures var c := CropRect(img, p);
            Within(c, FullImage(img)) && Centred(c, FullImage(img)) && (c.w == img.w || c.h == img.h)
    ensures var c := CropRect(img, p);
            p.wDefined && p.hDefined && img.w * p.h == p.w * img.h ==> c == FullImage(img)
    ensures var c := CropRect(img, p);
            p.wDefined && p.hDefined && img.w * p.h > p.w * img.h ==>
              c.h == img.h && c.w * p.h <= img.h * p.w < c.w * p.h + p.h
    ensures var c := CropRect(img, p);
            p.wDefined && p.hDefined && img.w * p.h < p.w * img.h ==>
              c.w == img.w && c.h * p.w <= img.w * p.h < c.h * p.w + p.w
  {
    RatioCross(img.w, img.h, p.w, p.h);
    RatioCross(p.w, p.h, img.w, img.h);
    if RatioApplies(img, p) {
      if ImageRatio(img) > MeterRatio(p) {
        QuotientBelow(img.h * p.w, p.h, img.w);
        HalfSlack(img.w - CDiv(img.h * p.w, p.h));
      } else {
        QuotientBelow(img.w * p.h, p.w, img.h);
        HalfSlack(img.h - CDiv(img.w * p.h, p.w));
      }
    }
  }

  /** KeepRatioAndCrop never letterboxes: one untiled operation fills the
      whole meter, from the whole bitmap when the ratio does not apply. For a
      meter of positive size its source is the crop rectangle described by
      `CropRectInside`: inside the bitmap, centred, with the meter's aspect
      ratio up to truncation. */
  lemma {:induction false} CropFillsMeter(img: ImageSize, p: Placement, m: Margins)
    requires !Degenerate(img, p) && !ExactFit(img, p, m)
    ensures var ops := Layout(KeepRatioAndCrop, img, p, m);
            |ops| == 1 && !ops[0].tiled && ops[0].dst == TargetRect(p)
    ensures !RatioApplies(img, p) ==> Layout(KeepRatioAndCrop, img, p, m)[0].src == FullImage(img)
    ensures var c := Layout(KeepRatioAndCrop, img, p, m)[0].src;
            p.w > 0 && p.h > 0 ==>
              Within(c, FullImage(img)) && Centred(c, FullImage(img)) && (c.w == img.w || c.h == img.h)
    ensures var c := Layout(KeepRatioAndCrop, img, p, m)[0].src;
            p.w > 0 && p.h > 0 && p.wDefined && p.hDefined && img.w * p.h == p.w * img.h ==>
              c == FullImage(img)
    ensures var c := Layout(KeepRatioAndCrop, img, p, m)[0].src;
            p.w > 0 && p.h > 0 && p.wDefined && p.hDefined && img.w * p.h > p.w * img.h ==>
              c.h == img.h && c.w * p.h <= img.h * p.w < c.w * p.h + p.h
    ensures var c := Layout(KeepRatioAndCrop, img, p, m)[0].src;
            p.w > 0 && p.h > 0 && p.wDefined && p.hDefined && img.w * p.h < p.w * img.h ==>
              c.w == img.w && c.h * p.w <= img.w * p.h < c.h * p.w + p.w
  {
    if p.w > 0 && p.h > 0 {
      CropRectInside(img, p);
    }
  }

  /** A bitmap of 100 x 100 cropped into a meter of 50 x 100 keeps its middle
      half: columns 25 to 74. */
  lemma CropExample(x: int, y: int)
    ensures Layout(KeepRatioAndCrop, ImageSize(100, 100), Placement(x, y, 50, 100, true, true), NoMargins)
         == [Op(Rect(25, 0, 50, 100), Rect(x, y, 50, 100), false)]
  {
    assert MeterRatio(Placement(x, y, 50, 100, true, true)) == 0.5;
  }
}
