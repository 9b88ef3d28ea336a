/**
 * The image meter itself: the state it keeps between ticks, how it resolves
 * which bitmap to show, when it asks the loader to reload, how a load fixes
 * the meter's size, and the step-by-step drawing, proved to issue exactly
 * the operations `Layout` prescribes.
 *
 * The collaborators outside this meter enter as parameters: the base meter's
 * own update and draw verdicts and its position, the bitmap loader's result,
 * the formatted value of the first bound measure, and measure-token
 * substitution in a string.
 */
module ImageMeter {
  import opened Geometry
  import opened DrawModes
  import opened Sizing
  import opened MeterLayout
  import NineSliceFacts

  /** The meter's bitmap: not loaded, or loaded with its natural size. */
  datatype LoadedImage = Unloaded | Loaded(size: ImageSize)

  /** What measure-token substitution makes of a string: the new text, and
      whether any token was replaced. */
  datatype Substitution = Substitution(text: string, replaced: bool)

  /** One call of the bitmap loader: the name, and whether to load it even
      when the loader already holds a bitmap under that name. */
  datatype LoadRequest = LoadRequest(name: string, loadAlways: bool)

  /** The bitmap name for this tick. Without measures the configured name is
      used as it stands. With measures, the first measure's value is used when
      the configured name is empty, or when substituting measure tokens into
      it replaces nothing (the name is then an inert label); otherwise the
      substituted name is used. */
  function ResolveName(template: string, hasMeasures: bool, firstValue: string,
                       replaceMeasures: string -> Substitution): (name: string)
    ensures !hasMeasures ==> name == template
    ensures hasMeasures && template == "" ==> name == firstValue
    ensures hasMeasures && template != "" && !replaceMeasures(template).replaced ==> name == firstValue
    ensures hasMeasures && template != "" && replaceMeasures(template).replaced ==> name == replaceMeasures(template).text
  {
    if !hasMeasures then template
    else if template == "" then firstValue
    else
      var s := replaceMeasures(template);
      if s.replaced then s.text else firstValue
  }

  class MeterImage {
    // Options this meter reads.
    var imageName: string
    var drawMode: DrawMode
    var scaleMargins: Margins

    // State this meter keeps between ticks.
    var imageNameResult: string
    var needsRedraw: bool
    var image: LoadedImage
    /** Every call made to the bitmap loader, oldest first. */
    var loads: seq<LoadRequest>

    // State of the base meter: the size this meter may fill in, which of
    // its dimensions were configured, the bound measures and whether the
    // meter has dynamic variables or has been initialised.
    var w: int
    var h: int
    var wDefined: bool
    var hDefined: bool
    var measureCount: nat
    var dynamicVariables: bool
    var initialized: bool

    /** A new meter has draw mode None, no margins, no bitmap and
        nothing to redraw; the base meter's state is given. */
    constructor (w: int, h: int, wDefined: bool, hDefined: bool, measureCount: nat,
                 dynamicVariables: bool, initialized: bool)
      ensures this.w == w && this.h == h && this.wDefined == wDefined && this.hDefined == hDefined
      ensures this.measureCount == measureCount && this.dynamicVariables == dynamicVariables
      ensures this.initialized == initialized
      ensures imageName == "" && imageNameResult == "" && !needsRedraw
      ensures drawMode == None && scaleMargins == NoMargins
      ensures image == Unloaded && loads == []
    {
      this.w, this.h, this.wDefined, this.hDefined := w, h, wDefined, hDefined;
      this.measureCount, this.dynamicVariables, this.initialized := measureCount, dynamicVariables, initialized;
      imageName, imageNameResult, needsRedraw := "", "", false;
      drawMode, scaleMargins := None, NoMargins;
      image, loads := Unloaded, [];
    }

    /** The bitmap name follows measures or dynamic variables and is
        re-resolved on every tick. */
    predicate Dynamic()
      reads this
    {
      measureCount > 0 || dynamicVariables
    }

    /** The meter shows one fixed, named bitmap. */
    predicate Static()
      reads this
    {
      measureCount == 0 && !dynamicVariables && imageName != ""
    }

    /** Asks the loader for `name` (it yields `loaded`), and after a
        successful load fills in the size the configuration left unset. */
    method LoadImage(name: string, loadAlways: bool, loaded: LoadedImage)
      modifies this`image, this`w, this`h, this`loads
      ensures loads == old(loads) + [LoadRequest(name, loadAlways)]
      ensures image == loaded
      ensures loaded.Loaded? ==> (w, h) == ResolveSize(drawMode, loaded.size, wDefined, hDefined, old(w), old(h))
      ensures loaded.Unloaded? ==> w == old(w) && h == old(h)
    {
      loads := loads + [LoadRequest(name, loadAlways)];
      image := loaded;
      if image.Loaded? {
        var size := ResolveSize(drawMode, image.size, wDefined, hDefined, w, h);
        w, h := size.0, size.1;
      }
    }

    /** A static meter loads its bitmap once, unconditionally; a meter whose
        name follows measures or dynamic variables waits for its first tick. */
    method Initialize(loaded: LoadedImage)
      modifies this`imageNameResult, this`image, this`w, this`h, this`loads
      ensures old(Static()) ==> imageNameResult == imageName &&
                                loads == old(loads) + [LoadRequest(imageName, true)] && image == loaded &&
                                (loaded.Loaded? ==> (w, h) == ResolveSize(drawMode, loaded.size, wDefined, hDefined, old(w), old(h))) &&
                                (loaded.Unloaded? ==> w == old(w) && h == old(h))
      ensures !old(Static()) ==> unchanged(this)
    {
      if measureCount == 0 && !dynamicVariables && imageName != "" {
        imageNameResult := imageName;
        LoadImage(imageName, true, loaded);
      }
    }

    /** Takes the parsed options: the name, the draw mode chosen by `Tile` and
        `PreserveAspectRatio`, and the scale margins. A meter already
        initialised whose name follows neither measures nor dynamic variables
        is initialised again and marked for one redraw. */
    method ReadOptions(name: string, tile: int, preserveAspectRatio: int, margins: Margins, loaded: LoadedImage)
      modifies this`imageName, this`drawMode, this`scaleMargins, this`needsRedraw
      modifies this`imageNameResult, this`image, this`w, this`h, this`loads
      ensures imageName == name && drawMode == ModeOf(tile, preserveAspectRatio) && scaleMargins == margins
      ensures old(initialized && !Dynamic()) ==>
                needsRedraw &&
                (name != "" ==> imageNameResult == name &&
                                loads == old(loads) + [LoadRequest(name, true)] && image == loaded &&
                                (loaded.Loaded? ==> (w, h) == ResolveSize(drawMode, loaded.size, wDefined, hDefined, old(w), old(h))) &&
                                (loaded.Unloaded? ==> w == old(w) && h == old(h))) &&
                (name == "" ==> imageNameResult == old(imageNameResult) && loads == old(loads) &&
                                image == old(image) && w == old(w) && h == old(h))
      ensures !old(initialized && !Dynamic()) ==>
                needsRedraw == old(needsRedraw) && imageNameResult == old(imageNameResult) &&
                loads == old(loads) && image == old(image) && w == old(w) && h == old(h)
    {
      imageName := name;
      drawMode := ModeOf(tile, preserveAspectRatio);
      scaleMargins := margins;
      if initialized && measureCount == 0 && !dynamicVariables {
        Initialize(loaded);
        needsRedraw := true;
      }
    }

    /** One update tick, after the base meter's own update (`baseUpdated`).
        A dynamic meter re-resolves its bitmap name and asks the loader for
        it, forcing a reload exactly when the name differs from the previous
        one; it always reports a change. A static meter reports a change once
        after its options were re-read, and then no more. */
    method Update(baseUpdated: bool, firstValue: string, replaceMeasures: string -> Substitution,
                  loaded: LoadedImage) returns (changed: bool)
      modifies this`imageNameResult, this`needsRedraw, this`image, this`w, this`h, this`loads
      ensures !baseUpdated ==> !changed && unchanged(this)
      ensures baseUpdated && old(Dynamic()) ==>
                changed && needsRedraw == old(needsRedraw) &&
                imageNameResult == ResolveName(imageName, measureCount > 0, firstValue, replaceMeasures) &&
                loads == old(loads) + [LoadRequest(imageNameResult, imageNameResult != old(imageNameResult))] &&
                image == loaded &&
                (loaded.Loaded? ==> (w, h) == ResolveSize(drawMode, loaded.size, wDefined, hDefined, old(w), old(h))) &&
                (loaded.Unloaded? ==> w == old(w) && h == old(h))
      ensures baseUpdated && !old(Dynamic()) ==>
                changed == old(needsRedraw) && !needsRedraw &&
                imageNameResult == old(imageNameResult) && loads == old(loads) &&
                image == old(image) && w == old(w) && h == old(h)
    {
      if baseUpdated {
        if measureCount > 0 || dynamicVariables {
          var oldResult := imageNameResult;
          if measureCount > 0 {
            if imageName == "" {
              imageNameResult := firstValue;
            } else {
              imageNameResult := imageName;
              var substitution := replaceMeasures(imageNameResult);
              imageNameResult := substitution.text;
              if !substitution.replaced {
                // the name holds no measure tokens: use the measure's value
                imageNameResult := firstValue;
              }
            }
          } else {
            imageNameResult := imageName;
          }
          LoadImage(imageNameResult, oldResult != imageNameResult, loaded);
          return true;
        } else if needsRedraw {
          needsRedraw := false;
          return true;
        }
      }
      return false;
    }

    /** Draws the meter at the base meter's position (`meterX`, `meterY`),
        after the base meter's own drawing (`baseDrawn`). The calls of the
        drawing primitive are returned in order; a meter without a bitmap
        draws nothing and still succeeds. */
    method Draw(baseDrawn: bool, meterX: int, meterY: int) returns (ok: bool, ops: seq<Op>)
      ensures ok == baseDrawn
      ensures ops == if baseDrawn && image.Loaded?
                     then Layout(drawMode, image.size, Placement(meterX, meterY, w, h, wDefined, hDefined), scaleMargins)
                     else []
    {
      ops := [];
      if !baseDrawn {
        return false, ops;
      }
      if image.Loaded? {
        var img := image.size;
        var p := Placement(meterX, meterY, w, h, wDefined, hDefined);
        if img.w == 0 || img.h == 0 || w == 0 || h == 0 {
          return true, ops;
        }
        var m := scaleMargins;
        if w == img.w && h == img.h && m.left == 0 && m.top == 0 && m.right == 0 && m.bottom == 0 {
          ops := ops + [Op(Rect(0, 0, img.w, img.h), Rect(meterX, meterY, w, h), false)];
        } else if drawMode == Tile {
          ops := ops + [Op(Rect(0, 0, w, h), Rect(meterX, meterY, w, h), true)];
        } else if drawMode == KeepRatio || drawMode == KeepRatioAndCrop {
          var op := DrawAspect(drawMode == KeepRatio, img, p);
          ops := ops + [op];
        } else {
          ops := DrawNineSlice(img, p, m);
        }
      }
      return true, ops;
    }
  }

  /** Two update ticks of a meter whose name follows measures or dynamic
      variables, with the same measure value both times: both report a
      change, and only the first can force a reload, since the second
      resolves the name the first one left behind. */
  method SteadyTicks(meter: MeterImage, firstValue: string, replaceMeasures: string -> Substitution,
                     loaded1: LoadedImage, loaded2: LoadedImage) returns (changed1: bool, changed2: bool)
    requires meter.Dynamic()
    modifies meter
    ensures changed1 && changed2
    ensures |meter.loads| == |old(meter.loads)| + 2
    ensures var name := ResolveName(meter.imageName, meter.measureCount > 0, firstValue, replaceMeasures);
            meter.loads[|meter.loads| - 2] == LoadRequest(name, name != old(meter.imageNameResult)) &&
            meter.loads[|meter.loads| - 1] == LoadRequest(name, false)
  {
    changed1 := meter.Update(true, firstValue, replaceMeasures, loaded1);
    changed2 := meter.Update(true, firstValue, replaceMeasures, loaded2);
  }

  /** A static meter whose options were re-read reports a change on the next
      update tick and on none after it. */
  method RedrawOnce(meter: MeterImage, firstValue: string, replaceMeasures: string -> Substitution,
                    loaded: LoadedImage) returns (changed1: bool, changed2: bool)
    requires !meter.Dynamic() && meter.needsRedraw
    modifies meter
    ensures changed1 && !changed2
    ensures !meter.needsRedraw && meter.loads == old(meter.loads)
  {
    changed1 := meter.Update(true, firstValue, replaceMeasures, loaded);
    changed2 := meter.Update(true, firstValue, replaceMeasures, loaded);
  }

  // The branches of `FitRect` and `CropRect`, spelled out one at a time so
  // that `DrawAspect` need not unfold them in its own, larger context.

  lemma RatioIgnored(img: ImageSize, p: Placement)
    requires !Degenerate(img, p) && !RatioApplies(img, p)
    ensures FitRect(img, p) == TargetRect(p) && CropRect(img, p) == FullImage(img)
  {
  }

  lemma FitWider(img: ImageSize, p: Placement)
    requires !Degenerate(img, p)
    ensures RatioApplies(img, p) && ImageRatio(img) > MeterRatio(p) ==>
            var drawH := CDiv(p.w * img.h, img.w);
            FitRect(img, p) == Rect(p.x, p.y + CDiv(p.h - drawH, 2), p.w, drawH)
  {
  }

  lemma FitTaller(img: ImageSize, p: Placement)
    requires !Degenerate(img, p)
    ensures RatioApplies(img, p) && !(ImageRatio(img) > MeterRatio(p)) ==>
            var drawW := CDiv(p.h * img.w, img.h);
            FitRect(img, p) == Rect(p.x + CDiv(p.w - drawW, 2), p.y, drawW, p.h)
  {
  }

  lemma CropWider(img: ImageSize, p: Placement)
    requires !Degenerate(img, p)
    ensures RatioApplies(img, p) && ImageRatio(img) > MeterRatio(p) ==>
            var cropW := Quot(img.h * p.w, p.h);
            CropRect(img, p) == Rect(CDiv(img.w - cropW, 2), 0, cropW, img.h)
  {
  }

  lemma CropTaller(img: ImageSize, p: Placement)
    requires !Degenerate(img, p)
    ensures RatioApplies(img, p) && !(ImageRatio(img) > MeterRatio(p)) ==>
            var cropH := Quot(img.w * p.h, p.w);
            CropRect(img, p) == Rect(0, CDiv(img.h - cropH, 2), img.w, cropH)
  {
  }

  /** The single operation of the two aspect-ratio modes, worked out step by
      step: KeepRatio (`keep`) shrinks the destination, KeepRatioAndCrop cuts
      down the source; both only when both dimensions were given and the
      bitmap's and the meter's ratios differ. */
  method DrawAspect(keep: bool, img: ImageSize, p: Placement) returns (op: Op)
    requires !Degenerate(img, p)
    ensures op == if keep then Op(FullImage(img), FitRect(img, p), false)
                  else Op(CropRect(img, p), TargetRect(p), false)
  {
    if !RatioApplies(img, p) {
      RatioIgnored(img, p);
    }
    var x, y, drawW, drawH := p.x, p.y, p.w, p.h;
    var cropX, cropY, cropW, cropH := 0, 0, img.w, img.h;
    if p.wDefined && p.hDefined {
      if ImageRatio(img) != MeterRatio(p) {
        if keep {
          if ImageRatio(img) > MeterRatio(p) {
            FitWider(img, p);
            drawH := CDiv(p.w * img.h, img.w);
            y := y + CDiv(p.h - drawH, 2);
          } else {
            FitTaller(img, p);
            drawW := CDiv(p.h * img.w, img.h);
            x := x + CDiv(p.w - drawW, 2);
          }
        } else {
          if ImageRatio(img) > MeterRatio(p) {
            CropWider(img, p);
            cropW := Quot(img.h * p.w, p.h);
            cropX := CDiv(img.w - cropW, 2);
          } else {
            CropTaller(img, p);
            cropH := Quot(img.w * p.h, p.w);
            cropY := CDiv(img.h - cropH, 2);
          }
        }
      }
    }
    op := Op(Rect(cropX, cropY, cropW, cropH), Rect(x, y, drawW, drawH), false);
  }

  /** The nine cells' operations in the coordinates `DrawNineSlice` uses. */
  lemma SliceOpsSpelledOut(img: ImageSize, p: Placement, m: Margins)
    ensures SliceOp(Region(Near, Near), img, p, m)
         == Op(Rect(0, 0, m.left, m.top), Rect(p.x, p.y, m.left, m.top), false)
    ensures SliceOp(Region(Middle, Near), img, p, m)
         == Op(Rect(m.left, 0, img.w - m.left - m.right, m.top),
               Rect(p.x + m.left, p.y, p.w - m.left - m.right, m.top), false)
    ensures SliceOp(Region(Far, Near), img, p, m)
         == Op(Rect(img.w - m.right, 0, m.right, m.top), Rect(p.x + p.w - m.right, p.y, m.right, m.top), false)
    ensures SliceOp(Region(Near, Middle), img, p, m)
         == Op(Rect(0, m.top, m.left, img.h - m.top - m.bottom),
               Rect(p.x, p.y + m.top, m.left, p.h - m.top - m.bottom), false)
    ensures SliceOp(Region(Middle, Middle), img, p, m)
         == Op(Rect(m.left, m.top, img.w - m.left - m.right, img.h - m.top - m.bottom),
               Rect(p.x + m.left, p.y + m.top, p.w - m.left - m.right, p.h - m.top - m.bottom), false)
    ensures SliceOp(Region(Far, Middle), img, p, m)
         == Op(Rect(img.w - m.right, m.top, m.right, img.h - m.top - m.bottom),
               Rect(p.x + p.w - m.right, p.y + m.top, m.right, p.h - m.top - m.bottom), false)
    ensures SliceOp(Region(Near, Far), img, p, m)
         == Op(Rect(0, img.h - m.bottom, m.left, m.bottom), Rect(p.x, p.y + p.h - m.bottom, m.left, m.bottom), false)
    ensures SliceOp(Region(Middle, Far), img, p, m)
         == Op(Rect(m.left, img.h - m.bottom, img.w - m.left - m.right, m.bottom),
               Rect(p.x + m.left, p.y + p.h - m.bottom, p.w - m.left - m.right, m.bottom), false)
    ensures SliceOp(Region(Far, Far), img, p, m)
         == Op(Rect(img.w - m.right, img.h - m.bottom, m.right, m.bottom),
               Rect(p.x + p.w - m.right, p.y + p.h - m.bottom, m.right, m.bottom), false)
  {
  }

  /** Nine-slice scaling worked out step by step, row by row: the top row
      when the top margin is positive, the middle row always, the bottom row
      when the bottom margin is positive. */
  method DrawNineSlice(img: ImageSize, p: Placement, m: Margins) returns (ops: seq<Op>)
    ensures ops == NineSlice(img, p, m)
  {
    NineSliceFacts.NineSliceRows(img, p, m);
    var top := DrawTopRow(img, p, m);
    var middle := DrawMiddleRow(img, p, m);
    var bottom := DrawBottomRow(img, p, m);
    ops := top + middle + bottom;
  }

  /** The top row: the top-left corner when the left margin is positive, the
      top edge, the top-right corner when the right margin is positive; all
      only when the top margin is positive. */
  method DrawTopRow(img: ImageSize, p: Placement, m: Margins) returns (ops: seq<Op>)
    ensures ops == SliceOps(DrawnRegions(RowOrder(Near), m), img, p, m)
  {
    NineSliceFacts.RowOps(Near, img, p, m);
    SliceOpsSpelledOut(img, p, m);
    var imageW, x, y, drawW := img.w, p.x, p.y, p.w;
    ops := [];
    if m.top > 0 {
      if m.left > 0 {
        // top-left
        ops := ops + [Op(Rect(0, 0, m.left, m.top), Rect(x, y, m.left, m.top), false)];
      }
      // top
      ops := ops + [Op(Rect(m.left, 0, imageW - m.left - m.right, m.top),
                       Rect(x + m.left, y, drawW - m.left - m.right, m.top), false)];
      if m.right > 0 {
        // top-right
        ops := ops + [Op(Rect(imageW - m.right, 0, m.right, m.top),
                         Rect(x + drawW - m.right, y, m.right, m.top), false)];
      }
    }
  }

  /** The middle row: the left edge when the left margin is positive, the
      centre, the right edge when the right margin is positive. */
  method DrawMiddleRow(img: ImageSize, p: Placement, m: Margins) returns (ops: seq<Op>)
    ensures ops == SliceOps(DrawnRegions(RowOrder(Middle), m), img, p, m)
  {
    NineSliceFacts.RowOps(Middle, img, p, m);
    SliceOpsSpelledOut(img, p, m);
    var imageW, imageH, x, y, drawW, drawH := img.w, img.h, p.x, p.y, p.w, p.h;
    ops := [];
    if m.left > 0 {
      // left
      ops := ops + [Op(Rect(0, m.top, m.left, imageH - m.top - m.bottom),
                       Rect(x, y + m.top, m.left, drawH - m.top - m.bottom), false)];
    }
    // centre
    ops := ops + [Op(Rect(m.left, m.top, imageW - m.left - m.right, imageH - m.top - m.bottom),
                     Rect(x + m.left, y + m.top, drawW - m.left - m.right, drawH - m.top - m.bottom), false)];
    if m.right > 0 {
      // right
      ops := ops + [Op(Rect(imageW - m.right, m.top, m.right, imageH - m.top - m.bottom),
                       Rect(x + drawW - m.right, y + m.top, m.right, drawH - m.top - m.bottom), false)];
    }
  }

  /** The bottom row: the bottom-left corner when the left margin is
      positive, the bottom edge, the bottom-right corner when the right
      margin is positive; all only when the bottom margin is positive. */
  method DrawBottomRow(img: ImageSize, p: Placement, m: Margins) returns (ops: seq<Op>)
    ensures ops == SliceOps(DrawnRegions(RowOrder(Far), m), img, p, m)
  {
    NineSliceFacts.RowOps(Far, img, p, m);
    SliceOpsSpelledOut(img, p, m);
    var imageW, imageH, x, y, drawW, drawH := img.w, img.h, p.x, p.y, p.w, p.h;
    ops := [];
    if m.bottom > 0 {
      if m.left > 0 {
        // bottom-left
        ops := ops + [Op(Rect(0, imageH - m.bottom, m.left, m.bottom),
                         Rect(x, y + drawH - m.bottom, m.left, m.bottom), false)];
      }
      // bottom
      ops := ops + [Op(Rect(m.left, imageH - m.bottom, imageW - m.left - m.right, m.bottom),
                       Rect(x + m.left, y + drawH - m.bottom, drawW - m.left - m.right, m.bottom), false)];
      if m.right > 0 {
        // bottom-right
        ops := ops + [Op(Rect(imageW - m.right, imageH - m.bottom, m.right, m.bottom),
                         Rect(x + drawW - m.right, y + drawH - m.bottom, m.right, m.bottom), false)];
      }
    }
  }
}
