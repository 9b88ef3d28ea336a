/**
 * The image meter's layout: which rectangles of the bitmap are drawn onto
 * which rectangles of the meter, as an ordered list of draw operations.
 * This is the reference the meter's step-by-step `Draw` is proved against;
 * it is written per mode, with nine-slice scaling as a 3 x 3 grid of
 * regions filtered by the margins.
 */
module MeterLayout {
  import opened Geometry
  import opened DrawModes

  /** Where the meter is drawn and how large: the position the base meter
      reports, the size `m_W` x `m_H`, and whether each dimension was set
      explicitly in the configuration. */
  datatype Placement = Placement(x: int, y: int, w: int, h: int, wDefined: bool, hDefined: bool)

  /** The meter's whole rectangle. */
  function TargetRect(p: Placement): Rect {
    Rect(p.x, p.y, p.w, p.h)
  }

  /** A zero extent anywhere means there is nothing to draw. */
  predicate Degenerate(img: ImageSize, p: Placement) {
    img.w == 0 || img.h == 0 || p.w == 0 || p.h == 0
  }

  /** The meter is exactly the bitmap's size and has no scale margins. */
  predicate ExactFit(img: ImageSize, p: Placement, m: Margins) {
    p.w == img.w && p.h == img.h && m == NoMargins
  }

  // ---------------------------------------------------------------------
  // Aspect-ratio modes

  /** Width over height of the bitmap, compared exactly (the floating-point
      quotients of the source, idealised). */
  function ImageRatio(img: ImageSize): real
    requires img.h > 0
  {
    img.w as real / img.h as real
  }

  /** Width over height of the meter. */
  function MeterRatio(p: Placement): real
    requires p.h != 0
  {
    p.w as real / p.h as real
  }

  /** The aspect modes only adjust anything when both dimensions were given
      and the two ratios differ. */
  predicate RatioApplies(img: ImageSize, p: Placement)
    requires img.h > 0 && p.h != 0
  {
    p.wDefined && p.hDefined && ImageRatio(img) != MeterRatio(p)
  }

  /** KeepRatio's destination: the meter rectangle shrunk along one axis to
      the bitmap's aspect ratio and centred along that axis. */
  function FitRect(img: ImageSize, p: Placement): Rect
    requires img.w > 0 && img.h > 0 && p.h != 0
  {
    if !RatioApplies(img, p) then TargetRect(p)
    else if ImageRatio(img) > MeterRatio(p) then
      var drawH := CDiv(p.w * img.h, img.w);
      Rect(p.x, p.y + CDiv(p.h - drawH, 2), p.w, drawH)
    else
      var drawW := CDiv(p.h * img.w, img.h);
      Rect(p.x + CDiv(p.w - drawW, 2), p.y, drawW, p.h)
  }

  /** KeepRatioAndCrop's source: the bitmap cut down along one axis to the
      meter's aspect ratio, centred along that axis. The cut extent is the
      bitmap's other extent times (or over) the meter's ratio, truncated to
      an integer; with the ratio taken exactly that is a truncating integer
      quotient. */
  function CropRect(img: ImageSize, p: Placement): Rect
    requires img.w > 0 && img.h > 0 && p.w != 0 && p.h != 0
  {
    if !RatioApplies(img, p) then FullImage(img)
    else if ImageRatio(img) > MeterRatio(p) then
      var cropW := Quot(img.h * p.w, p.h);
      Rect(CDiv(img.w - cropW, 2), 0, cropW, img.h)
    else
      var cropH := Quot(img.w * p.h, p.w);
      Rect(0, CDiv(img.h - cropH, 2), img.w, cropH)
  }

  // ---------------------------------------------------------------------
  // Nine-slice scaling

  /** One of the three bands along an axis: the near margin, the stretched
      middle, the far margin. */
  datatype Band = Near | Middle | Far

  /** A cell of the nine-slice grid: its column band and its row band. */
  datatype Region = Region(col: Band, row: Band)

  /** Position of a band along its axis. */
  function BandIndex(b: Band): nat {
    match b
    case Near => 0
    case Middle => 1
    case Far => 2
  }

  /** Position of a cell in row-major reading order. */
  function Rank(r: Region): nat {
    3 * BandIndex(r.row) + BandIndex(r.col)
  }

  /** One row of the grid, left to right. */
  function RowOrder(row: Band): seq<Region> {
    [Region(Near, row), Region(Middle, row), Region(Far, row)]
  }

  /** The grid in the order the cells are drawn: top-left, top, top-right,
      left, centre, right, bottom-left, bottom, bottom-right. */
  const SliceOrder: seq<Region> := RowOrder(Near) + RowOrder(Middle) + RowOrder(Far)

  /** A band is drawn when its own margin is positive; the middle always is. */
  predicate BandDrawn(b: Band, near: int, far: int) {
    match b
    case Near => near > 0
    case Middle => true
    case Far => far > 0
  }

  /** A cell is drawn when both its column band and its row band are. */
  predicate Drawn(r: Region, m: Margins) {
    BandDrawn(r.col, m.left, m.right) && BandDrawn(r.row, m.top, m.bottom)
  }

  /** Offset and extent of a band along an axis of length `size` whose
      margins are `near` and `far`. The middle's extent is not clamped. */
  function Span(b: Band, size: int, near: int, far: int): (int, int) {
    match b
    case Near => (0, near)
    case Middle => (near, size - near - far)
    case Far => (size - far, far)
  }

  /** The cell `r` of the rectangle `outer` cut by the margins `m`. */
  function Cell(r: Region, outer: Rect, m: Margins): Rect {
    var (dx, cw) := Span(r.col, outer.w, m.left, m.right);
    var (dy, ch) := Span(r.row, outer.h, m.top, m.bottom);
    Rect(outer.x + dx, outer.y + dy, cw, ch)
  }

  /** The margins are reused verbatim in bitmap pixels and in meter pixels:
      corners keep their size and the middle bands absorb the difference. */
  function SliceOp(r: Region, img: ImageSize, p: Placement, m: Margins): Op {
    Op(Cell(r, FullImage(img), m), Cell(r, TargetRect(p), m), false)
  }

  /** The cells of `rs` that are drawn under `m`, in the order of `rs`. */
  function DrawnRegions(rs: seq<Region>, m: Margins): (out: seq<Region>)
    ensures |out| <= |rs|
  {
    if rs == [] then []
    else (if Drawn(rs[0], m) then [rs[0]] else []) + DrawnRegions(rs[1..], m)
  }

  /** One operation per cell of `rs`, in the order of `rs`. */
  function SliceOps(rs: seq<Region>, img: ImageSize, p: Placement, m: Margins): (ops: seq<Op>)
    ensures |ops| == |rs|
    ensures forall i :: 0 <= i < |rs| ==> ops[i] == SliceOp(rs[i], img, p, m)
  {
    seq(|rs|, i requires 0 <= i < |rs| => SliceOp(rs[i], img, p, m))
  }

  /** The nine-slice operations: one per drawn cell, in drawing order. */
  function NineSlice(img: ImageSize, p: Placement, m: Margins): seq<Op> {
    SliceOps(DrawnRegions(SliceOrder, m), img, p, m)
  }

  // ---------------------------------------------------------------------
  // The layout as a whole

  /** The draw operations for a bitmap of natural size `img` in a meter placed
      at `p` with scale margins `m`. A degenerate size draws nothing; an exact
      fit without margins is one plain copy whatever the mode; otherwise the
      mode decides, and the margins matter only when no mode is set. */
  function Layout(mode: DrawMode, img: ImageSize, p: Placement, m: Margins): (ops: seq<Op>)
    ensures |ops| <= 9
  {
    if Degenerate(img, p) then []
    else if ExactFit(img, p, m) then [Op(FullImage(img), TargetRect(p), false)]
    else
      match mode
      case Tile => [Op(Rect(0, 0, p.w, p.h), TargetRect(p), true)]
      case KeepRatio => [Op(FullImage(img), FitRect(img, p), false)]
      case KeepRatioAndCrop => [Op(CropRect(img, p), TargetRect(p), false)]
      case None => NineSlice(img, p, m)
  }
}
