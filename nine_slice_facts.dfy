/**
 * What nine-slice scaling guarantees: which cells are drawn, in which
 * order, and, when the margins fit, that the drawn cells partition the
 * meter. Where the margins do not fit, sizes go negative as in the source.
 */
module NineSliceFacts {
  import opened Geometry
  import opened DrawModes
  import opened MeterLayout

  // ---------------------------------------------------------------------
  // Working row by row

  /** Filtering distributes over concatenation. */
  lemma {:induction false} DrawnRegionsAppend(a: seq<Region>, b: seq<Region>, m: Margins)
    ensures DrawnRegions(a + b, m) == DrawnRegions(a, m) + DrawnRegions(b, m)
  {
    if a != [] {
      DrawnRegionsAppend(a[1..], b, m);
      assert (a + b)[1..] == a[1..] + b;
    } else {
      assert a + b == b;
    }
  }

  /** The operations of a concatenation are the concatenated operations. */
  lemma SliceOpsAppend(a: seq<Region>, b: seq<Region>, img: ImageSize, p: Placement, m: Margins)
    ensures SliceOps(a + b, img, p, m) == SliceOps(a, img, p, m) + SliceOps(b, img, p, m)
  {
    var l, r := SliceOps(a + b, img, p, m), SliceOps(a, img, p, m) + SliceOps(b, img, p, m);
    forall i | 0 <= i < |l| ensures l[i] == r[i] {
      if i >= |a| {
        assert (a + b)[i] == b[i - |a|];
      }
    }
  }

  /** The cells drawn in one row: none when the row's own margin is not
      positive, otherwise the middle always and each side when its margin is. */
  lemma DrawnRow(row: Band, m: Margins)
    ensures DrawnRegions(RowOrder(row), m)
         == if BandDrawn(row, m.top, m.bottom) then
              (if m.left > 0 then [Region(Near, row)] else []) + [Region(Middle, row)] +
              (if m.right > 0 then [Region(Far, row)] else [])
            else []
  {
    var a, b, c := Region(Near, row), Region(Middle, row), Region(Far, row);
    DrawnRegionsCons(c, [], m);
    DrawnRegionsCons(b, [c], m);
    DrawnRegionsCons(a, [b, c], m);
    assert [c] == [c] + [] && [b, c] == [b] + [c] && RowOrder(row) == [a] + [b, c];
  }

  /** Filtering a list with one more cell in front. */
  lemma DrawnRegionsCons(r: Region, rs: seq<Region>, m: Margins)
    ensures DrawnRegions([r] + rs, m) == (if Drawn(r, m) then [r] else []) + DrawnRegions(rs, m)
  {
    assert ([r] + rs)[1..] == rs;
  }

  /** The nine-slice operations, row by row. */
  lemma NineSliceRows(img: ImageSize, p: Placement, m: Margins)
    ensures NineSlice(img, p, m)
         == SliceOps(DrawnRegions(RowOrder(Near), m), img, p, m)
          + SliceOps(DrawnRegions(RowOrder(Middle), m), img, p, m)
          + SliceOps(DrawnRegions(RowOrder(Far), m), img, p, m)
  {
    var a, b, c := RowOrder(Near), RowOrder(Middle), RowOrder(Far);
    DrawnRegionsAppend(a + b, c, m);
    DrawnRegionsAppend(a, b, m);
    var da, db, dc := DrawnRegions(a, m), DrawnRegions(b, m), DrawnRegions(c, m);
    SliceOpsAppend(da + db, dc, img, p, m);
    SliceOpsAppend(da, db, img, p, m);
  }

  /** The operations of one row, cell by cell: nothing when the row's own
      margin is not positive, else the middle cell with each side cell whose
      margin is positive. */
  lemma RowOps(row: Band, img: ImageSize, p: Placement, m: Margins)
    ensures SliceOps(DrawnRegions(RowOrder(row), m), img, p, m)
         == if BandDrawn(row, m.top, m.bottom) then
              (if m.left > 0 then [SliceOp(Region(Near, row), img, p, m)] else []) +
              [SliceOp(Region(Middle, row), img, p, m)] +
              (if m.right > 0 then [SliceOp(Region(Far, row), img, p, m)] else [])
            else []
  {
    DrawnRow(row, m);
    var near := if m.left > 0 then [Region(Near, row)] else [];
    var far := if m.right > 0 then [Region(Far, row)] else [];
    SliceOpsAppend(near + [Region(Middle, row)], far, img, p, m);
    SliceOpsAppend(near, [Region(Middle, row)], img, p, m);
  }

  // ---------------------------------------------------------------------
  // Selection and order

  /** The filter keeps exactly the drawn cells of the list. */
  lemma {:induction false} DrawnRegionsMembers(rs: seq<Region>, m: Margins)
    ensures forall r :: r in DrawnRegions(rs, m) <==> r in rs && Drawn(r, m)
  {
    if rs != [] {
      DrawnRegionsMembers(rs[1..], m);
      assert rs == [rs[0]] + rs[1..];
    }
  }

  /** Every cell of the grid is listed in the drawing order. */
  lemma SliceOrderComplete(r: Region)
    ensures r in SliceOrder
  {
    var row := RowOrder(r.row);
    assert r == row[BandIndex(r.col)];
    assert SliceOrder[3 * BandIndex(r.row) + BandIndex(r.col)] == r;
  }

  /** The cells drawn: a corner only when both of its margins are positive,
      an edge when its own margin is positive (the top and bottom edges do
      not look at the left and right margins), and the centre always. */
  lemma NineSliceSelection(m: Margins)
    ensures var rs := DrawnRegions(SliceOrder, m);
            (forall r :: r in rs <==> Drawn(r, m)) &&
            (Region(Near, Near) in rs <==> m.left > 0 && m.top > 0) &&
            (Region(Far, Near) in rs <==> m.right > 0 && m.top > 0) &&
            (Region(Near, Far) in rs <==> m.left > 0 && m.bottom > 0) &&
            (Region(Far, Far) in rs <==> m.right > 0 && m.bottom > 0) &&
            (Region(Middle, Near) in rs <==> m.top > 0) &&
            (Region(Middle, Far) in rs <==> m.bottom > 0) &&
            (Region(Near, Middle) in rs <==> m.left > 0) &&
            (Region(Far, Middle) in rs <==> m.right > 0) &&
            Region(Middle, Middle) in rs
  {
    DrawnRegionsMembers(SliceOrder, m);
    forall r ensures r in SliceOrder {
      SliceOrderComplete(r);
    }
  }

  /** Strictly increasing in reading order. */
  predicate Increasing(rs: seq<Region>) {
    forall i, j :: 0 <= i < j < |rs| ==> Rank(rs[i]) < Rank(rs[j])
  }

  /** Every cell of `rs` comes after rank `k` in reading order. */
  predicate After(k: nat, rs: seq<Region>) {
    forall i :: 0 <= i < |rs| ==> k < Rank(rs[i])
  }

  /** Filtering keeps every cell after a given rank. */
  lemma {:induction false} DrawnRegionsAfter(k: nat, rs: seq<Region>, m: Margins)
    requires After(k, rs)
    ensures After(k, DrawnRegions(rs, m))
  {
    if rs != [] {
      DrawnRegionsAfter(k, rs[1..], m);
      if Drawn(rs[0], m) {
        assert DrawnRegions(rs, m) == [rs[0]] + DrawnRegions(rs[1..], m);
      }
    }
  }

  /** Filtering keeps the order of the list it filters. */
  lemma {:induction false} DrawnRegionsOrdered(rs: seq<Region>, m: Margins)
    requires Increasing(rs)
    ensures Increasing(DrawnRegions(rs, m))
  {
    if rs != [] {
      var tail := rs[1..];
      DrawnRegionsOrdered(tail, m);
      var rest := DrawnRegions(tail, m);
      assert After(Rank(rs[0]), tail);
      DrawnRegionsAfter(Rank(rs[0]), tail, m);
      if Drawn(rs[0], m) {
        var out := [rs[0]] + rest;
        assert DrawnRegions(rs, m) == out;
        forall i, j | 0 <= i < j < |out| ensures Rank(out[i]) < Rank(out[j]) {
          assert out[j] == rest[j - 1];
          if i > 0 {
            assert out[i] == rest[i - 1];
          }
        }
      }
    }
  }

  /** The drawn cells come in reading order: top row before middle row
      before bottom row, left to right within a row. */
  lemma NineSliceOrder(m: Margins)
    ensures Increasing(DrawnRegions(SliceOrder, m))
  {
    assert Increasing(SliceOrder);
    DrawnRegionsOrdered(SliceOrder, m);
  }

  // ---------------------------------------------------------------------
  // Degenerate margins and concrete layouts

  /** With no margins and no draw mode, a size mismatch is drawn by the
      centre cell alone: one stretch of the whole bitmap over the whole
      meter. */
  lemma NoMarginsIsOneStretch(img: ImageSize, p: Placement)
    requires !Degenerate(img, p)
    ensures Layout(None, img, p, NoMargins) == [Op(FullImage(img), TargetRect(p), false)]
  {
    NineSliceRows(img, p, NoMargins);
    DrawnRow(Near, NoMargins);
    DrawnRow(Middle, NoMargins);
    DrawnRow(Far, NoMargins);
  }

  /** Margins of 2 on a 10 x 10 bitmap in a 10 x 10 meter give all nine
      cells; the centre is the 6 x 6 middle, copied without scaling. */
  lemma NineSliceExample(x: int, y: int)
    ensures var ops := Layout(None, ImageSize(10, 10), Placement(x, y, 10, 10, true, true), Margins(2, 2, 2, 2));
            |ops| == 9 && ops[4] == Op(Rect(2, 2, 6, 6), Rect(x + 2, y + 2, 6, 6), false)
  {
    var m, img, p := Margins(2, 2, 2, 2), ImageSize(10, 10), Placement(x, y, 10, 10, true, true);
    DrawnRow(Near, m);
    DrawnRow(Middle, m);
    DrawnRow(Far, m);
    DrawnRegionsAppend(RowOrder(Near) + RowOrder(Middle), RowOrder(Far), m);
    DrawnRegionsAppend(RowOrder(Near), RowOrder(Middle), m);
    assert DrawnRegions(RowOrder(Near), m) == RowOrder(Near);
    assert DrawnRegions(RowOrder(Middle), m) == RowOrder(Middle);
    assert DrawnRegions(RowOrder(Far), m) == RowOrder(Far);
    var rs := DrawnRegions(SliceOrder, m);
    assert rs == SliceOrder;
    assert Layout(None, img, p, m) == SliceOps(rs, img, p, m);
    assert rs[4] == Region(Middle, Middle);
  }

  /** Side margins wider than the meter are not clamped: with margins of 6
      on both sides of a 10-wide bitmap and meter, the centre is drawn with
      width -2 and the two side cells overlap. */
  lemma OversizedMarginsExample(x: int, y: int)
    ensures Layout(None, ImageSize(10, 10), Placement(x, y, 10, 10, true, true), Margins(6, 0, 6, 0))
         == [Op(Rect(0, 0, 6, 10), Rect(x, y, 6, 10), false),
             Op(Rect(6, 0, -2, 10), Rect(x + 6, y, -2, 10), false),
             Op(Rect(4, 0, 6, 10), Rect(x + 4, y, 6, 10), false)]
  {
    var m, img, p := Margins(6, 0, 6, 0), ImageSize(10, 10), Placement(x, y, 10, 10, true, true);
    DrawnRow(Near, m);
    DrawnRow(Middle, m);
    DrawnRow(Far, m);
    DrawnRegionsAppend(RowOrder(Near) + RowOrder(Middle), RowOrder(Far), m);
    DrawnRegionsAppend(RowOrder(Near), RowOrder(Middle), m);
    var rs := DrawnRegions(SliceOrder, m);
    assert rs == [Region(Near, Middle), Region(Middle, Middle), Region(Far, Middle)];
    assert Layout(None, img, p, m) == SliceOps(rs, img, p, m);
  }

  // ---------------------------------------------------------------------
  // Partition of the meter

  /** The margins are non-negative and fit side by side into `w` x `h`. */
  predicate MarginsFit(m: Margins, w: int, h: int) {
    0 <= m.left && 0 <= m.right && 0 <= m.top && 0 <= m.bottom &&
    m.left + m.right <= w && m.top + m.bottom <= h
  }

  /** Area of a rectangle. */
  function Area(r: Rect): int {
    r.w * r.h
  }

  /** Sum of the destination areas of `ops`. */
  function DstArea(ops: seq<Op>): int {
    if ops == [] then 0 else Area(ops[0].dst) + DstArea(ops[1..])
  }

  /** The area sum of a concatenation. */
  lemma {:induction false} DstAreaAppend(a: seq<Op>, b: seq<Op>)
    ensures DstArea(a + b) == DstArea(a) + DstArea(b)
  {
    if a != [] {
      DstAreaAppend(a[1..], b);
      assert (a + b)[1..] == a[1..] + b;
    } else {
      assert a + b == b;
    }
  }

  /** With fitting margins, distinct bands of an axis do not overlap and each
      lies within the axis. */
  lemma SpanLayout(b: Band, c: Band, size: int, near: int, far: int)
    requires 0 <= near && 0 <= far && near + far <= size
    ensures var (o, e) := Span(b, size, near, far);
            0 <= o && 0 <= e && o + e <= size
    ensures b != c ==>
              var (o1, e1) := Span(b, size, near, far);
              var (o2, e2) := Span(c, size, near, far);
              o1 + e1 <= o2 || o2 + e2 <= o1
  {
  }

  /** With fitting margins, every cell lies inside its rectangle and two
      distinct cells do not overlap. */
  lemma CellLayout(r: Region, s: Region, outer: Rect, m: Margins)
    requires MarginsFit(m, outer.w, outer.h)
    ensures Within(Cell(r, outer, m), outer)
    ensures r != s ==> Disjoint(Cell(r, outer, m), Cell(s, outer, m))
  {
    SpanLayout(r.col, s.col, outer.w, m.left, m.right);
    SpanLayout(r.row, s.row, outer.h, m.top, m.bottom);
  }

  /** The area sum of a single operation. */
  lemma DstAreaSingle(o: Op)
    ensures DstArea([o]) == Area(o.dst)
  {
    assert [o][1..] == [];
  }

  /** Three column widths over one row height. */
  lemma Distribute(a: int, b: int, c: int, e: int)
    ensures a * e + b * e + c * e == (a + b + c) * e
  {
  }

  /** With non-negative margins, the cells a row draws cover the meter's
      width over the row's height: a cell left out has a zero margin. */
  lemma RowArea(row: Band, img: ImageSize, p: Placement, m: Margins)
    requires 0 <= m.left && 0 <= m.right && 0 <= m.top && 0 <= m.bottom
    ensures DstArea(SliceOps(DrawnRegions(RowOrder(row), m), img, p, m)) == p.w * Span(row, p.h, m.top, m.bottom).1
  {
    RowOps(row, img, p, m);
    var e := Span(row, p.h, m.top, m.bottom).1;
    if BandDrawn(row, m.top, m.bottom) {
      var a, b, c := SliceOp(Region(Near, row), img, p, m), SliceOp(Region(Middle, row), img, p, m),
                     SliceOp(Region(Far, row), img, p, m);
      var on := if m.left > 0 then [a] else [];
      var of := if m.right > 0 then [c] else [];
      DstAreaAppend(on + [b], of);
      DstAreaAppend(on, [b]);
      assert DstArea(on) == m.left * e by {
        if m.left > 0 { DstAreaSingle(a); }
      }
      assert DstArea([b]) == (p.w - m.left - m.right) * e by {
        DstAreaSingle(b);
      }
      assert DstArea(of) == m.right * e by {
        if m.right > 0 { DstAreaSingle(c); }
      }
      Distribute(m.left, p.w - m.left - m.right, m.right, e);
    } else {
      assert e == 0;
    }
  }

  /** With margins that fit the meter, the drawn cells lie inside it and no
      two of them overlap; with margins that also fit the bitmap, every
      source cell lies inside the bitmap. */
  lemma {:induction false} NineSliceCellsDisjoint(img: ImageSize, p: Placement, m: Margins)
    requires !Degenerate(img, p) && !ExactFit(img, p, m) && MarginsFit(m, p.w, p.h)
    ensures var ops := Layout(None, img, p, m);
            (forall i :: 0 <= i < |ops| ==> Within(ops[i].dst, TargetRect(p)) && !ops[i].tiled) &&
            (forall i, j :: 0 <= i < j < |ops| ==> Disjoint(ops[i].dst, ops[j].dst))
    ensures var ops := Layout(None, img, p, m);
            MarginsFit(m, img.w, img.h) ==> forall i :: 0 <= i < |ops| ==> Within(ops[i].src, FullImage(img))
  {
    var rs := DrawnRegions(SliceOrder, m);
    var ops := Layout(None, img, p, m);
    assert ops == SliceOps(rs, img, p, m);
    NineSliceOrder(m);
    forall i | 0 <= i < |ops| ensures Within(ops[i].dst, TargetRect(p)) && !ops[i].tiled {
      CellLayout(rs[i], rs[i], TargetRect(p), m);
    }
    forall i, j | 0 <= i < j < |ops| ensures Disjoint(ops[i].dst, ops[j].dst) {
      assert Rank(rs[i]) < Rank(rs[j]);
      CellLayout(rs[i], rs[j], TargetRect(p), m);
    }
    if MarginsFit(m, img.w, img.h) {
      forall i | 0 <= i < |ops| ensures Within(ops[i].src, FullImage(img)) {
        CellLayout(rs[i], rs[i], FullImage(img), m);
      }
    }
  }

  /** With non-negative margins, the areas of the drawn cells add up to the
      meter's area, and every cell left out has zero width or height; with
      margins that fit, the drawn cells therefore cover the meter. */
  lemma {:induction false} NineSliceArea(img: ImageSize, p: Placement, m: Margins)
    requires !Degenerate(img, p) && !ExactFit(img, p, m)
    requires 0 <= m.left && 0 <= m.right && 0 <= m.top && 0 <= m.bottom
    ensures DstArea(Layout(None, img, p, m)) == p.w * p.h
    ensures forall r :: !Drawn(r, m) ==> Cell(r, TargetRect(p), m).w == 0 || Cell(r, TargetRect(p), m).h == 0
  {
    NineSliceRows(img, p, m);
    var a := SliceOps(DrawnRegions(RowOrder(Near), m), img, p, m);
    var b := SliceOps(DrawnRegions(RowOrder(Middle), m), img, p, m);
    var c := SliceOps(DrawnRegions(RowOrder(Far), m), img, p, m);
    DstAreaAppend(a + b, c);
    DstAreaAppend(a, b);
    RowArea(Near, img, p, m);
    RowArea(Middle, img, p, m);
    RowArea(Far, img, p, m);
    Distribute3(p.w, m.top, p.h - m.top - m.bottom, m.bottom);
  }

  /** One width over three row heights. */
  lemma Distribute3(w: int, a: int, b: int, c: int)
    ensures w * a + w * b + w * c == w * (a + b + c)
  {
  }
}
