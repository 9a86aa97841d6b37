/** What the overlap measure means, without its formula: on boxes with whole corners it is the number of
    unit cells in both boxes over the number in at least one, and it does not depend on the unit. */
module BoxCells {
  import opened Boxes
  import opened Reals

  // ---------------------------------------------------------------- the overlap is a rectangle

  predicate Inside(a: Rect, x: real, y: real) {
    a.x1 <= x <= a.x2 && a.y1 <= y <= a.y2
  }

  /** c is made of exactly the points that a and b have in common. */
  ghost predicate IsCommon(c: Rect, a: Rect, b: Rect) {
    forall x, y :: Inside(c, x, y) <==> Inside(a, x, y) && Inside(b, x, y)
  }

  ghost predicate Meet(a: Rect, b: Rect) {
    exists x, y :: Inside(a, x, y) && Inside(b, x, y)
  }

  function Clip(a: Rect, b: Rect): Rect {
    Rect(Max(a.x1, b.x1), Max(a.y1, b.y1), Min(a.x2, b.x2), Min(a.y2, b.y2))
  }

  lemma SamePoints(c: Rect, d: Rect)
    requires Proper(c) && Proper(d) && forall x, y :: Inside(c, x, y) <==> Inside(d, x, y)
    ensures c == d
  {
    assert Inside(c, c.x1, c.y1) && Inside(c, c.x2, c.y2);
    assert Inside(d, d.x1, d.y1) && Inside(d, d.x2, d.y2);
    assert Inside(d, c.x1, c.y1) && Inside(d, c.x2, c.y2) && Inside(c, d.x1, d.y1) && Inside(c, d.x2, d.y2);
  }

  lemma CommonIsProper(c: Rect, d: Rect)
    requires Proper(c) && forall x, y :: Inside(c, x, y) <==> Inside(d, x, y)
    ensures Proper(d)
  {
    assert Inside(c, c.x1, c.y1);
    assert Inside(d, c.x1, c.y1);
  }

  lemma ClipIsCommon(a: Rect, b: Rect)
    ensures IsCommon(Clip(a, b), a, b)
  {
  }

  lemma OverlapOfClip(a: Rect, b: Rect)
    ensures Overlap(a, b) == if Proper(Clip(a, b)) then Area(Clip(a, b)) else 0.0
  {
    var d := Clip(a, b);
    var w, h := Max(0.0, d.x2 - d.x1), Max(0.0, d.y2 - d.y1);
    assert Overlap(a, b) == w * h;
    if d.x2 < d.x1 {
      assert w == 0.0;
    } else if d.y2 < d.y1 {
      assert h == 0.0;
    }
  }

  lemma OverlapOfCommon(a: Rect, b: Rect, c: Rect)
    requires Proper(c) && IsCommon(c, a, b)
    ensures Overlap(a, b) == Area(c)
  {
    ClipIsCommon(a, b);
    CommonIsProper(c, Clip(a, b));
    SamePoints(c, Clip(a, b));
    OverlapOfClip(a, b);
  }

  /** The overlap is the area of the rectangle that the boxes have in common, and 0 without one. */
  lemma OverlapIsCommonArea(a: Rect, b: Rect)
    ensures forall c :: Proper(c) && IsCommon(c, a, b) ==> Overlap(a, b) == Area(c)
    ensures !Meet(a, b) ==> Overlap(a, b) == 0.0
  {
    hide IsCommon;
    forall c | Proper(c) && IsCommon(c, a, b) ensures Overlap(a, b) == Area(c) { OverlapOfCommon(a, b, c); }
    var d := Clip(a, b);
    OverlapOfClip(a, b);
    if Proper(d) { assert Inside(a, d.x1, d.y1) && Inside(b, d.x1, d.y1); }
  }

  // ---------------------------------------------------------------- counting cells

  /** A box with whole corners. */
  datatype Grid = Grid(x1: int, y1: int, x2: int, y2: int)

  function OnGrid(g: Grid): Rect {
    Rect(g.x1 as real, g.y1 as real, g.x2 as real, g.y2 as real)
  }

  /** The unit cells of a box, named by their lower corners. */
  function Cells(g: Grid): set<(int, int)> {
    set x, y | g.x1 <= x < g.x2 && g.y1 <= y < g.y2 :: (x, y)
  }

  function ColumnCells(x: int, y1: int, y2: int): set<(int, int)> {
    set y | y1 <= y < y2 :: (x, y)
  }

  lemma {:induction false} ColumnCount(x: int, y1: int, y2: int)
    requires y1 <= y2
    ensures |ColumnCells(x, y1, y2)| == y2 - y1
    decreases y2 - y1
  {
    if y1 == y2 {
      assert ColumnCells(x, y1, y2) == {};
    } else {
      ColumnCount(x, y1, y2 - 1);
      assert ColumnCells(x, y1, y2) == ColumnCells(x, y1, y2 - 1) + {(x, y2 - 1)};
    }
  }

  lemma LastColumn(g: Grid)
    requires g.x1 < g.x2
    ensures Cells(g) == Cells(g.(x2 := g.x2 - 1)) + ColumnCells(g.x2 - 1, g.y1, g.y2)
    ensures Cells(g.(x2 := g.x2 - 1)) !! ColumnCells(g.x2 - 1, g.y1, g.y2)
  {
    var f, c := Cells(g.(x2 := g.x2 - 1)), ColumnCells(g.x2 - 1, g.y1, g.y2);
    forall p | p in Cells(g) ensures p in f + c {
      if p.0 == g.x2 - 1 { assert p == (g.x2 - 1, p.1); }
    }
  }

  lemma {:induction false} CellCount(g: Grid)
    requires g.x1 <= g.x2 && g.y1 <= g.y2
    ensures |Cells(g)| == (g.x2 - g.x1) * (g.y2 - g.y1)
    decreases g.x2 - g.x1
  {
    if g.x1 == g.x2 {
      assert Cells(g) == {};
    } else {
      var f := g.(x2 := g.x2 - 1);
      CellCount(f);
      LastColumn(g);
      ColumnCount(g.x2 - 1, g.y1, g.y2);
      hide Cells, ColumnCells;
      OneColumnMore(g.x2 - g.x1, g.y2 - g.y1);
    }
  }

  lemma OneColumnMore(w: int, h: int)
    ensures w * h == (w - 1) * h + h
  {
  }

  function ClipGrid(a: Grid, b: Grid): Grid {
    Grid(if a.x1 < b.x1 then b.x1 else a.x1, if a.y1 < b.y1 then b.y1 else a.y1,
         if b.x2 < a.x2 then b.x2 else a.x2, if b.y2 < a.y2 then b.y2 else a.y2)
  }

  lemma CommonCells(a: Grid, b: Grid)
    ensures Cells(a) * Cells(b) == Cells(ClipGrid(a, b))
  {
  }

  predicate ProperGrid(g: Grid) {
    g.x1 <= g.x2 && g.y1 <= g.y2
  }

  lemma AreaCounts(g: Grid)
    requires ProperGrid(g)
    ensures Area(OnGrid(g)) == |Cells(g)| as real
  {
    CellCount(g);
    hide Cells;
    ProductAsReal(g.x2 - g.x1, g.y2 - g.y1);
  }

  lemma ProductAsReal(a: int, b: int)
    ensures (a as real) * (b as real) == (a * b) as real
  {
  }

  lemma OverlapCounts(a: Grid, b: Grid)
    requires ProperGrid(a) && ProperGrid(b)
    ensures Overlap(OnGrid(a), OnGrid(b)) == |Cells(a) * Cells(b)| as real
  {
    var c := ClipGrid(a, b);
    CommonCells(a, b);
    ClipOnGrid(a, b);
    if ProperGrid(c) {
      AreaCounts(c);
    } else {
      assert Cells(c) == {};
    }
    hide Cells, OnGrid, ClipGrid;
    OverlapOfClip(OnGrid(a), OnGrid(b));
  }

  lemma ClipOnGrid(a: Grid, b: Grid)
    ensures OnGrid(ClipGrid(a, b)) == Clip(OnGrid(a), OnGrid(b))
    ensures Proper(Clip(OnGrid(a), OnGrid(b))) <==> ProperGrid(ClipGrid(a, b))
  {
  }

  /** The measure counts: cells in both boxes over cells in at least one. */
  lemma IouCounts(a: Grid, b: Grid)
    requires ProperGrid(a) && ProperGrid(b)
    ensures Iou(OnGrid(a), OnGrid(b)) * (|Cells(a) + Cells(b)| as real) == |Cells(a) * Cells(b)| as real
    ensures Cells(a) + Cells(b) == {} ==> Iou(OnGrid(a), OnGrid(b)) == 0.0
  {
    AreaCounts(a);
    AreaCounts(b);
    OverlapCounts(a, b);
    hide Cells, Area, Overlap, OnGrid;
    var both, any := Cells(a) * Cells(b), Cells(a) + Cells(b);
    assert |any| + |both| == |Cells(a)| + |Cells(b)|;
    if |any| == 0 {
      assert any == {};
      assert both == {};
    } else {
      Quotient(|both| as real, |any| as real);
    }
  }

  lemma Quotient(p: real, q: real)
    requires q > 0.0
    ensures (p / q) * q == p
  {
  }

  /** Comparing the measure with a threshold is comparing the counts. */
  lemma ThresholdCounts(a: Grid, b: Grid, thr: real)
    requires ProperGrid(a) && ProperGrid(b) && Cells(a) + Cells(b) != {}
    ensures Iou(OnGrid(a), OnGrid(b)) > thr
       <==> |Cells(a) * Cells(b)| as real > thr * (|Cells(a) + Cells(b)| as real)
    ensures Iou(OnGrid(a), OnGrid(b)) >= thr
       <==> |Cells(a) * Cells(b)| as real >= thr * (|Cells(a) + Cells(b)| as real)
  {
    hide Cells, Iou, OnGrid;
    IouCounts(a, b);
    assert |Cells(a) + Cells(b)| > 0;
    OrderTimes(Iou(OnGrid(a), OnGrid(b)), thr, |Cells(a) + Cells(b)| as real, |Cells(a) * Cells(b)| as real);
  }

  lemma OrderTimes(v: real, thr: real, n: real, m: real)
    requires n > 0.0 && v * n == m
    ensures (v > thr <==> m > thr * n) && (v >= thr <==> m >= thr * n)
  {
    if v > thr {
      ProductPositive(v - thr, n);
    } else if v < thr {
      ProductPositive(thr - v, n);
    }
  }

  // ---------------------------------------------------------------- no unit

  /** The box in a picture of another scale. */
  function Scaled(a: Rect, c: real): Rect {
    Rect(Times(c, a.x1), Times(c, a.y1), Times(c, a.x2), Times(c, a.y2))
  }

  lemma ScaledMax(c: real, p: real, q: real)
    requires c > 0.0
    ensures Max(Times(c, p), Times(c, q)) == Times(c, Max(p, q))
    ensures Min(Times(c, p), Times(c, q)) == Times(c, Min(p, q))
  {
    if p < q { ProductPositive(c, q - p); } else { ProductNonNegative(c, p - q); }
  }

  lemma AreaScales(c: real, w: real, h: real)
    ensures Times(Times(c, w), Times(c, h)) == Times(Square(c), Times(w, h))
  {
    assert (c * w) * (c * h) == (c * c) * (w * h);
  }

  lemma TimesDifference(c: real, p: real, q: real)
    ensures Times(c, p) - Times(c, q) == Times(c, p - q)
  {
  }

  lemma AreaIsTimes(a: Rect)
    ensures Area(a) == Times(a.x2 - a.x1, a.y2 - a.y1)
  {
  }

  lemma ScaledArea(a: Rect, c: real)
    ensures Area(Scaled(a, c)) == Times(Square(c), Area(a))
  {
    AreaScales(c, a.x2 - a.x1, a.y2 - a.y1);
    TimesDifference(c, a.x2, a.x1);
    TimesDifference(c, a.y2, a.y1);
    AreaIsTimes(a);
    AreaIsTimes(Scaled(a, c));
    hide Square, Times, Area;
  }

  /** The length that two intervals share. */
  function Side(l1: real, r1: real, l2: real, r2: real): real {
    Max(0.0, Min(r1, r2) - Max(l1, l2))
  }

  lemma ScaledSide(c: real, l1: real, r1: real, l2: real, r2: real)
    requires c > 0.0
    ensures Side(Times(c, l1), Times(c, r1), Times(c, l2), Times(c, r2)) == Times(c, Side(l1, r1, l2, r2))
  {
    ScaledMax(c, r1, r2);
    ScaledMax(c, l1, l2);
    TimesDifference(c, Min(r1, r2), Max(l1, l2));
    ScaledMax(c, 0.0, Min(r1, r2) - Max(l1, l2));
    assert Times(c, 0.0) == 0.0;
    hide Max, Min, Times;
  }

  lemma OverlapIsSides(a: Rect, b: Rect)
    ensures Overlap(a, b) == Times(Side(a.x1, a.x2, b.x1, b.x2), Side(a.y1, a.y2, b.y1, b.y2))
  {
    hide Max, Min;
  }

  lemma ScaledOverlap(a: Rect, b: Rect, c: real)
    requires c > 0.0
    ensures Overlap(Scaled(a, c), Scaled(b, c)) == Times(Square(c), Overlap(a, b))
  {
    OverlapIsSides(a, b);
    OverlapIsSides(Scaled(a, c), Scaled(b, c));
    ScaledSide(c, a.x1, a.x2, b.x1, b.x2);
    ScaledSide(c, a.y1, a.y2, b.y1, b.y2);
    hide Side, Overlap, Times, Square;
    AreaScales(c, Side(a.x1, a.x2, b.x1, b.x2), Side(a.y1, a.y2, b.y1, b.y2));
  }

  function Ratio(p: real, q: real): real {
    if q > 0.0 then p / q else 0.0
  }

  lemma IouIsRatio(a: Rect, b: Rect)
    ensures Iou(a, b) == Ratio(Overlap(a, b), Area(a) + Area(b) - Overlap(a, b))
  {
    hide Area, Overlap;
  }

  lemma SameRatio(k: real, p: real, q: real)
    requires k > 0.0
    ensures Ratio(Times(k, p), Times(k, q)) == Ratio(p, q)
  {
    if q > 0.0 {
      ProductPositive(k, q);
      var r := p / q;
      assert r * q == p;
      assert r * (k * q) == k * p;
      QuotientIs(k * p, k * q, r);
    } else {
      ProductNonNegative(k, -q);
      assert k * q == -(k * -q);
    }
  }

  lemma QuotientIs(a: real, b: real, g: real)
    requires b != 0.0 && g * b == a
    ensures a / b == g
  {
  }

  lemma TimesSum(k: real, a: real, b: real, o: real)
    ensures Times(k, a) + Times(k, b) - Times(k, o) == Times(k, a + b - o)
  {
  }

  /** With IouCounts this fixes the measure on all boxes with rational corners. */
  lemma IouHasNoUnit(a: Rect, b: Rect, c: real)
    requires c > 0.0
    ensures Iou(Scaled(a, c), Scaled(b, c)) == Iou(a, b)
  {
    SquarePositive(c);
    ScaledArea(a, c);
    ScaledArea(b, c);
    ScaledOverlap(a, b, c);
    IouIsRatio(a, b);
    IouIsRatio(Scaled(a, c), Scaled(b, c));
    hide Area, Overlap, Scaled, Times, Square, Ratio, Iou;
    TimesSum(Square(c), Area(a), Area(b), Overlap(a, b));
    SameRatio(Square(c), Overlap(a, b), Area(a) + Area(b) - Overlap(a, b));
  }
}
