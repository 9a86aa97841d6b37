/** Binary masks, window counts, and the closing of a mask by its textbook definition:
    dilation, then erosion, over square windows clipped to the image. */
module Morphology {
  /** Rows of pixels. */
  type Mask = seq<seq<bool>>

  predicate IsMask(m: Mask, w: nat, h: nat) {
    |m| == h && forall y :: 0 <= y < h ==> |m[y]| == w
  }

  /** (p, q) is within distance r of (x, y) in both coordinates. */
  predicate Within(x: int, y: int, r: nat, p: int, q: int) {
    x - r <= p <= x + r && y - r <= q <= y + r
  }

  predicate SetAt(m: Mask, w: nat, h: nat, p: int, q: int)
    requires IsMask(m, w, h)
  {
    0 <= p < w && 0 <= q < h && m[q][p]
  }

  ghost predicate Dilated(m: Mask, w: nat, h: nat, r: nat, x: int, y: int)
    requires IsMask(m, w, h)
  {
    exists p, q :: SetAt(m, w, h, p, q) && Within(x, y, r, p, q)
  }

  ghost predicate Eroded(m: Mask, w: nat, h: nat, r: nat, x: int, y: int)
    requires IsMask(m, w, h)
  {
    forall p, q :: 0 <= p < w && 0 <= q < h && Within(x, y, r, p, q) ==> SetAt(m, w, h, p, q)
  }

  ghost predicate IsDilation(d: Mask, m: Mask, w: nat, h: nat, r: nat) {
    && IsMask(m, w, h) && IsMask(d, w, h)
    && forall x, y :: 0 <= x < w && 0 <= y < h ==> (SetAt(d, w, h, x, y) <==> Dilated(m, w, h, r, x, y))
  }

  ghost predicate IsErosion(e: Mask, m: Mask, w: nat, h: nat, r: nat) {
    && IsMask(m, w, h) && IsMask(e, w, h)
    && forall x, y :: 0 <= x < w && 0 <= y < h ==> (SetAt(e, w, h, x, y) <==> Eroded(m, w, h, r, x, y))
  }

  ghost predicate IsClosing(c: Mask, m: Mask, w: nat, h: nat, r: nat) {
    exists d :: IsDilation(d, m, w, h, r) && IsErosion(c, d, w, h, r)
  }

  /** Every pixel of a is a pixel of b. */
  ghost predicate Covers(b: Mask, a: Mask, w: nat, h: nat)
    requires IsMask(a, w, h) && IsMask(b, w, h)
  {
    forall x, y :: SetAt(a, w, h, x, y) ==> SetAt(b, w, h, x, y)
  }

  lemma SameMask(a: Mask, b: Mask, w: nat, h: nat)
    requires IsMask(a, w, h) && IsMask(b, w, h) && Covers(a, b, w, h) && Covers(b, a, w, h)
    ensures a == b
  {
    forall y | 0 <= y < h ensures a[y] == b[y] {
      forall x | 0 <= x < w ensures a[y][x] == b[y][x] {
        assert SetAt(a, w, h, x, y) <==> SetAt(b, w, h, x, y);
      }
    }
  }

  // ---------------------------------------------------------------- laws of the closing

  /** The closing contains the mask. */
  lemma ClosingExtensive(c: Mask, m: Mask, w: nat, h: nat, r: nat)
    requires IsClosing(c, m, w, h, r)
    ensures IsMask(m, w, h) && IsMask(c, w, h) && Covers(c, m, w, h)
  {
    var d :| IsDilation(d, m, w, h, r) && IsErosion(c, d, w, h, r);
    forall x, y | SetAt(m, w, h, x, y) ensures SetAt(c, w, h, x, y) {
      forall p, q | 0 <= p < w && 0 <= q < h && Within(x, y, r, p, q) ensures SetAt(d, w, h, p, q) {
        assert Within(p, q, r, x, y);
        assert Dilated(m, w, h, r, p, q);
      }
      assert Eroded(d, w, h, r, x, y);
    }
  }

  /** A larger mask has a larger closing. */
  lemma ClosingMonotone(c1: Mask, m1: Mask, c2: Mask, m2: Mask, w: nat, h: nat, r: nat)
    requires IsClosing(c1, m1, w, h, r) && IsClosing(c2, m2, w, h, r)
    requires IsMask(m1, w, h) && IsMask(m2, w, h) && Covers(m2, m1, w, h)
    ensures IsMask(c1, w, h) && IsMask(c2, w, h) && Covers(c2, c1, w, h)
  {
    var d1 :| IsDilation(d1, m1, w, h, r) && IsErosion(c1, d1, w, h, r);
    var d2 :| IsDilation(d2, m2, w, h, r) && IsErosion(c2, d2, w, h, r);
    assert Covers(d2, d1, w, h) by {
      forall x, y | SetAt(d1, w, h, x, y) ensures SetAt(d2, w, h, x, y) {
        assert Dilated(m1, w, h, r, x, y);
        var p, q :| SetAt(m1, w, h, p, q) && Within(x, y, r, p, q);
        assert Dilated(m2, w, h, r, x, y);
      }
    }
    forall x, y | SetAt(c1, w, h, x, y) ensures SetAt(c2, w, h, x, y) {
      assert Eroded(d1, w, h, r, x, y);
      assert Eroded(d2, w, h, r, x, y);
    }
  }

  /** Dilating the closing gives the dilation of the mask back. */
  lemma DilationOfClosing(d: Mask, c: Mask, d': Mask, m: Mask, w: nat, h: nat, r: nat)
    requires IsDilation(d, m, w, h, r) && IsErosion(c, d, w, h, r) && IsDilation(d', c, w, h, r)
    ensures d' == d
  {
    forall x, y | SetAt(d', w, h, x, y) ensures SetAt(d, w, h, x, y) {
      assert Dilated(c, w, h, r, x, y);
      var p, q :| SetAt(c, w, h, p, q) && Within(x, y, r, p, q);
      assert Eroded(d, w, h, r, p, q);
      assert Within(p, q, r, x, y);
    }
    assert IsClosing(c, m, w, h, r);
    ClosingExtensive(c, m, w, h, r);
    forall x, y | SetAt(d, w, h, x, y) ensures SetAt(d', w, h, x, y) {
      assert Dilated(m, w, h, r, x, y);
      var p, q :| SetAt(m, w, h, p, q) && Within(x, y, r, p, q);
      assert SetAt(c, w, h, p, q);
      assert Dilated(c, w, h, r, x, y);
    }
    SameMask(d, d', w, h);
  }

  /** Closing twice is closing once. */
  lemma ClosingIdempotent(c: Mask, cc: Mask, m: Mask, w: nat, h: nat, r: nat)
    requires IsClosing(c, m, w, h, r) && IsClosing(cc, c, w, h, r)
    ensures cc == c
  {
    var d :| IsDilation(d, m, w, h, r) && IsErosion(c, d, w, h, r);
    var d' :| IsDilation(d', c, w, h, r) && IsErosion(cc, d', w, h, r);
    DilationOfClosing(d, c, d', m, w, h, r);
    forall x, y ensures SetAt(c, w, h, x, y) <==> SetAt(cc, w, h, x, y) {
      if 0 <= x < w && 0 <= y < h { assert SetAt(c, w, h, x, y) <==> Eroded(d, w, h, r, x, y); }
    }
    SameMask(c, cc, w, h);
  }

  // ---------------------------------------------------------------- counting

  /** Set pixels of a row in columns [x0, x1). */
  function RowCount(row: seq<bool>, x0: nat, x1: nat): (n: nat)
    requires x0 <= x1 <= |row|
    ensures n <= x1 - x0
    decreases x1
  {
    if x0 == x1 then 0 else RowCount(row, x0, x1 - 1) + (if row[x1 - 1] then 1 else 0)
  }

  /** Set pixels in columns [x0, x1) of rows [y0, y1). */
  function RectCount(m: Mask, w: nat, x0: nat, x1: nat, y0: nat, y1: nat): nat
    requires IsMask(m, w, |m|) && x0 <= x1 <= w && y0 <= y1 <= |m|
    decreases y1
  {
    if y0 == y1 then 0 else RectCount(m, w, x0, x1, y0, y1 - 1) + RowCount(m[y1 - 1], x0, x1)
  }

  lemma {:induction false} RowSplit(row: seq<bool>, x0: nat, x1: nat)
    requires x0 <= x1 <= |row|
    ensures RowCount(row, 0, x1) == RowCount(row, 0, x0) + RowCount(row, x0, x1)
    decreases x1
  {
    if x0 >= x1 {
    } else {
      RowSplit(row, x0, x1 - 1);
    }
  }

  lemma {:induction false} ColumnSplit(m: Mask, w: nat, x0: nat, x1: nat, y: nat)
    requires IsMask(m, w, |m|) && x0 <= x1 <= w && y <= |m|
    ensures RectCount(m, w, 0, x1, 0, y) == RectCount(m, w, 0, x0, 0, y) + RectCount(m, w, x0, x1, 0, y)
  {
    if y == 0 {
    } else {
      ColumnSplit(m, w, x0, x1, y - 1);
      RowSplit(m[y - 1], x0, x1);
    }
  }

  lemma {:induction false} RowsSplit(m: Mask, w: nat, x0: nat, x1: nat, y0: nat, y1: nat)
    requires IsMask(m, w, |m|) && x0 <= x1 <= w && y0 <= y1 <= |m|
    ensures RectCount(m, w, x0, x1, 0, y1) == RectCount(m, w, x0, x1, 0, y0) + RectCount(m, w, x0, x1, y0, y1)
    decreases y1
  {
    if y0 >= y1 {
    } else {
      RowsSplit(m, w, x0, x1, y0, y1 - 1);
    }
  }

  /** Four corner counts give the count of a rectangle. */
  lemma FourCorners(m: Mask, w: nat, x0: nat, x1: nat, y0: nat, y1: nat)
    requires IsMask(m, w, |m|) && x0 <= x1 <= w && y0 <= y1 <= |m|
    ensures RectCount(m, w, x0, x1, y0, y1)
         == RectCount(m, w, 0, x1, 0, y1) - RectCount(m, w, 0, x0, 0, y1)
          - RectCount(m, w, 0, x1, 0, y0) + RectCount(m, w, 0, x0, 0, y0)
  {
    ColumnSplit(m, w, x0, x1, y0);
    ColumnSplit(m, w, x0, x1, y1);
    RowsSplit(m, w, x0, x1, y0, y1);
  }

  lemma {:induction false} RowCountExtremes(row: seq<bool>, x0: nat, x1: nat)
    requires x0 <= x1 <= |row|
    ensures RowCount(row, x0, x1) <= x1 - x0
    ensures RowCount(row, x0, x1) == 0 <==> forall p :: x0 <= p < x1 ==> !row[p]
    ensures RowCount(row, x0, x1) == x1 - x0 <==> forall p :: x0 <= p < x1 ==> row[p]
    decreases x1
  {
    if x0 >= x1 {
    } else {
      RowCountExtremes(row, x0, x1 - 1);
    }
  }

  lemma RowOfArea(a: int, b: int)
    ensures a * b == a * (b - 1) + a
  {
  }

  /** A rectangle count is 0 when no pixel is set and the area when all are. */
  lemma {:induction false} RectCountExtremes(m: Mask, w: nat, x0: nat, x1: nat, y0: nat, y1: nat)
    requires IsMask(m, w, |m|) && x0 <= x1 <= w && y0 <= y1 <= |m|
    ensures RectCount(m, w, x0, x1, y0, y1) <= (x1 - x0) * (y1 - y0)
    ensures RectCount(m, w, x0, x1, y0, y1) == 0
       <==> forall p, q :: x0 <= p < x1 && y0 <= q < y1 ==> !m[q][p]
    ensures RectCount(m, w, x0, x1, y0, y1) == (x1 - x0) * (y1 - y0)
       <==> forall p, q :: x0 <= p < x1 && y0 <= q < y1 ==> m[q][p]
    decreases y1
  {
    hide RowCount;
    if y0 == y1 {
      assert (x1 - x0) * 0 == 0;
    } else {
      RectCountExtremes(m, w, x0, x1, y0, y1 - 1);
      RowCountExtremes(m[y1 - 1], x0, x1);
      RowOfArea(x1 - x0, y1 - y0);
    }
  }
}
