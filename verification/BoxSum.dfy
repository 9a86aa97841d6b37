/** The integral image with 32-bit wrap-around, and the fast closing built on it. */
module BoxSums {
  import opened Morphology

  const WRAP: nat := 0x1_0000_0000

  /** Conversion to uint32_t. */
  function U32(n: int): (r: nat)
    ensures r < WRAP
  {
    n % WRAP
  }

  lemma U32Sum(a: int, b: int)
    ensures U32(U32(a) + b) == U32(a + b)
    ensures U32(U32(a) + U32(b)) == U32(a + b)
    ensures U32(0) == 0
  {
  }

  function Max(a: int, b: int): int {
    if a > b then a else b
  }

  function Min(a: int, b: int): int {
    if a < b then a else b
  }

  /** The clipped window of (x, y): first column and row, and one past the last. */
  datatype Rect = Rect(x0: nat, x1: nat, y0: nat, y1: nat)

  function Clip(w: nat, h: nat, x: nat, y: nat, r: nat): (c: Rect)
    requires x < w && y < h
    ensures c.x0 <= c.x1 <= w && c.y0 <= c.y1 <= h
    ensures forall p, q :: (0 <= p < w && 0 <= q < h && Within(x, y, r, p, q)) <==> (c.x0 <= p < c.x1 && c.y0 <= q < c.y1)
  {
    Rect(Max(0, x - r), Min(w - 1, x + r) + 1, Max(0, y - r), Min(h - 1, y + r) + 1)
  }

  function Area(c: Rect): int {
    (c.x1 - c.x0) * (c.y1 - c.y0)
  }

  function Count(m: Mask, w: nat, c: Rect): nat
    requires IsMask(m, w, |m|) && c.x0 <= c.x1 <= w && c.y0 <= c.y1 <= |m|
  {
    RectCount(m, w, c.x0, c.x1, c.y0, c.y1)
  }

  /** Set pixels above row q and left of column p. */
  function Corner(m: Mask, w: nat, p: nat, q: nat): nat
    requires IsMask(m, w, |m|) && p <= w && q <= |m|
  {
    RectCount(m, w, 0, p, 0, q)
  }

  /** Set pixels in the first q rows and the first p columns, once `bits` follows the rows. */
  function NextCorner(rows: Mask, bits: seq<bool>, w: nat, p: nat): nat
    requires IsMask(rows, w, |rows|) && p <= w == |bits|
  {
    Corner(rows, w, p, |rows|) + RowCount(bits, 0, p)
  }

  lemma NextCornerStart(rows: Mask, bits: seq<bool>, w: nat)
    requires IsMask(rows, w, |rows|) && w == |bits|
    ensures U32(NextCorner(rows, bits, w, 0)) == 0 && U32(RowCount(bits, 0, 0)) == 0
  {
    NoColumns(rows, w, |rows|);
  }

  lemma NextCornerStep(rows: Mask, bits: seq<bool>, w: nat, x: nat)
    requires IsMask(rows, w, |rows|) && x < w == |bits|
    ensures var rowsum := U32(U32(RowCount(bits, 0, x)) + (if bits[x] then 1 else 0));
            && rowsum == U32(RowCount(bits, 0, x + 1))
            && U32(U32(Corner(rows, w, x + 1, |rows|)) + rowsum) == U32(NextCorner(rows, bits, w, x + 1))
  {
    hide Corner, U32;
    RowStep(bits, x);
    U32Sum(RowCount(bits, 0, x), if bits[x] then 1 else 0);
    U32Sum(Corner(rows, w, x + 1, |rows|), RowCount(bits, 0, x + 1));
  }

  /** The loop of add_row: row y + 1 of the integral image from row y. */
  method FillRow(integ: array2<nat>, ghost rows: Mask, bits: seq<bool>, w: nat, y: nat)
    requires IsMask(rows, w, y) && |bits| == w && y + 1 < integ.Length0 && integ.Length1 == w + 1
    requires forall p :: 0 <= p <= w ==> integ[y, p] == U32(Corner(rows, w, p, y))
    modifies integ
    ensures forall p :: 0 <= p <= w ==> integ[y + 1, p] == U32(NextCorner(rows, bits, w, p))
    ensures forall q, p :: 0 <= q <= y && 0 <= p <= w ==> integ[q, p] == old(integ[q, p])
  {
    NextCornerStart(rows, bits, w);
    hide Corner, NextCorner, RowCount, U32;
    var rowsum := 0;
    var out := y + 1;
    integ[out, 0] := 0;
    for x := 0 to w
      invariant rowsum == U32(RowCount(bits, 0, x))
      invariant forall q, p :: 0 <= q <= y && 0 <= p <= w ==> integ[q, p] == old(integ[q, p])
      invariant forall p :: 0 <= p <= x ==> integ[out, p] == U32(NextCorner(rows, bits, w, p))
    {
      NextCornerStep(rows, bits, w, x);
      rowsum := U32(rowsum + if bits[x] then 1 else 0);
      integ[out, x + 1] := U32(integ[y, x + 1] + rowsum);
    }
  }

  class BoxSum {
    const w: nat
    const h: nat
    var integ: array2<nat>
    /** The rows added so far. */
    ghost var rows: Mask

    ghost predicate Valid()
      reads this, integ
    {
      && integ.Length0 == h + 1 && integ.Length1 == w + 1
      && |rows| <= h && IsMask(rows, w, |rows|)
      && forall y, x :: 0 <= y <= |rows| && 0 <= x <= w ==>
           integ[y, x] == U32(Corner(rows, w, x, y))
    }

    constructor (w: nat, h: nat)
      ensures Valid() && fresh(integ) && rows == [] && this.w == w && this.h == h
    {
      this.w := w;
      this.h := h;
      integ := new nat[h + 1, w + 1]((y, x) => 0);
      rows := [];
    }

    /** Row y of the mask; rows are added in order. */
    method AddRow(y: nat, bits: seq<bool>)
      requires Valid() && y == |rows| < h && |bits| == w
      modifies this`rows, integ
      ensures Valid() && integ == old(integ) && rows == old(rows) + [bits]
    {
      hide Corner, NextCorner, U32;
      ghost var before := rows;
      FillRow(integ, before, bits, w, y);
      rows := before + [bits];
      AddedRow(before, bits, w);
      forall q, p | 0 <= q <= |rows| && 0 <= p <= w ensures integ[q, p] == U32(Corner(rows, w, p, q)) {
        if q <= y {
          assert Corner(rows, w, p, q) == Corner(before, w, p, q);
        } else {
          assert Corner(rows, w, p, y + 1) == NextCorner(before, bits, w, p);
          assert integ[y + 1, p] == U32(NextCorner(before, bits, w, p));
        }
      }
    }

    /** The window sum modulo 2^32, and the clipped area. */
    method Window(x: nat, y: nat, r: nat) returns (sum: nat, area: int)
      requires Valid() && |rows| == h && x < w && y < h
      ensures sum == U32(Count(rows, w, Clip(w, h, x, y, r)))
      ensures area == Area(Clip(w, h, x, y, r))
    {
      var x0, y0 := Max(0, x - r), Max(0, y - r);
      var x1, y1 := Min(w - 1, x + r), Min(h - 1, y + r);
      area := (x1 - x0 + 1) * (y1 - y0 + 1);
      sum := CornerSum(x0, x1 + 1, y0, y1 + 1);
    }

    /** The four table reads of window, in uint32 arithmetic. */
    method CornerSum(x0: nat, x1: nat, y0: nat, y1: nat) returns (sum: nat)
      requires Valid() && x0 <= x1 <= w && y0 <= y1 <= |rows|
      ensures sum == U32(RectCount(rows, w, x0, x1, y0, y1))
    {
      hide RectCount, U32;
      FourCorners(rows, w, x0, x1, y0, y1);
      WrapsCancel(Corner(rows, w, x1, y1), Corner(rows, w, x0, y1), Corner(rows, w, x1, y0), Corner(rows, w, x0, y0));
      sum := U32(integ[y1, x1] - integ[y1, x0] - integ[y0, x1] + integ[y0, x0]);
    }
  }

  lemma {:induction false} SamePrefix(a: Mask, b: Mask, w: nat, p: nat, q: nat)
    requires IsMask(a, w, |a|) && IsMask(b, w, |b|) && p <= w && q <= |a| <= |b| && b[..|a|] == a
    ensures RectCount(b, w, 0, p, 0, q) == RectCount(a, w, 0, p, 0, q)
  {
    if q == 0 {
    } else {
      SamePrefix(a, b, w, p, q - 1);
      assert b[q - 1] == b[..|a|][q - 1];
    }
  }

  lemma RowStep(bits: seq<bool>, x: nat)
    requires x < |bits|
    ensures RowCount(bits, 0, x + 1) == RowCount(bits, 0, x) + (if bits[x] then 1 else 0)
  {
  }

  /** Corner counts after one more row. */
  lemma AddedRow(before: Mask, bits: seq<bool>, w: nat)
    requires IsMask(before, w, |before|) && |bits| == w
    ensures var after, y := before + [bits], |before|;
            && IsMask(after, w, y + 1)
            && (forall q, p :: 0 <= q <= y && 0 <= p <= w ==>
                  Corner(after, w, p, q) == Corner(before, w, p, q))
            && (forall p :: 0 <= p <= w ==>
                  Corner(after, w, p, y + 1) == NextCorner(before, bits, w, p))
  {
    var after, y := before + [bits], |before|;
    forall q: nat, p: nat | q <= y && p <= w
      ensures Corner(after, w, p, q) == Corner(before, w, p, q)
    {
      SamePrefix(before, after, w, p, q);
    }
  }

  lemma {:induction false} NoColumns(m: Mask, w: nat, q: nat)
    requires IsMask(m, w, |m|) && q <= |m|
    ensures RectCount(m, w, 0, 0, 0, q) == 0
  {
    if q == 0 {
    } else {
      NoColumns(m, w, q - 1);
    }
  }

  lemma WrapsCancel(a: nat, b: nat, c: nat, d: nat)
    ensures U32(U32(a) - U32(b) - U32(c) + U32(d)) == U32(a - b - c + d)
  {
  }

  /** The sum returned is the exact count unless the count itself reaches 2^32, which no
      image of fewer than 2^32 pixels can. */
  lemma WindowIsExact(m: Mask, w: nat, h: nat, x: nat, y: nat, r: nat)
    requires IsMask(m, w, h) && x < w && y < h
    ensures U32(Count(m, w, Clip(w, h, x, y, r))) == Count(m, w, Clip(w, h, x, y, r))
       <==> Count(m, w, Clip(w, h, x, y, r)) < WRAP
    ensures Count(m, w, Clip(w, h, x, y, r)) <= Area(Clip(w, h, x, y, r)) <= w * h
  {
    var c := Clip(w, h, x, y, r);
    RectCountExtremes(m, w, c.x0, c.x1, c.y0, c.y1);
    ProductMono(c.x1 - c.x0, w, c.y1 - c.y0, h);
  }

  lemma ProductMono(a: nat, b: nat, c: nat, d: nat)
    requires a <= b && c <= d
    ensures a * c <= b * d
  {
    assert a * c <= b * c;
    assert b * c <= b * d;
  }

  /** No window of the image holds 2^32 pixels. */
  predicate WindowsFit(w: nat, h: nat, r: nat) {
    Min(w, 2 * r + 1) * Min(h, 2 * r + 1) < WRAP
  }

  lemma ClipSize(w: nat, h: nat, x: nat, y: nat, r: nat)
    requires x < w && y < h
    ensures var c := Clip(w, h, x, y, r); c.x1 - c.x0 <= Min(w, 2 * r + 1) && c.y1 - c.y0 <= Min(h, 2 * r + 1)
    ensures var c := Clip(w, h, x, y, r);
            x == Min(r, w - 1) && y == Min(r, h - 1) ==>
              c.x1 - c.x0 == Min(w, 2 * r + 1) && c.y1 - c.y0 == Min(h, 2 * r + 1)
  {
  }

  /** Images of fewer than 2^32 pixels and small radii are both enough. */
  lemma FitsWhenSmall(w: nat, h: nat, r: nat)
    requires w * h < WRAP || (2 * r + 1) * (2 * r + 1) < WRAP
    ensures WindowsFit(w, h, r)
  {
    ProductMono(Min(w, 2 * r + 1), w, Min(h, 2 * r + 1), h);
    ProductMono(Min(w, 2 * r + 1), 2 * r + 1, Min(h, 2 * r + 1), 2 * r + 1);
  }

  lemma WindowFits(m: Mask, w: nat, h: nat, x: nat, y: nat, r: nat)
    requires IsMask(m, w, h) && x < w && y < h && WindowsFit(w, h, r)
    ensures Count(m, w, Clip(w, h, x, y, r)) <= Area(Clip(w, h, x, y, r)) < WRAP
  {
    var c := Clip(w, h, x, y, r);
    ClipSize(w, h, x, y, r);
    WindowIsExact(m, w, h, x, y, r);
    ProductMono(c.x1 - c.x0, Min(w, 2 * r + 1), c.y1 - c.y0, Min(h, 2 * r + 1));
  }

  /** Every window sum of this mask is the exact count. */
  predicate SumsExact(m: Mask, w: nat, h: nat, r: nat)
    requires IsMask(m, w, h)
  {
    forall x, y :: 0 <= x < w && 0 <= y < h ==>
                     U32(Count(m, w, Clip(w, h, x, y, r))) == Count(m, w, Clip(w, h, x, y, r))
  }

  /** All window sums of all masks are exact exactly when no window holds 2^32 pixels. */
  lemma SumsExactWhenFit(w: nat, h: nat, r: nat)
    requires w > 0 && h > 0
    ensures (forall m :: IsMask(m, w, h) ==> SumsExact(m, w, h, r)) <==> WindowsFit(w, h, r)
  {
    if WindowsFit(w, h, r) {
      forall m | IsMask(m, w, h) ensures SumsExact(m, w, h, r) {
        forall x: nat, y: nat | x < w && y < h
          ensures U32(Count(m, w, Clip(w, h, x, y, r))) == Count(m, w, Clip(w, h, x, y, r))
        {
          WindowFits(m, w, h, x, y, r);
        }
      }
    } else {
      var m := seq(h, _ => seq(w, _ => true));
      var x, y := Min(r, w - 1), Min(r, h - 1);
      ClipSize(w, h, x, y, r);
      var c := Clip(w, h, x, y, r);
      RectCountExtremes(m, w, c.x0, c.x1, c.y0, c.y1);
      assert IsMask(m, w, h) && !SumsExact(m, w, h, r);
    }
  }

  /** A window sum is positive when some pixel in reach is set, and the area when all are. */
  lemma WindowMeaning(m: Mask, w: nat, h: nat, x: nat, y: nat, r: nat)
    requires IsMask(m, w, h) && x < w && y < h
    ensures Count(m, w, Clip(w, h, x, y, r)) > 0 <==> Dilated(m, w, h, r, x, y)
    ensures Count(m, w, Clip(w, h, x, y, r)) == Area(Clip(w, h, x, y, r)) <==> Eroded(m, w, h, r, x, y)
  {
    var c := Clip(w, h, x, y, r);
    RectCountExtremes(m, w, c.x0, c.x1, c.y0, c.y1);
    if Dilated(m, w, h, r, x, y) {
      var p, q :| SetAt(m, w, h, p, q) && Within(x, y, r, p, q);
      assert m[q][p];
    }
    if Count(m, w, c) > 0 {
      var p, q :| c.x0 <= p < c.x1 && c.y0 <= q < c.y1 && m[q][p];
      assert SetAt(m, w, h, p, q) && Within(x, y, r, p, q);
    }
    if Eroded(m, w, h, r, x, y) {
      forall p, q | c.x0 <= p < c.x1 && c.y0 <= q < c.y1 ensures m[q][p] {
        assert SetAt(m, w, h, p, q);
      }
    }
  }

  /** The integral image of a whole mask. */
  method SumOf(m: Mask, w: nat, h: nat) returns (b: BoxSum)
    requires IsMask(m, w, h)
    ensures fresh(b) && fresh(b.integ) && b.Valid() && b.w == w && b.h == h && b.rows == m
  {
    b := new BoxSum(w, h);
    for y := 0 to h
      invariant fresh(b) && fresh(b.integ) && b.Valid() && b.w == w && b.h == h && b.rows == m[..y]
    {
      b.AddRow(y, m[y]);
      assert m[..y + 1] == m[..y] + [m[y]];
    }
    assert m[..h] == m;
  }

  /** The first pass: the integral image of the dilation. */
  method DilationSum(low: Mask, w: nat, h: nat, r: nat) returns (sum: BoxSum)
    requires IsMask(low, w, h) && WindowsFit(w, h, r)
    ensures fresh(sum) && sum.Valid() && sum.w == w && sum.h == h && IsDilation(sum.rows, low, w, h, r)
  {
    hide Dilated;
    var lowSum := SumOf(low, w, h);
    sum := new BoxSum(w, h);
    for y := 0 to h
      invariant fresh(sum) && fresh(sum.integ) && sum.Valid() && sum.w == w && sum.h == h
      invariant lowSum.Valid() && lowSum.w == w && lowSum.h == h && lowSum.rows == low
      invariant lowSum != sum && lowSum.integ != sum.integ
      invariant |sum.rows| == y
      invariant forall q, p :: 0 <= q < y && 0 <= p < w ==> (sum.rows[q][p] <==> Dilated(low, w, h, r, p, q))
    {
      var bits := DilatedRow(lowSum, low, y, r);
      sum.AddRow(y, bits);
    }
  }

  /** low_texture_mask after thresholding: when no window holds 2^32 pixels, the two passes of window
      sums compute the closing of the low-gradient mask. */
  method Close(low: Mask, w: nat, h: nat, r: nat) returns (closed: Mask)
    requires IsMask(low, w, h) && WindowsFit(w, h, r)
    ensures IsClosing(closed, low, w, h, r)
  {
    var sum := DilationSum(low, w, h, r);
    ghost var d := sum.rows;
    hide Eroded;
    closed := [];
    for y := 0 to h
      invariant sum.Valid() && sum.w == w && sum.h == h && sum.rows == d
      invariant |closed| == y && forall q :: 0 <= q < y ==> |closed[q]| == w
      invariant forall q, p :: 0 <= q < y && 0 <= p < w ==> (closed[q][p] <==> Eroded(d, w, h, r, p, q))
    {
      var bits := ErodedRow(sum, d, y, r);
      closed := closed + [bits];
    }
    assert IsErosion(closed, d, w, h, r);
  }

  method DilatedRow(sum: BoxSum, ghost m: Mask, y: nat, r: nat) returns (bits: seq<bool>)
    requires sum.Valid() && IsMask(m, sum.w, sum.h) && sum.rows == m && y < sum.h && WindowsFit(sum.w, sum.h, r)
    ensures |bits| == sum.w && forall p :: 0 <= p < sum.w ==> (bits[p] <==> Dilated(m, sum.w, sum.h, r, p, y))
  {
    hide Dilated, Eroded, WindowsFit, BoxSum.Valid;
    bits := [];
    for x := 0 to sum.w
      invariant |bits| == x && forall p :: 0 <= p < x ==> (bits[p] <==> Dilated(m, sum.w, sum.h, r, p, y))
    {
      var s, area := sum.Window(x, y, r);
      WindowFits(m, sum.w, sum.h, x, y, r);
      WindowMeaning(m, sum.w, sum.h, x, y, r);
      bits := bits + [s > 0];
    }
  }

  method ErodedRow(sum: BoxSum, ghost m: Mask, y: nat, r: nat) returns (bits: seq<bool>)
    requires sum.Valid() && IsMask(m, sum.w, sum.h) && sum.rows == m && y < sum.h && WindowsFit(sum.w, sum.h, r)
    ensures |bits| == sum.w && forall p :: 0 <= p < sum.w ==> (bits[p] <==> Eroded(m, sum.w, sum.h, r, p, y))
  {
    hide Dilated, Eroded, WindowsFit, BoxSum.Valid;
    bits := [];
    for x := 0 to sum.w
      invariant |bits| == x && forall p :: 0 <= p < x ==> (bits[p] <==> Eroded(m, sum.w, sum.h, r, p, y))
    {
      var s, area := sum.Window(x, y, r);
      WindowFits(m, sum.w, sum.h, x, y, r);
      WindowMeaning(m, sum.w, sum.h, x, y, r);
      bits := bits + [s == U32(area)];
    }
  }
}
