/** The two-dimensional transform of PhaseCorrelator: rows in place, then columns through a buffer. */
module Fft2d {
  import opened ComplexNumbers
  import opened Dft
  import opened Fft

  /** Rows of equal length. */
  type Image = seq<seq<Complex>>

  predicate IsImage(img: Image, h: nat, w: nat) {
    |img| == h && forall y :: 0 <= y < h ==> |img[y]| == w
  }

  function Column(img: Image, x: nat): (c: seq<Complex>)
    requires forall y :: 0 <= y < |img| ==> x < |img[y]|
    ensures |c| == |img| && forall y :: 0 <= y < |c| ==> c[y] == img[y][x]
  {
    seq(|img|, y requires 0 <= y < |img| => img[y][x])
  }

  function Rows(img: Image, r: Complex): (t: Image)
    ensures |t| == |img| && forall y :: 0 <= y < |t| ==> t[y] == Transform(img[y], r)
    ensures forall w :: IsImage(img, |img|, w) ==> IsImage(t, |img|, w)
  {
    seq(|img|, y requires 0 <= y < |img| => Transform(img[y], r))
  }

  function ColumnsAt(img: Image, w: nat, r: Complex, y: nat): (row: seq<Complex>)
    requires IsImage(img, |img|, w) && y < |img|
    ensures |row| == w && forall x :: 0 <= x < w ==> row[x] == Transform(Column(img, x), r)[y]
  {
    seq(w, x requires 0 <= x < w => Transform(Column(img, x), r)[y])
  }

  function Columns(img: Image, w: nat, r: Complex): (t: Image)
    requires IsImage(img, |img|, w)
    ensures IsImage(t, |img|, w) && forall y :: 0 <= y < |t| ==> t[y] == ColumnsAt(img, w, r, y)
  {
    seq(|img|, y requires 0 <= y < |img| => ColumnsAt(img, w, r, y))
  }

  /** Output (y, x) is the double sum over v and u of img[v][u] rx^(x u) ry^(y v). */
  function Transform2(img: Image, w: nat, rx: Complex, ry: Complex): (t: Image)
    requires IsImage(img, |img|, w)
    ensures IsImage(t, |img|, w)
  {
    Columns(Rows(img, rx), w, ry)
  }

  // ---------------------------------------------------------------- rows and columns commute

  function Pixel(img: Image, v: nat, u: nat): Complex {
    if v < |img| then At(img[v], u) else ZERO
  }

  function SummandAt(img: Image, a: Complex, b: Complex, y: nat, x: nat, v: nat, u: nat): Complex {
    Mul(Mul(Pixel(img, v, u), Pow(a, x * u)), Pow(b, y * v))
  }

  function Summand(img: Image, a: Complex, b: Complex, y: nat, x: nat): (nat, nat) -> Complex {
    (v: nat, u: nat) => SummandAt(img, a, b, y, x, v, u)
  }

  lemma RowSummand(img: Image, a: Complex, b: Complex, y: nat, x: nat, v: nat)
    requires v < |img|
    ensures Mul(Coefficient(img[v], a, x), Pow(b, y * v)) == RowSums(Summand(img, a, b, y, x), |img[v]|)(v)
  {
    hide Mul, Pow;
    var c, row := Pow(b, y * v), img[v];
    MulComm(Coefficient(row, a, x), c);
    SumScale(c, Term(row, a, x), |row|);
    forall u: nat ensures Mul(c, Term(row, a, x)(u)) == Summand(img, a, b, y, x)(v, u) {
      MulComm(c, Term(row, a, x)(u));
    }
    SumExt((u: nat) => Mul(c, Term(row, a, x)(u)), (u: nat) => Summand(img, a, b, y, x)(v, u), |row|);
  }

  lemma SwapFactors(p: Complex, a: Complex, b: Complex)
    ensures Mul(b, Mul(p, a)) == Mul(Mul(p, b), a)
  {
    hide Mul;
    MulComm(b, Mul(p, a));
    MulAssoc(p, a, b);
    MulComm(a, b);
    MulAssoc(p, b, a);
  }

  lemma ColumnSummand(img: Image, w: nat, a: Complex, b: Complex, y: nat, x: nat, u: nat)
    requires IsImage(img, |img|, w) && u < w
    ensures Mul(Coefficient(Column(img, u), b, y), Pow(a, x * u)) == ColumnSums(Summand(img, a, b, y, x), |img|)(u)
  {
    hide Mul, Pow;
    var c, col := Pow(a, x * u), Column(img, u);
    MulComm(Coefficient(col, b, y), c);
    SumScale(c, Term(col, b, y), |col|);
    forall v: nat ensures Mul(c, Term(col, b, y)(v)) == Summand(img, a, b, y, x)(v, u) {
      SwapFactors(At(col, v), Pow(b, y * v), c);
      MulComm(c, Mul(At(col, v), Pow(b, y * v)));
      assert At(col, v) == Pixel(img, v, u);
    }
    SumExt((v: nat) => Mul(c, Term(col, b, y)(v)), (v: nat) => Summand(img, a, b, y, x)(v, u), |col|);
  }

  lemma RowsThenColumns(img: Image, w: nat, a: Complex, b: Complex, y: nat, x: nat)
    requires IsImage(img, |img|, w) && y < |img| && x < w
    ensures Columns(Rows(img, a), w, b)[y][x] == Sum(RowSums(Summand(img, a, b, y, x), w), |img|)
  {
    hide Mul, Pow, Summand, RowSums;
    var col := Column(Rows(img, a), x);
    assert Columns(Rows(img, a), w, b)[y][x] == Coefficient(col, b, y);
    forall v: nat | v < |img| ensures Term(col, b, y)(v) == RowSums(Summand(img, a, b, y, x), w)(v) {
      RowSummand(img, a, b, y, x, v);
      assert At(col, v) == Coefficient(img[v], a, x);
    }
    SumExt(Term(col, b, y), RowSums(Summand(img, a, b, y, x), w), |img|);
  }

  lemma ColumnsThenRows(img: Image, w: nat, a: Complex, b: Complex, y: nat, x: nat)
    requires IsImage(img, |img|, w) && y < |img| && x < w
    ensures Rows(Columns(img, w, b), a)[y][x] == Sum(ColumnSums(Summand(img, a, b, y, x), |img|), w)
  {
    hide Mul, Pow, Summand, ColumnSums;
    var row := ColumnsAt(img, w, b, y);
    assert Rows(Columns(img, w, b), a)[y][x] == Coefficient(row, a, x);
    forall u: nat | u < w ensures Term(row, a, x)(u) == ColumnSums(Summand(img, a, b, y, x), |img|)(u) {
      ColumnSummand(img, w, a, b, y, x, u);
      assert At(row, u) == Coefficient(Column(img, u), b, y);
    }
    SumExt(Term(row, a, x), ColumnSums(Summand(img, a, b, y, x), |img|), w);
  }

  lemma Commute(img: Image, w: nat, a: Complex, b: Complex)
    requires IsImage(img, |img|, w)
    ensures Columns(Rows(img, a), w, b) == Rows(Columns(img, w, b), a)
  {
    var l, r := Columns(Rows(img, a), w, b), Rows(Columns(img, w, b), a);
    forall y: nat, x: nat | y < |img| && x < w ensures l[y][x] == r[y][x] {
      RowsThenColumns(img, w, a, b, y, x);
      ColumnsThenRows(img, w, a, b, y, x);
      SumSwap(Summand(img, a, b, y, x), |img|, w);
    }
    forall y: nat | y < |img| ensures l[y] == r[y] {
      assert |l[y]| == w && |r[y]| == w;
    }
  }

  // ---------------------------------------------------------------- forward and back

  /** The transform with the roots of unity of the image's own size. */
  function Spectrum(img: Image, w: nat, trig: nat -> Complex, inverse: bool): (t: Image)
    requires IsImage(img, |img|, w)
    ensures IsImage(t, |img|, w)
  {
    Transform2(img, w, Twiddle(trig, inverse)(w), Twiddle(trig, inverse)(|img|))
  }

  predicate IsScaled(t: Image, img: Image, w: nat, c: Complex) {
    && IsImage(img, |img|, w) && IsImage(t, |img|, w)
    && forall y, x :: 0 <= y < |img| && 0 <= x < w ==> t[y][x] == Mul(img[y][x], c)
  }

  lemma RowsBack(img: Image, w: nat, trig: nat -> Complex)
    requires IsImage(img, |img|, w) && IsPow2(w) && IsUnitCircle(trig)
    ensures IsScaled(Rows(Rows(img, Twiddle(trig, false)(w)), Twiddle(trig, true)(w)), img, w, OfNat(w))
  {
    hide Transform, Mul, Twiddle, IsUnitCircle, OfNat;
    var t := Rows(Rows(img, Twiddle(trig, false)(w)), Twiddle(trig, true)(w));
    forall y: nat, x: nat | y < |img| && x < w ensures t[y][x] == Mul(img[y][x], OfNat(w)) {
      ForwardThenInverse(img[y], trig, x);
    }
  }

  lemma ColumnOfColumns(img: Image, w: nat, r: Complex, x: nat)
    requires IsImage(img, |img|, w) && x < w
    ensures Column(Columns(img, w, r), x) == Transform(Column(img, x), r)
  {
    hide Coefficient;
  }

  lemma ColumnsBack(img: Image, w: nat, trig: nat -> Complex)
    requires IsImage(img, |img|, w) && IsPow2(|img|) && IsUnitCircle(trig)
    ensures IsScaled(Columns(Columns(img, w, Twiddle(trig, false)(|img|)), w, Twiddle(trig, true)(|img|)),
                     img, w, OfNat(|img|))
  {
    hide Mul, Twiddle, IsUnitCircle, OfNat, Transform;
    var f, i := Twiddle(trig, false)(|img|), Twiddle(trig, true)(|img|);
    var t := Columns(Columns(img, w, f), w, i);
    forall y: nat, x: nat | y < |img| && x < w ensures t[y][x] == Mul(img[y][x], OfNat(|img|)) {
      ForwardThenInverse(Column(img, x), trig, y);
      ColumnOfColumns(img, w, f, x);
    }
  }

  lemma ScaledTwice(t: Image, u: Image, img: Image, w: nat, c: Complex, d: Complex)
    requires IsScaled(u, img, w, c) && IsScaled(t, u, w, d)
    ensures IsScaled(t, img, w, Mul(c, d))
  {
    hide Mul;
    forall y: nat, x: nat | y < |img| && x < w ensures t[y][x] == Mul(img[y][x], Mul(c, d)) {
      MulAssoc(img[y][x], c, d);
    }
  }

  /** Forward and unscaled inverse give width times height times the image. */
  lemma ForwardThenInverse2(img: Image, w: nat, trig: nat -> Complex)
    requires IsImage(img, |img|, w) && IsPow2(|img|) && IsPow2(w) && IsUnitCircle(trig)
    ensures IsScaled(Spectrum(Spectrum(img, w, trig, false), w, trig, true), img, w, Mul(OfNat(w), OfNat(|img|)))
  {
    hide Mul, Twiddle, IsUnitCircle, OfNat, ColumnsAt, IsScaled, Transform;
    var f, i := Twiddle(trig, false), Twiddle(trig, true);
    var rows := Rows(img, f(w));
    Commute(rows, w, i(w), f(|img|));
    var back := Rows(rows, i(w));
    RowsBack(img, w, trig);
    ColumnsBack(back, w, trig);
    ScaledTwice(Columns(Columns(back, w, f(|img|)), w, i(|img|)), back, img, w, OfNat(w), OfNat(|img|));
  }

  // ---------------------------------------------------------------- in place

  function Index(w: nat, y: nat, x: nat): nat {
    y * w + x
  }

  lemma IndexShifts(w: nat, y: nat, x: nat)
    ensures Index(w, y, x) == Index(w, y, 0) + x
  {
  }

  /** The rows before row y, row y, and as many as come after it. */
  lemma RowsSplit(w: nat, h: nat, y: nat)
    requires y < h
    ensures w * h == Index(w, y, 0) + w + Index(w, h - 1 - y, 0)
  {
    var rest := h - 1 - y;
    assert y * w + w + rest * w == (y + 1 + rest) * w;
    assert y + 1 + rest == h;
  }

  lemma IndexFits(w: nat, h: nat, y: nat, x: nat)
    requires y < h && x <= w
    ensures Index(w, y, x) <= Index(w, y, 0) + w <= w * h
    ensures x < w ==> Index(w, y, x) < w * h
    ensures Index(w, y, x) == Index(w, y, 0) + x
  {
    hide Index;
    IndexShifts(w, y, x);
    RowsSplit(w, h, y);
  }

  lemma RowsApart(w: nat, y: nat, z: nat)
    requires y < z
    ensures Index(w, y, 0) + w <= Index(w, z, 0)
  {
    var d := z - y - 1;
    assert (y + 1 + d) * w == y * w + w + d * w && d * w >= 0;
  }

  lemma IndexInjective(w: nat, y: nat, x: nat, z: nat, u: nat)
    requires x < w && u < w && Index(w, y, x) == Index(w, z, u)
    ensures y == z && x == u
  {
    if y < z { RowsApart(w, y, z); } else if z < y { RowsApart(w, z, y); }
  }

  function Row(s: seq<Complex>, w: nat, y: nat): (r: seq<Complex>)
    requires Index(w, y, 0) + w <= |s|
    ensures |r| == w
  {
    s[Index(w, y, 0)..Index(w, y, 0) + w]
  }

  /** The flat buffer as rows. */
  function Grid(s: seq<Complex>, w: nat, h: nat): (img: Image)
    requires |s| == w * h
    ensures IsImage(img, h, w)
    ensures forall y :: 0 <= y < h ==> Index(w, y, 0) + w <= |s| && img[y] == Row(s, w, y)
  {
    assert forall y :: 0 <= y < h ==> Index(w, y, 0) + w <= |s| by {
      forall y: nat | y < h ensures Index(w, y, 0) + w <= |s| { IndexFits(w, h, y, 0); }
    }
    seq(h, y requires 0 <= y < h => Row(s, w, y))
  }

  lemma OtherRowsKept(before: seq<Complex>, after: seq<Complex>, w: nat, h: nat, y: nat)
    requires |before| == |after| == w * h && y < h && Index(w, y, 0) + w <= w * h
    requires var off := Index(w, y, 0);
             after[..off] == before[..off] && after[off + w..] == before[off + w..]
    ensures forall z :: 0 <= z < h && z != y ==> Grid(after, w, h)[z] == Grid(before, w, h)[z]
  {
    forall z: nat | z < h && z != y ensures Grid(after, w, h)[z] == Grid(before, w, h)[z] {
      IndexFits(w, h, z, 0);
      if z < y { RowsApart(w, z, y); } else { RowsApart(w, y, z); }
      SliceKept(before, after, Index(w, y, 0), Index(w, y, 0) + w, Index(w, z, 0), Index(w, z, 0) + w);
    }
  }

  lemma SliceKept(before: seq<Complex>, after: seq<Complex>, lo: nat, hi: nat, a: nat, b: nat)
    requires |before| == |after| && lo <= hi <= |before| && a <= b <= |before| && (b <= lo || hi <= a)
    requires after[..lo] == before[..lo] && after[hi..] == before[hi..]
    ensures after[a..b] == before[a..b]
  {
    if b <= lo {
      assert after[a..b] == after[..lo][a..b];
      assert before[a..b] == before[..lo][a..b];
    } else {
      forall i | a <= i < b ensures after[i] == before[i] {
        assert after[i] == after[hi..][i - hi] && before[i] == before[hi..][i - hi];
      }
    }
  }

  /** The row loop. */
  method TransformRows(a: array<Complex>, w: nat, h: nat, inverse: bool, trig: nat -> Complex)
    requires a.Length == w * h && IsPow2(w) && IsUnitCircle(trig)
    modifies a
    ensures Grid(a[..], w, h) == Rows(Grid(old(a[..]), w, h), Twiddle(trig, inverse)(w))
  {
    hide Transform, Twiddle, IsUnitCircle, Row, Grid, Index;
    ghost var g := Grid(a[..], w, h);
    for y := 0 to h
      invariant forall z :: 0 <= z < y ==> Grid(a[..], w, h)[z] == Transform(g[z], Twiddle(trig, inverse)(w))
      invariant forall z :: y <= z < h ==> Grid(a[..], w, h)[z] == g[z]
    {
      IndexFits(w, h, y, 0);
      ghost var before := a[..];
      RowIs(before, w, h, y);
      Fft1d(a, Index(w, y, 0), w, inverse, trig);
      RowIs(a[..], w, h, y);
      OtherRowsKept(before, a[..], w, h, y);
    }
  }

  lemma RowIs(s: seq<Complex>, w: nat, h: nat, y: nat)
    requires |s| == w * h && y < h
    ensures Index(w, y, 0) + w <= |s| && Grid(s, w, h)[y] == s[Index(w, y, 0)..Index(w, y, 0) + w]
  {
    IndexFits(w, h, y, 0);
    hide Index;
    assert Grid(s, w, h)[y] == Row(s, w, y);
  }

  /** Entry (y, x) of the flat buffer. */
  function Entry<T>(s: seq<T>, w: nat, h: nat, y: nat, x: nat): T
    requires |s| == w * h && y < h && x < w
  {
    IndexFits(w, h, y, x);
    s[Index(w, y, x)]
  }

  lemma EntryOfGrid(s: seq<Complex>, w: nat, h: nat, y: nat, x: nat)
    requires |s| == w * h && y < h && x < w
    ensures Grid(s, w, h)[y][x] == Entry(s, w, h, y, x)
  {
    IndexFits(w, h, y, x);
    RowIs(s, w, h, y);
    hide Index, Grid;
  }

  /** Columns below x are done, the others are as they were. */
  predicate ColumnsDone(s: seq<Complex>, g: Image, t: Image, w: nat, h: nat, x: nat)
    requires |s| == w * h && IsImage(g, h, w) && IsImage(t, h, w)
  {
    forall y, c :: 0 <= y < h && 0 <= c < w ==> Entry(s, w, h, y, c) == if c < x then t[y][c] else g[y][c]
  }

  lemma WriteEntry(s: seq<Complex>, w: nat, h: nat, y: nat, x: nat, v: Complex)
    requires |s| == w * h && y < h && x < w
    ensures Index(w, y, x) < |s|
    ensures var r := s[Index(w, y, x) := v];
            forall z, u :: 0 <= z < h && 0 <= u < w ==>
                             Entry(r, w, h, z, u) == if z == y && u == x then v else Entry(s, w, h, z, u)
  {
    IndexFits(w, h, y, x);
    var r := s[Index(w, y, x) := v];
    forall z: nat, u: nat | z < h && u < w
      ensures Entry(r, w, h, z, u) == if z == y && u == x then v else Entry(s, w, h, z, u)
    {
      IndexFits(w, h, z, u);
      if Index(w, z, u) == Index(w, y, x) { IndexInjective(w, z, u, y, x); }
      hide Index;
    }
  }

  /** One column through the buffer: gather, transform, scatter. */
  method TransformColumn(a: array<Complex>, col: array<Complex>, w: nat, h: nat, x: nat, inverse: bool, trig: nat -> Complex)
    requires a != col && a.Length == w * h && col.Length >= h && x < w && IsPow2(h) && IsUnitCircle(trig)
    modifies a, col
    ensures var c := Column(Grid(old(a[..]), w, h), x);
            forall y, u :: 0 <= y < h && 0 <= u < w ==>
                             Entry(a[..], w, h, y, u)
                             == if u == x then Transform(c, Twiddle(trig, inverse)(h))[y] else Entry(old(a[..]), w, h, y, u)
  {
    hide Transform, Twiddle, IsUnitCircle, Entry, Grid, Index;
    ghost var s := a[..];
    ghost var c := Column(Grid(s, w, h), x);
    for y := 0 to h
      invariant a[..] == s
      invariant forall z :: 0 <= z < y ==> col[z] == c[z]
    {
      IndexFits(w, h, y, x);
      EntryOfGrid(s, w, h, y, x);
      EntryIs(s, w, h, y, x);
      col[y] := a[Index(w, y, x)];
    }
    assert col[0..0 + h] == c;
    Fft1d(col, 0, h, inverse, trig);
    ghost var t := Transform(c, Twiddle(trig, inverse)(h));
    assert forall z :: 0 <= z < h ==> col[z] == col[0..0 + h][z] == t[z];
    for y := 0 to h
      invariant forall z :: 0 <= z < h ==> col[z] == t[z]
      invariant forall z, u :: 0 <= z < h && 0 <= u < w ==>
                                 Entry(a[..], w, h, z, u) == if u == x && z < y then t[z] else Entry(s, w, h, z, u)
    {
      ghost var before := a[..];
      WriteEntry(before, w, h, y, x, col[y]);
      a[Index(w, y, x)] := col[y];
      assert a[..] == before[Index(w, y, x) := col[y]];
    }
  }

  lemma EntryIs(s: seq<Complex>, w: nat, h: nat, y: nat, x: nat)
    requires |s| == w * h && y < h && x < w
    ensures Index(w, y, x) < |s| && Entry(s, w, h, y, x) == s[Index(w, y, x)]
  {
    IndexFits(w, h, y, x);
  }

  lemma GridIs(s: seq<Complex>, t: Image, w: nat, h: nat)
    requires |s| == w * h && IsImage(t, h, w)
    requires forall y, x :: 0 <= y < h && 0 <= x < w ==> Entry(s, w, h, y, x) == t[y][x]
    ensures Grid(s, w, h) == t
  {
    hide Entry, Index;
    forall y: nat | y < h ensures Grid(s, w, h)[y] == t[y] {
      forall x: nat | x < w ensures Grid(s, w, h)[y][x] == t[y][x] { EntryOfGrid(s, w, h, y, x); }
    }
  }

  lemma ColumnUnchanged(s: seq<Complex>, g: Image, t: Image, w: nat, h: nat, x: nat)
    requires |s| == w * h && IsImage(g, h, w) && IsImage(t, h, w) && x < w && ColumnsDone(s, g, t, w, h, x)
    ensures Column(Grid(s, w, h), x) == Column(g, x)
  {
    hide Entry, Index, Grid;
    forall y: nat | y < h ensures Grid(s, w, h)[y][x] == g[y][x] {
      EntryOfGrid(s, w, h, y, x);
    }
  }

  /** The column loop. */
  method TransformColumns(a: array<Complex>, col: array<Complex>, w: nat, h: nat, inverse: bool, trig: nat -> Complex)
    requires a != col && a.Length == w * h && col.Length >= h && IsPow2(h) && IsUnitCircle(trig)
    modifies a, col
    ensures Grid(a[..], w, h) == Columns(Grid(old(a[..]), w, h), w, Twiddle(trig, inverse)(h))
  {
    hide Transform, Twiddle, IsUnitCircle, Entry, Grid, Index;
    ghost var r := Twiddle(trig, inverse)(h);
    ghost var g := Grid(a[..], w, h);
    ghost var t := Columns(g, w, r);
    NoColumnsDone(a[..], t, w, h);
    for x := 0 to w
      invariant ColumnsDone(a[..], g, t, w, h, x)
    {
      ColumnUnchanged(a[..], g, t, w, h, x);
      TransformColumn(a, col, w, h, x, inverse, trig);
      assert forall y :: 0 <= y < h ==> t[y][x] == Transform(Column(g, x), r)[y];
    }
    GridIs(a[..], t, w, h);
  }

  lemma NoColumnsDone(s: seq<Complex>, t: Image, w: nat, h: nat)
    requires |s| == w * h && IsImage(t, h, w)
    ensures ColumnsDone(s, Grid(s, w, h), t, w, h, 0)
  {
    hide Entry, Index, Grid;
    forall y: nat, x: nat | y < h && x < w ensures Entry(s, w, h, y, x) == Grid(s, w, h)[y][x] {
      EntryOfGrid(s, w, h, y, x);
    }
  }

  /** fft2d: the buffer ends up holding the two-dimensional transform of what it held. */
  method Fft2d(a: array<Complex>, col: array<Complex>, w: nat, h: nat, inverse: bool, trig: nat -> Complex)
    requires a != col && a.Length == w * h && col.Length >= h && IsPow2(w) && IsPow2(h) && IsUnitCircle(trig)
    modifies a, col
    ensures Grid(a[..], w, h) == Spectrum(Grid(old(a[..]), w, h), w, trig, inverse)
    ensures Twiddle(trig, inverse)(w) == if inverse then trig(w) else Conj(trig(w))
    ensures Twiddle(trig, inverse)(h) == if inverse then trig(h) else Conj(trig(h))
  {
    assert Twiddle(trig, inverse)(w) == if inverse then trig(w) else Conj(trig(w));
    assert Twiddle(trig, inverse)(h) == if inverse then trig(h) else Conj(trig(h));
    hide Transform, Twiddle, IsUnitCircle, Grid, Rows, Columns;
    TransformRows(a, w, h, inverse, trig);
    TransformColumns(a, col, w, h, inverse, trig);
  }
}
