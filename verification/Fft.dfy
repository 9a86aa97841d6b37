/** The in-place radix-2 FFT of PhaseCorrelator, in one and two dimensions. */
module Fft {
  import opened ComplexNumbers
  import opened Dft
  import opened FftSpec

  /** j & bit, for a power of two bit. */
  predicate HasBit(j: nat, bit: nat)
    requires bit > 0
  {
    (j / bit) % 2 == 1
  }

  /** j ^ bit, for a power of two bit. */
  function FlipBit(j: nat, bit: nat): nat
    requires bit > 0
  {
    if HasBit(j, bit) then (if j >= bit then j - bit else 0) else j + bit
  }

  lemma TopBit(j: nat, bit: nat)
    requires bit > 0 && j < 2 * bit
    ensures HasBit(j, bit) <==> j >= bit
  {
    if j < bit {
      assert j / bit == 0;
    } else {
      assert j / bit == 1;
    }
  }

  /** The carry loop that steps j through the bit-reversed numbers. */
  method NextReversed(n: nat, j0: nat) returns (j: nat)
    requires IsPow2(n) && j0 + 1 < n
    ensures j == ReversedIncrement(n, j0)
  {
    hide HasBit;
    j := j0;
    var bit := n / 2;
    TopBit(j, bit);
    while HasBit(j, bit)
      invariant bit > 0 && IsPow2(2 * bit) && j + 1 < 2 * bit
      invariant ReversedIncrement(2 * bit, j) == ReversedIncrement(n, j0)
      invariant HasBit(j, bit) <==> j >= bit
      decreases bit
    {
      j := FlipBit(j, bit);
      bit := bit / 2;
      TopBit(j, bit);
    }
    j := FlipBit(j, bit);
  }

  /** Entry p once all pairs with a member below i are swapped. */
  function HalfSwapped(x: seq<Complex>, i: nat, p: nat): Complex
    requires IsPow2(|x|) && p < |x|
  {
    if p < i || BitReverse(|x|, p) < i then x[BitReverse(|x|, p)] else x[p]
  }

  lemma SwapStep(x: seq<Complex>, i: nat)
    requires IsPow2(|x|) && i < |x|
    ensures var j := BitReverse(|x|, i);
            && (forall p :: 0 <= p < |x| && p != i && p != j ==> HalfSwapped(x, i + 1, p) == HalfSwapped(x, i, p))
            && (if i < j
                then HalfSwapped(x, i + 1, i) == HalfSwapped(x, i, j) && HalfSwapped(x, i + 1, j) == HalfSwapped(x, i, i)
                else HalfSwapped(x, i + 1, i) == HalfSwapped(x, i, i) && HalfSwapped(x, i + 1, j) == HalfSwapped(x, i, j))
  {
    SwapPairs(|x|, i);
    hide BitReverse;
    var j := BitReverse(|x|, i);
    assert BitReverse(|x|, j) == i;
    forall p | 0 <= p < |x| && p != i && p != j ensures HalfSwapped(x, i + 1, p) == HalfSwapped(x, i, p) {
      assert BitReverse(|x|, p) != i;
    }
  }

  /** A buffer whose slice of n values has all pairs with a member below i swapped. */
  ghost predicate SwapDone(c: seq<Complex>, before: seq<Complex>, off: nat, n: nat, i: nat)
    requires |c| == |before| && off + n <= |c| && IsPow2(n)
  {
    && (forall t :: off <= t < off + n ==> c[t] == HalfSwapped(before[off..off + n], i, t - off))
    && forall t :: 0 <= t < off || off + n <= t < |c| ==> c[t] == before[t]
  }

  lemma SwapOne(c: seq<Complex>, before: seq<Complex>, off: nat, n: nat, i: nat)
    requires |c| == |before| && off + n <= |c| && IsPow2(n) && i < n && SwapDone(c, before, off, n, i)
    ensures var j := BitReverse(n, i);
            SwapDone(if i < j then c[off + i := c[off + j]][off + j := c[off + i]] else c, before, off, n, i + 1)
  {
    hide HalfSwapped, IsPow2, BitReverse;
    var x, j := before[off..off + n], BitReverse(n, i);
    SwapStep(x, i);
    var d := if i < j then c[off + i := c[off + j]][off + j := c[off + i]] else c;
    forall t | off <= t < off + n ensures d[t] == HalfSwapped(x, i + 1, t - off) {
      assert c[t] == HalfSwapped(x, i, t - off);
      if t - off == i {
        assert c[off + j] == HalfSwapped(x, i, off + j - off);
      } else if t - off == j {
        assert c[off + i] == HalfSwapped(x, i, off + i - off);
      }
    }
  }

  /** The swap loop. */
  method BitReversePermute(a: array<Complex>, off: nat, n: nat)
    requires off + n <= a.Length && IsPow2(n)
    modifies a
    ensures a[off..off + n] == Reversed(old(a[off..off + n]))
    ensures a[..off] == old(a[..off]) && a[off + n..] == old(a[off + n..])
  {
    hide Reversed, IsPow2, BitReverse, ReversedIncrement, SwapDone;
    ghost var before := a[..];
    var i, j := 1, 0;
    ZeroReversed(n);
    SwapStart(before, off, n);
    while i < n
      invariant 1 <= i <= n
      invariant j == BitReverse(n, i - 1)
      invariant SwapDone(a[..], before, off, n, i)
    {
      IncrementReverses(n, i - 1);
      j := NextReversed(n, j);
      SwapOne(a[..], before, off, n, i);
      ghost var c := a[..];
      if i < j {
        a[off + i], a[off + j] := a[off + j], a[off + i];
        assert a[..] == c[off + i := c[off + j]][off + j := c[off + i]];
      }
      i := i + 1;
    }
    SwapEnd(a[..], before, off, n);
    assert a[off..off + n] == a[..][off..off + n];
  }

  lemma SwapStart(c: seq<Complex>, off: nat, n: nat)
    requires off + n <= |c| && IsPow2(n)
    ensures SwapDone(c, c, off, n, 1)
  {
    ZeroReversed(n);
    SwapPairs(n, 0);
  }

  lemma SwapEnd(c: seq<Complex>, before: seq<Complex>, off: nat, n: nat)
    requires |c| == |before| && off + n <= |c| && IsPow2(n) && SwapDone(c, before, off, n, n)
    ensures c[off..off + n] == Reversed(before[off..off + n])
    ensures c[..off] == before[..off] && c[off + n..] == before[off + n..]
  {
    hide Reversed, BitReverse, IsPow2;
    var x := before[off..off + n];
    forall p | 0 <= p < n ensures c[off + p] == Reversed(x)[p] {
      ReversedAt(x, p);
    }
    SameOutside(before, c, off, off + n);
  }

  lemma {:induction false} ZeroReversed(n: nat)
    requires IsPow2(n)
    ensures BitReverse(n, 0) == 0
    decreases n
  {
    if n <= 1 {
    } else {
      ZeroReversed(n / 2);
    }
  }

  /** i and its reversal form a pair that no other pair meets. */
  lemma SwapPairs(n: nat, i: nat)
    requires IsPow2(n) && i < n
    ensures BitReverse(n, BitReverse(n, i)) == i
    ensures forall p :: 0 <= p < n && BitReverse(n, p) == i ==> p == BitReverse(n, i)
    ensures forall p :: 0 <= p < n && BitReverse(n, p) == BitReverse(n, i) ==> p == i
  {
    Involution(n, i);
    forall p | 0 <= p < n ensures BitReverse(n, BitReverse(n, p)) == p {
      Involution(n, p);
    }
  }

  /** A block whose first k butterflies are done. */
  ghost predicate BlockDone(c: seq<Complex>, before: seq<Complex>, pos: nat, h: nat, w: Complex, k: nat)
    requires |c| == |before| && pos + 2 * h <= |c| && k <= h
  {
    var b := before[pos..pos + 2 * h];
    && (forall t :: pos <= t < pos + k ==> c[t] == Upper(b, h, w, t - pos))
    && (forall t :: pos + h <= t < pos + h + k ==> c[t] == Lower(b, h, w, t - pos - h))
    && (forall t :: pos + k <= t < pos + h || pos + h + k <= t < pos + 2 * h ==> c[t] == before[t])
    && forall t :: 0 <= t < pos || pos + 2 * h <= t < |c| ==> c[t] == before[t]
  }

  lemma BlockStart(c: seq<Complex>, pos: nat, h: nat, w: Complex)
    requires pos + 2 * h <= |c|
    ensures BlockDone(c, c, pos, h, w, 0)
  {
  }

  lemma BlockStep(c: seq<Complex>, before: seq<Complex>, pos: nat, h: nat, w: Complex, k: nat)
    requires |c| == |before| && pos + 2 * h <= |c| && k < h && BlockDone(c, before, pos, h, w, k)
    ensures var u, v := c[pos + k], Mul(c[pos + k + h], Pow(w, k));
            BlockDone(c[pos + k := Add(u, v)][pos + k + h := Sub(u, v)], before, pos, h, w, k + 1)
  {
    var b := before[pos..pos + 2 * h];
    assert c[pos + k] == b[k] && c[pos + k + h] == b[k + h];
    var u, v := c[pos + k], Mul(c[pos + k + h], Pow(w, k));
    assert Add(u, v) == Upper(b, h, w, k) && Sub(u, v) == Lower(b, h, w, k);
    hide Mul, Add, Sub, Pow, Upper, Lower;
    var d := c[pos + k := Add(u, v)][pos + k + h := Sub(u, v)];
    forall t | pos <= t < pos + k + 1 ensures d[t] == Upper(b, h, w, t - pos) {
      if t < pos + k { assert c[t] == Upper(b, h, w, t - pos); }
    }
    forall t | pos + h <= t < pos + h + k + 1 ensures d[t] == Lower(b, h, w, t - pos - h) {
      if t < pos + h + k { assert c[t] == Lower(b, h, w, t - pos - h); }
    }
  }

  lemma IsButterfly(c: seq<Complex>, b: seq<Complex>, pos: nat, h: nat, w: Complex)
    requires |b| == 2 * h && pos + 2 * h <= |c|
    requires forall t :: pos <= t < pos + h ==> c[t] == Upper(b, h, w, t - pos)
    requires forall t :: pos + h <= t < pos + 2 * h ==> c[t] == Lower(b, h, w, t - pos - h)
    ensures c[pos..pos + 2 * h] == Butterfly(b, h, w)
  {
    hide Upper, Lower;
  }

  lemma BlockEnd(c: seq<Complex>, before: seq<Complex>, pos: nat, h: nat, w: Complex)
    requires |c| == |before| && pos + 2 * h <= |c| && BlockDone(c, before, pos, h, w, h)
    ensures c[pos..pos + 2 * h] == Butterfly(before[pos..pos + 2 * h], h, w)
    ensures c[..pos] == before[..pos] && c[pos + 2 * h..] == before[pos + 2 * h..]
  {
    hide Upper, Lower;
    var b := before[pos..pos + 2 * h];
    IsButterfly(c, b, pos, h, w);
  }

  /** The butterflies of one block, with the twiddle factor built up by multiplication. */
  method ButterflyBlock(a: array<Complex>, pos: nat, h: nat, wlen: Complex)
    requires pos + 2 * h <= a.Length
    modifies a
    ensures a[pos..pos + 2 * h] == Butterfly(old(a[pos..pos + 2 * h]), h, wlen)
    ensures a[..pos] == old(a[..pos]) && a[pos + 2 * h..] == old(a[pos + 2 * h..])
  {
    hide Mul, Add, Sub, BlockDone, Butterfly;
    ghost var before := a[..];
    BlockStart(before, pos, h, wlen);
    var w := ONE;
    var k := 0;
    while k < h
      invariant 0 <= k <= h && w == Pow(wlen, k)
      invariant BlockDone(a[..], before, pos, h, wlen, k)
    {
      BlockStep(a[..], before, pos, h, wlen, k);
      ghost var c := a[..];
      var u, v := a[pos + k], Mul(a[pos + k + h], w);
      a[pos + k] := Add(u, v);
      a[pos + k + h] := Sub(u, v);
      assert a[..] == c[pos + k := Add(u, v)][pos + k + h := Sub(u, v)];
      w := Mul(w, wlen);
      k := k + 1;
    }
    BlockEnd(a[..], before, pos, h, wlen);
    assert a[pos..pos + 2 * h] == a[..][pos..pos + 2 * h];
  }

  lemma SameOutside(before: seq<Complex>, after: seq<Complex>, lo: nat, hi: nat)
    requires |before| == |after| && lo <= hi <= |before|
    requires forall t :: 0 <= t < lo || hi <= t < |before| ==> after[t] == before[t]
    ensures after[..lo] == before[..lo] && after[hi..] == before[hi..]
  {
  }

  lemma PassBlock(x: seq<Complex>, i: nat, h: nat, w: Complex)
    requires h > 0 && i < |x| && Tiles(i, 2 * h) && Tiles(|x| - i, 2 * h)
    ensures i + 2 * h <= |x| && Tiles(i + 2 * h, 2 * h) && Tiles(|x| - (i + 2 * h), 2 * h)
    ensures Pass(x, h, w)[i..i + 2 * h] == Butterfly(x[i..i + 2 * h], h, w)
  {
    hide Butterfly;
    assert x == x[..i] + x[i..];
    PassConcat(x[..i], x[i..], h, w);
    assert x[i..][..2 * h] == x[i..i + 2 * h];
  }

  /** The blocks below i are done. */
  ghost predicate PassDone(c: seq<Complex>, before: seq<Complex>, y: seq<Complex>, off: nat, n: nat, i: nat)
    requires |c| == |before| && off + n <= |c| && |y| == n && i <= n
  {
    && (forall t :: off <= t < off + i ==> c[t] == y[t - off])
    && (forall t :: off + i <= t < off + n ==> c[t] == before[t])
    && forall t :: 0 <= t < off || off + n <= t < |c| ==> c[t] == before[t]
  }

  lemma PassStart(c: seq<Complex>, y: seq<Complex>, off: nat, n: nat)
    requires off + n <= |c| && |y| == n
    ensures PassDone(c, c, y, off, n, 0)
  {
  }

  lemma PassRest(c: seq<Complex>, before: seq<Complex>, y: seq<Complex>, off: nat, n: nat, i: nat, b: nat)
    requires |c| == |before| && off + n <= |c| && |y| == n && i + b <= n && PassDone(c, before, y, off, n, i)
    ensures c[off + i..off + i + b] == before[off..off + n][i..i + b]
  {
    var x := before[off..off + n];
    var u, v := c[off + i..off + i + b], x[i..i + b];
    forall t | 0 <= t < b ensures u[t] == v[t] {
      assert v[t] == x[i + t] == before[off + (i + t)];
      assert u[t] == c[off + i + t];
    }
  }

  lemma PassStep(d: seq<Complex>, c: seq<Complex>, before: seq<Complex>, y: seq<Complex>,
                 off: nat, n: nat, i: nat, b: nat)
    requires |d| == |c| == |before| && off + n <= |c| && |y| == n && i + b <= n && PassDone(c, before, y, off, n, i)
    requires d[off + i..off + i + b] == y[i..i + b]
    requires d[..off + i] == c[..off + i] && d[off + i + b..] == c[off + i + b..]
    ensures PassDone(d, before, y, off, n, i + b)
  {
    forall t | 0 <= t < off + i ensures d[t] == c[t] {
      assert d[t] == d[..off + i][t];
    }
    forall t | off + i + b <= t < |d| ensures d[t] == c[t] {
      assert d[t] == d[off + i + b..][t - off - i - b];
    }
    forall t | off + i <= t < off + i + b ensures d[t] == y[t - off] {
      assert d[t] == d[off + i..off + i + b][t - off - i] == y[i..i + b][t - off - i];
    }
  }

  lemma PassEnd(c: seq<Complex>, before: seq<Complex>, y: seq<Complex>, off: nat, n: nat)
    requires |c| == |before| && off + n <= |c| && |y| == n && PassDone(c, before, y, off, n, n)
    ensures c[off..off + n] == y && c[..off] == before[..off] && c[off + n..] == before[off + n..]
  {
  }

  /** One pass of butterflies over all blocks of length 2 h. */
  method ButterflyPass(a: array<Complex>, off: nat, n: nat, h: nat, wlen: Complex)
    requires off + n <= a.Length && h > 0 && Tiles(n, 2 * h)
    modifies a
    ensures a[off..off + n] == Pass(old(a[off..off + n]), h, wlen)
    ensures a[..off] == old(a[..off]) && a[off + n..] == old(a[off + n..])
  {
    hide Butterfly, Pass, PassDone;
    ghost var before := a[..];
    ghost var x := before[off..off + n];
    assert x == a[off..off + n];
    ghost var y := Pass(x, h, wlen);
    PassStart(before, y, off, n);
    var i := 0;
    while i < n
      invariant 0 <= i <= n && Tiles(i, 2 * h) && Tiles(n - i, 2 * h)
      invariant PassDone(a[..], before, y, off, n, i)
      decreases n - i
    {
      PassBlock(x, i, h, wlen);
      ghost var c := a[..];
      PassRest(c, before, y, off, n, i, 2 * h);
      assert a[off + i..off + i + 2 * h] == c[off + i..off + i + 2 * h];
      ButterflyBlock(a, off + i, h, wlen);
      ghost var d := a[..];
      assert d[off + i..off + i + 2 * h] == a[off + i..off + i + 2 * h];
      assert d[..off + i] == a[..off + i];
      PassStep(d, c, before, y, off, n, i, 2 * h);
      i := i + 2 * h;
    }
    PassEnd(a[..], before, y, off, n);
    assert a[off..off + n] == a[..][off..off + n];
  }

  // ---------------------------------------------------------------- twiddle factors

  /** trig(len) stands for (cos, sin) of 2 pi / len: a point of the unit circle whose
      angle halves as len doubles. */
  ghost predicate IsUnitCircle(trig: nat -> Complex) {
    UnitRoots(trig) && forall m: nat :: m >= 1 ==> Mul(trig(m), Conj(trig(m))) == ONE
  }

  /** The forward transform turns clockwise, the inverse one counter-clockwise. */
  function Twiddle(trig: nat -> Complex, inverse: bool): nat -> Complex {
    (len: nat) => if inverse then trig(len) else Conj(trig(len))
  }

  lemma ConjSquare(a: Complex, b: Complex)
    requires Mul(a, a) == b
    ensures Mul(Conj(a), Conj(a)) == Conj(b)
  {
  }

  lemma TwiddleTwo(trig: nat -> Complex, inverse: bool)
    requires trig(2) == MINUS_ONE
    ensures Twiddle(trig, inverse)(2) == MINUS_ONE
  {
  }

  lemma TwiddleSquares(trig: nat -> Complex, inverse: bool, m: nat)
    requires SquaresTo(trig, m)
    ensures SquaresTo(Twiddle(trig, inverse), m)
  {
    hide Mul;
    ConjSquare(trig(2 * m), trig(m));
  }

  lemma TwiddleRoots(trig: nat -> Complex, inverse: bool)
    requires IsUnitCircle(trig)
    ensures UnitRoots(Twiddle(trig, inverse))
  {
    hide Mul, SquaresTo, Conj, Twiddle;
    TwiddleTwo(trig, inverse);
    forall m: nat | m >= 1 ensures SquaresTo(Twiddle(trig, inverse), m) {
      TwiddleSquares(trig, inverse, m);
    }
  }

  // ---------------------------------------------------------------- one dimension

  /** The samples x bit-reversed and merged by all passes but the last d. */
  ghost predicate PassesDone(s: seq<Complex>, x: seq<Complex>, d: nat, h: nat, root: nat -> Complex) {
    h >= 1 && IsPow2(h) && Doubled(|x|, d, h) && s == Partial(x, d, h, root)
  }

  lemma FirstPass(x: seq<Complex>, d: nat, root: nat -> Complex)
    requires IsPow2(|x|) && Doubled(|x|, d, 1)
    ensures PassesDone(Reversed(x), x, d, 1, root)
  {
    hide Partial, Reversed;
    PartialStart(x, d, root);
  }

  lemma PassLeft(n: nat, d: nat, h: nat)
    requires Doubled(n, d, h) && 1 <= h && 2 * h <= n
    ensures d > 0
  {
    if d == 0 { assert false; }
  }

  lemma Pow2Twice(h: nat)
    requires IsPow2(h)
    ensures IsPow2(2 * h)
  {
    assert 2 * h / 2 == h;
  }

  lemma NextPass(s: seq<Complex>, x: seq<Complex>, d: nat, h: nat, root: nat -> Complex)
    requires PassesDone(s, x, d, h, root) && 2 * h <= |x| && UnitRoots(root)
    ensures d > 0 && h > 0 && Tiles(|x|, 2 * h) && PassesDone(Pass(s, h, root(2 * h)), x, d - 1, 2 * h, root)
  {
    hide UnitRoots, Pass, Partial, Doubled, Tiles, IsPow2;
    PassLeft(|x|, d, h);
    Pow2Twice(h);
    PassMerges(x, d, h, root);
    DoubledTiles(|x|, d - 1, 2 * h);
  }

  lemma LastPass(s: seq<Complex>, x: seq<Complex>, d: nat, h: nat, root: nat -> Complex)
    requires PassesDone(s, x, d, h, root) && |x| < 2 * h
    ensures s == Transform(x, root(|x|))
  {
    DoubledGrows(|x|, d, h);
  }

  /** fft1d on the n values from off on: the transform of those values, nothing else changed. */
  method Fft1d(a: array<Complex>, off: nat, n: nat, inverse: bool, trig: nat -> Complex)
    requires off + n <= a.Length && IsPow2(n) && IsUnitCircle(trig)
    modifies a
    ensures a[off..off + n] == Transform(old(a[off..off + n]), Twiddle(trig, inverse)(n))
    ensures Twiddle(trig, inverse)(n) == if inverse then trig(n) else Conj(trig(n))
    ensures a[..off] == old(a[..off]) && a[off + n..] == old(a[off + n..])
  {
    hide Transform, Pass, Reversed, IsUnitCircle, UnitRoots, Doubled, Tiles, IsPow2, PassesDone;
    ghost var x := a[off..off + n];
    ghost var root := Twiddle(trig, inverse);
    TwiddleRoots(trig, inverse);
    BitReversePermute(a, off, n);
    ghost var d := Pow2Doubled(n);
    ghost var h := 1;
    FirstPass(x, d, root);
    var len := 2;
    while len <= n
      invariant len == 2 * h && PassesDone(a[off..off + n], x, d, h, root)
      invariant a[..off] == old(a[..off]) && a[off + n..] == old(a[off + n..])
      invariant h >= 1
      decreases n + 1 - len
    {
      var wlen := if inverse then trig(len) else Conj(trig(len));
      NextPass(a[off..off + n], x, d, h, root);
      ButterflyPass(a, off, n, len / 2, wlen);
      h, d := 2 * h, d - 1;
      len := 2 * len;
    }
    LastPass(a[off..off + n], x, d, h, root);
  }

  lemma TwiddlesCancel(trig: nat -> Complex, n: nat)
    requires IsUnitCircle(trig) && n >= 1
    ensures Mul(Twiddle(trig, false)(n), Twiddle(trig, true)(n)) == ONE
  {
    assert Mul(trig(n), Conj(trig(n))) == ONE;
    hide Mul, IsUnitCircle, Conj;
    MulComm(trig(n), Conj(trig(n)));
  }

  /** Transforming forward and back without scaling multiplies every sample by n. */
  lemma ForwardThenInverse(x: seq<Complex>, trig: nat -> Complex, s: nat)
    requires IsPow2(|x|) && IsUnitCircle(trig) && s < |x|
    ensures Transform(Transform(x, Twiddle(trig, false)(|x|)), Twiddle(trig, true)(|x|))[s]
         == Mul(x[s], OfNat(|x|))
  {
    hide Mul, Pow, Transform, Twiddle, IsUnitCircle, UnitRoots, OfNat;
    var n := |x|;
    var w, v := Twiddle(trig, false)(n), Twiddle(trig, true)(n);
    TwiddlesCancel(trig, n);
    TwiddleRoots(trig, false);
    if n >= 2 { HalfTurn(Twiddle(trig, false), n / 2); }
    InverseTransform(x, w, v, s);
  }
}
