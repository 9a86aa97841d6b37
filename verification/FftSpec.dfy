/** What the in-place radix-2 algorithm computes at each of its two phases, and why the
    phases together give the discrete Fourier transform. */
module FftSpec {
  import opened ComplexNumbers
  import opened Dft

  // ---------------------------------------------------------------- roots of unity

  ghost predicate SquaresTo(root: nat -> Complex, m: nat) {
    Mul(root(2 * m), root(2 * m)) == root(m)
  }

  /** root(len) is exp(2 pi i / len) or its conjugate: all that is used of sin and cos is
      that root(2) is -1 and that halving the angle takes a square root. */
  ghost predicate UnitRoots(root: nat -> Complex) {
    && root(2) == MINUS_ONE
    && forall m: nat {:trigger SquaresTo(root, m)} :: m >= 1 ==> SquaresTo(root, m)
  }

  lemma {:induction false} HalfTurn(root: nat -> Complex, h: nat)
    requires UnitRoots(root) && IsPow2(h)
    ensures Pow(root(2 * h), h) == MINUS_ONE
  {
    hide Mul;
    if h == 1 {
      PowFirst(root(2));
    } else {
      HalfTurn(root, h / 2);
      assert SquaresTo(root, h);
      PowFirst(root(2 * h));
      PowMul(root(2 * h), 2, h / 2);
    }
  }

  // ---------------------------------------------------------------- bit reversal

  /** The samples in bit-reversed order. */
  function Reversed<T>(x: seq<T>): (r: seq<T>)
    requires IsPow2(|x|)
    ensures |r| == |x|
    decreases |x|
  {
    if |x| == 1 then x else Reversed(Even(x)) + Reversed(Odd(x))
  }

  /** The number below n whose bits are those of i reversed. */
  function BitReverse(n: nat, i: nat): (r: nat)
    requires IsPow2(n) && i < n
    ensures r < n
    decreases n
  {
    if n == 1 then 0
    else if i < n / 2 then 2 * BitReverse(n / 2, i)
    else 2 * BitReverse(n / 2, i - n / 2) + 1
  }

  lemma {:induction false} ReversedAt<T>(x: seq<T>, i: nat)
    requires IsPow2(|x|) && i < |x|
    ensures Reversed(x)[i] == x[BitReverse(|x|, i)]
    decreases |x|
  {
    if |x| <= 1 {
    } else {
      if i < |x| / 2 { ReversedAt(Even(x), i); } else { ReversedAt(Odd(x), i - |x| / 2); }
    }
  }

  /** The same reversal, peeling off the lowest bit of the argument. */
  lemma {:induction false} LowBit(n: nat, i: nat)
    requires IsPow2(n) && n > 1 && i < n / 2
    ensures BitReverse(n, 2 * i) == BitReverse(n / 2, i)
    ensures BitReverse(n, 2 * i + 1) == BitReverse(n / 2, i) + n / 2
    decreases n
  {
    if n <= 2 {
    } else {
      var q := n / 4;
      assert n / 2 / 2 == q && n / 2 == 2 * q && n == 4 * q;
      if i < q { LowBit(n / 2, i); } else { LowBit(n / 2, i - q); }
    }
  }

  lemma {:induction false} Involution(n: nat, i: nat)
    requires IsPow2(n) && i < n
    ensures BitReverse(n, BitReverse(n, i)) == i
    decreases n
  {
    if n <= 1 {
    } else {
      var h := if i < n / 2 then i else i - n / 2;
      Involution(n / 2, h);
      LowBit(n, BitReverse(n / 2, h));
    }
  }

  /** Adding one to a number held with its bits reversed: carry from the top bit down. */
  function ReversedIncrement(n: nat, j: nat): (r: nat)
    requires IsPow2(n) && j + 1 < n
    ensures r < n
    decreases n
  {
    if j < n / 2 then j + n / 2 else ReversedIncrement(n / 2, j - n / 2)
  }

  lemma {:induction false} LastIsLast(n: nat, i: nat)
    requires IsPow2(n) && i + 1 < n
    ensures BitReverse(n, i) + 1 < n
    decreases n
  {
    if n <= 2 {
    } else {
      if i < n / 2 {
      } else {
        LastIsLast(n / 2, i - n / 2);
      }
    }
  }

  lemma {:induction false} IncrementReverses(n: nat, i: nat)
    requires IsPow2(n) && i + 1 < n
    ensures BitReverse(n, i) + 1 < n
    ensures ReversedIncrement(n, BitReverse(n, i)) == BitReverse(n, i + 1)
    decreases n
  {
    hide BitReverse;
    LastIsLast(n, i);
    var m, q := n / 2, i / 2;
    assert n == 2 * m;
    LowBit(n, q);
    if i % 2 == 0 {
      assert i == 2 * q;
    } else {
      assert i == 2 * q + 1 && i + 1 == 2 * (q + 1);
      LowBit(n, q + 1);
      IncrementReverses(m, q);
    }
  }

  // ---------------------------------------------------------------- butterfly passes

  /** n is len doubled d times. */
  predicate Doubled(n: nat, d: nat, len: nat) {
    if d == 0 then n == len else n % 2 == 0 && Doubled(n / 2, d - 1, len)
  }

  lemma {:induction false} DoubledStep(n: nat, d: nat, len: nat)
    requires Doubled(n, d, len) && d > 0
    ensures Doubled(n, d - 1, 2 * len)
  {
    if d <= 1 {
    } else {
      DoubledStep(n / 2, d - 1, len);
    }
  }

  lemma {:induction false} DoubledGrows(n: nat, d: nat, len: nat)
    requires Doubled(n, d, len) && len > 0
    ensures n >= len && (d > 0 ==> n >= 2 * len)
  {
    if d == 0 {
    } else {
      DoubledGrows(n / 2, d - 1, len);
    }
  }

  lemma {:induction false} Pow2Doubled(n: nat) returns (d: nat)
    requires IsPow2(n)
    ensures Doubled(n, d, 1)
  {
    if n == 1 {
      d := 0;
    } else {
      var c := Pow2Doubled(n / 2);
      d := c + 1;
    }
  }

  /** n is a sum of blocks of size b. */
  predicate Tiles(n: nat, b: nat) {
    n == 0 || (0 < b <= n && Tiles(n - b, b))
  }

  lemma {:induction false} TilesDouble(n: nat, b: nat)
    requires Tiles(n, b)
    ensures Tiles(2 * n, b)
  {
    if n == 0 {
    } else {
      TilesDouble(n - b, b);
      assert Tiles(2 * n - b - b, b);
      assert Tiles(2 * n - b, b);
    }
  }

  lemma {:induction false} DoubledTiles(n: nat, d: nat, len: nat)
    requires Doubled(n, d, len) && len > 0
    ensures Tiles(n, len)
  {
    if d == 0 {
      assert Tiles(n - len, len);
    } else {
      DoubledTiles(n / 2, d - 1, len);
      TilesDouble(n / 2, len);
    }
  }

  /** The two results of the k-th butterfly of a block of 2 h values. */
  function Upper(b: seq<Complex>, h: nat, w: Complex, k: nat): Complex
    requires |b| == 2 * h && k < h
  {
    Add(b[k], Mul(b[k + h], Pow(w, k)))
  }

  function Lower(b: seq<Complex>, h: nat, w: Complex, k: nat): Complex
    requires |b| == 2 * h && k < h
  {
    Sub(b[k], Mul(b[k + h], Pow(w, k)))
  }

  /** One block of 2 h values after its h butterflies. */
  function Butterfly(b: seq<Complex>, h: nat, w: Complex): (r: seq<Complex>)
    requires |b| == 2 * h
    ensures |r| == 2 * h
  {
    seq(h, k requires 0 <= k < h => Upper(b, h, w, k)) + seq(h, k requires 0 <= k < h => Lower(b, h, w, k))
  }

  /** Every block of 2 h values after one pass. */
  function Pass(a: seq<Complex>, h: nat, w: Complex): (r: seq<Complex>)
    ensures |r| == |a|
    decreases |a|
  {
    if h == 0 || |a| < 2 * h then a else Butterfly(a[..2 * h], h, w) + Pass(a[2 * h..], h, w)
  }

  lemma {:induction false} PassConcat(a: seq<Complex>, b: seq<Complex>, h: nat, w: Complex)
    requires h > 0 && Tiles(|a|, 2 * h)
    ensures Pass(a + b, h, w) == Pass(a, h, w) + Pass(b, h, w)
    decreases |a|
  {
    if a == [] {
      assert a + b == b;
    } else {
      assert (a + b)[..2 * h] == a[..2 * h];
      assert (a + b)[2 * h..] == a[2 * h..] + b;
      PassConcat(a[2 * h..], b, h, w);
    }
  }

  lemma PassOne(a: seq<Complex>, h: nat, w: Complex)
    requires h > 0 && |a| == 2 * h
    ensures Pass(a, h, w) == Butterfly(a, h, w)
  {
    assert a[..2 * h] == a && a[2 * h..] == [];
  }

  /** The array after bit reversal and all passes but the last d: the transforms of the
      subsequences of length len obtained by d even/odd splits. */
  function Partial(x: seq<Complex>, d: nat, len: nat, root: nat -> Complex): (r: seq<Complex>)
    requires Doubled(|x|, d, len)
    ensures |r| == |x|
    decreases d
  {
    if d == 0 then Transform(x, root(len))
    else Partial(Even(x), d - 1, len, root) + Partial(Odd(x), d - 1, len, root)
  }

  lemma SingleTransform(x: seq<Complex>, w: Complex)
    requires |x| == 1
    ensures Transform(x, w) == x
  {
    assert Coefficient(x, w, 0) == Add(Sum(Term(x, w, 0), 0), Term(x, w, 0)(0));
    hide Mul;
    MulOne(x[0]);
  }

  /** Before the first pass the array is the bit-reversed input. */
  lemma {:induction false} PartialStart(x: seq<Complex>, d: nat, root: nat -> Complex)
    requires IsPow2(|x|) && Doubled(|x|, d, 1)
    ensures Partial(x, d, 1, root) == Reversed(x)
    decreases d
  {
    hide Transform;
    if d == 0 {
      SingleTransform(x, root(1));
    } else {
      DoubledGrows(|x|, d, 1);
      PartialStart(Even(x), d - 1, root);
      PartialStart(Odd(x), d - 1, root);
    }
  }

  /** The transforms of the even and of the odd samples, one behind the other. */
  function Halves(x: seq<Complex>, w: Complex): (r: seq<Complex>)
    ensures |x| % 2 == 0 ==> |r| == |x|
  {
    Transform(Even(x), w) + Transform(Odd(x), w)
  }

  /** The k-th butterfly gives entries k and k + h of the merged transform. */
  lemma MergeEntry(x: seq<Complex>, h: nat, root: nat -> Complex, k: nat)
    requires UnitRoots(root) && IsPow2(h) && |x| == 2 * h && k < h
    ensures Transform(x, root(2 * h))[k] == Upper(Halves(x, root(h)), h, root(2 * h), k)
    ensures Transform(x, root(2 * h))[k + h] == Lower(Halves(x, root(h)), h, root(2 * h), k)
  {
    hide Mul, Pow, Transform;
    assert SquaresTo(root, h);
    HalfTurn(root, h);
    hide UnitRoots;
    Butterflies(x, root(2 * h), k);
    var e, o := Transform(Even(x), root(h)), Transform(Odd(x), root(h));
    assert (e + o)[k] == e[k] && (e + o)[k + h] == o[k];
  }

  /** One block of butterflies merges the transforms of the even and odd samples. */
  lemma MergeBlock(x: seq<Complex>, h: nat, root: nat -> Complex)
    requires UnitRoots(root) && IsPow2(h) && |x| == 2 * h
    ensures Butterfly(Halves(x, root(h)), h, root(2 * h)) == Transform(x, root(2 * h))
  {
    forall k | 0 <= k < h
      ensures Transform(x, root(2 * h))[k] == Upper(Halves(x, root(h)), h, root(2 * h), k)
      ensures Transform(x, root(2 * h))[k + h] == Lower(Halves(x, root(h)), h, root(2 * h), k)
    {
      MergeEntry(x, h, root, k);
    }
    hide Upper, Lower, UnitRoots, Transform, Halves, IsPow2;
    var t, b := Transform(x, root(2 * h)), Butterfly(Halves(x, root(h)), h, root(2 * h));
    forall i | 0 <= i < 2 * h ensures b[i] == t[i] {
      if i >= h { assert t[(i - h) + h] == Lower(Halves(x, root(h)), h, root(2 * h), i - h); }
    }
  }

  lemma PartialNone(x: seq<Complex>, len: nat, root: nat -> Complex)
    requires |x| == len
    ensures Partial(x, 0, len, root) == Transform(x, root(len))
  {
  }

  lemma PartialSplit(x: seq<Complex>, d: nat, len: nat, root: nat -> Complex)
    requires Doubled(|x|, d, len) && d > 0
    ensures Partial(x, d, len, root) == Partial(Even(x), d - 1, len, root) + Partial(Odd(x), d - 1, len, root)
    ensures d == 1 ==> Partial(x, d, len, root) == Halves(x, root(len))
  {
    hide Transform;
  }

  /** Each pass takes the array from one level of splitting to the next. */
  lemma {:induction false} PassMerges(x: seq<Complex>, d: nat, h: nat, root: nat -> Complex)
    requires UnitRoots(root) && IsPow2(h) && Doubled(|x|, d, h) && d > 0
    ensures Doubled(|x|, d - 1, 2 * h)
    ensures Pass(Partial(x, d, h, root), h, root(2 * h)) == Partial(x, d - 1, 2 * h, root)
    decreases d
  {
    hide Transform, Butterfly, UnitRoots, Halves, Pass;
    DoubledStep(|x|, d, h);
    PartialSplit(x, d, h, root);
    if d == 1 {
      hide Partial;
      PassOne(Halves(x, root(h)), h, root(2 * h));
      MergeBlock(x, h, root);
      PartialNone(x, 2 * h, root);
    } else {
      PartialSplit(x, d - 1, 2 * h, root);
      hide Partial;
      PassMerges(Even(x), d - 1, h, root);
      PassMerges(Odd(x), d - 1, h, root);
      DoubledTiles(|x| / 2, d - 2, 2 * h);
      PassConcat(Partial(Even(x), d - 1, h, root), Partial(Odd(x), d - 1, h, root), h, root(2 * h));
    }
  }
}
