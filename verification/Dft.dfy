/** The discrete Fourier transform as a sum, its splitting into the transforms of the
    even and odd samples, and its inversion. */
module Dft {
  import opened ComplexNumbers

  predicate IsPow2(n: nat) {
    n == 1 || (n > 1 && n % 2 == 0 && IsPow2(n / 2))
  }

  function At(x: seq<Complex>, t: nat): Complex {
    if t < |x| then x[t] else ZERO
  }

  /** The t-th summand of output k. */
  function Term(x: seq<Complex>, w: Complex, k: nat): nat -> Complex {
    (t: nat) => Mul(At(x, t), Pow(w, k * t))
  }

  /** x[0] w^0 + x[1] w^k + x[2] w^(2k) + ... */
  function Coefficient(x: seq<Complex>, w: Complex, k: nat): Complex {
    Sum(Term(x, w, k), |x|)
  }

  function Transform(x: seq<Complex>, w: Complex): (r: seq<Complex>)
    ensures |r| == |x|
    ensures forall k :: 0 <= k < |r| ==> r[k] == Coefficient(x, w, k)
  {
    seq(|x|, k requires 0 <= k < |x| => Coefficient(x, w, k))
  }

  function Even<T>(x: seq<T>): (r: seq<T>)
    ensures |r| == |x| / 2
    ensures forall i :: 0 <= i < |r| ==> r[i] == x[2 * i]
  {
    seq(|x| / 2, i requires 0 <= i < |x| / 2 => x[2 * i])
  }

  function Odd<T>(x: seq<T>): (r: seq<T>)
    ensures |r| == |x| / 2
    ensures forall i :: 0 <= i < |r| ==> r[i] == x[2 * i + 1]
  {
    seq(|x| / 2, i requires 0 <= i < |x| / 2 => x[2 * i + 1])
  }

  // ---------------------------------------------------------------- decimation in time

  lemma Exponents(k: nat, t: nat)
    ensures 2 * (k * t) == k * (2 * t)
    ensures k + k * (2 * t) == k * (2 * t + 1)
  {
  }

  lemma ExponentSum(k: nat, n: nat, t: nat)
    ensures (k + n) * t == k * t + n * t
  {
  }

  /** p (o q) == o (p q) */
  lemma MulLeftComm(o: Complex, p: Complex, q: Complex)
    ensures Mul(o, Mul(p, q)) == Mul(p, Mul(o, q))
  {
    hide Mul;
    MulAssoc(o, p, q);
    MulComm(o, p);
    MulAssoc(p, o, q);
  }

  lemma PowSquare(w: Complex, k: nat, t: nat)
    ensures Pow(Mul(w, w), k * t) == Pow(w, k * (2 * t))
    ensures Pow(w, k * (2 * t + 1)) == Mul(Pow(w, k), Pow(w, k * (2 * t)))
  {
    hide Mul;
    PowFirst(w);
    Exponents(k, t);
    PowMul(w, 2, k * t);
    PowAdd(w, k, k * (2 * t));
  }

  lemma EvenOddTerms(x: seq<Complex>, w: Complex, k: nat, t: nat)
    requires |x| % 2 == 0 && t < |x| / 2
    ensures Term(x, w, k)(2 * t) == Term(Even(x), Mul(w, w), k)(t)
    ensures Term(x, w, k)(2 * t + 1) == Mul(Pow(w, k), Term(Odd(x), Mul(w, w), k)(t))
  {
    hide Mul, Pow;
    PowSquare(w, k, t);
    MulLeftComm(x[2 * t + 1], Pow(w, k), Pow(w, k * (2 * t)));
  }

  lemma {:induction false} SplitSum(x: seq<Complex>, w: Complex, k: nat, m: nat)
    requires |x| % 2 == 0 && m <= |x| / 2
    ensures Sum(Term(x, w, k), 2 * m)
         == Add(Sum(Term(Even(x), Mul(w, w), k), m), Mul(Pow(w, k), Sum(Term(Odd(x), Mul(w, w), k), m)))
  {
    hide Mul;
    hide Term;
    if m == 0 {
      MulOne(Pow(w, k));
    } else {
      SplitSum(x, w, k, m - 1);
      EvenOddTerms(x, w, k, m - 1);
      MulAdd(Pow(w, k), Sum(Term(Odd(x), Mul(w, w), k), m - 1), Term(Odd(x), Mul(w, w), k)(m - 1));
      var f := Term(x, w, k);
      assert Sum(f, 2 * m) == Add(Add(Sum(f, 2 * m - 2), f(2 * m - 2)), f(2 * m - 1));
    }
  }

  /** Output k of a transform from the two half-size transforms with the squared root. */
  lemma SplitCoefficient(x: seq<Complex>, w: Complex, k: nat)
    requires |x| % 2 == 0
    ensures Coefficient(x, w, k)
         == Add(Coefficient(Even(x), Mul(w, w), k), Mul(Pow(w, k), Coefficient(Odd(x), Mul(w, w), k)))
  {
    SplitSum(x, w, k, |x| / 2);
  }

  lemma PowPeriod(w: Complex, k: nat, n: nat, t: nat)
    requires Pow(w, n) == ONE
    ensures Pow(w, (k + n) * t) == Pow(w, k * t)
  {
    hide Mul;
    ExponentSum(k, n, t);
    PowAdd(w, k * t, n * t);
    PowMul(w, n, t);
    PowOne(t);
    MulOne(Pow(w, k * t));
  }

  /** Outputs repeat with the order of the root. */
  lemma Periodic(x: seq<Complex>, w: Complex, k: nat, n: nat)
    requires Pow(w, n) == ONE
    ensures Coefficient(x, w, k + n) == Coefficient(x, w, k)
  {
    hide Mul, Pow;
    forall t: nat | t < |x| ensures Term(x, w, k + n)(t) == Term(x, w, k)(t) {
      PowPeriod(w, k, n, t);
    }
    SumExt(Term(x, w, k + n), Term(x, w, k), |x|);
  }

  /** The two outputs a butterfly produces. */
  lemma Butterflies(x: seq<Complex>, w: Complex, k: nat)
    requires |x| % 2 == 0 && k < |x| / 2
    requires Pow(w, |x| / 2) == MINUS_ONE
    ensures var e, o := Transform(Even(x), Mul(w, w)), Transform(Odd(x), Mul(w, w));
            && Transform(x, w)[k] == Add(e[k], Mul(o[k], Pow(w, k)))
            && Transform(x, w)[k + |x| / 2] == Sub(e[k], Mul(o[k], Pow(w, k)))
  {
    hide Mul;
    hide Coefficient;
    var h := |x| / 2;
    var e, o := Coefficient(Even(x), Mul(w, w), k), Coefficient(Odd(x), Mul(w, w), k);
    SplitCoefficient(x, w, k);
    MulComm(Pow(w, k), o);
    SplitCoefficient(x, w, k + h);
    SquareOfHalf(w, h);
    Periodic(Even(x), Mul(w, w), k, h);
    Periodic(Odd(x), Mul(w, w), k, h);
    PowAdd(w, k, h);
    MulMinusOne(e, Pow(w, k));
    MulAssoc(MINUS_ONE, Pow(w, k), o);
    MulMinusOne(e, Mul(Pow(w, k), o));
  }

  lemma SquareOfHalf(w: Complex, h: nat)
    requires Pow(w, h) == MINUS_ONE
    ensures Pow(Mul(w, w), h) == ONE && Pow(w, 2 * h) == ONE
  {
    assert Mul(MINUS_ONE, MINUS_ONE) == ONE;
    hide Mul;
    PowOfProduct(w, w, h);
    PowAdd(w, h, h);
  }

  // ---------------------------------------------------------------- geometric sums

  function Powers(z: Complex): nat -> Complex {
    (k: nat) => Pow(z, k)
  }

  lemma {:induction false} GeometricSplit(z: Complex, m: nat)
    ensures Sum(Powers(z), 2 * m) == Mul(Add(ONE, z), Sum(Powers(Mul(z, z)), m))
  {
    hide Mul;
    var q := Mul(z, z);
    if m == 0 {
      MulOne(Add(ONE, z));
    } else {
      GeometricSplit(z, m - 1);
      var f := Powers(z);
      assert Sum(f, 2 * m) == Add(Add(Sum(f, 2 * m - 2), f(2 * m - 2)), f(2 * m - 1));
      PowFirst(z);
      PowMul(z, 2, m - 1);
      var p := Pow(q, m - 1);
      assert f(2 * m - 2) == p;
      assert f(2 * m - 1) == Mul(p, z);
      MulAdd(Add(ONE, z), Sum(Powers(q), m - 1), p);
      MulComm(Add(ONE, z), p);
      MulAdd(p, ONE, z);
      MulOne(p);
    }
  }

  lemma SquaredPower(w: Complex, d: nat)
    ensures Mul(Pow(w, d), Pow(w, d)) == Pow(Mul(w, w), d)
  {
    hide Mul, Pow;
    PowOfProduct(w, w, d);
  }

  /** The square of a root of order 2 m is a root of order m. */
  lemma SquaredRoot(w: Complex, m: nat)
    requires Pow(w, m) == MINUS_ONE
    ensures Pow(Mul(w, w), m) == ONE
    ensures m % 2 == 0 ==> Pow(Mul(w, w), m / 2) == MINUS_ONE
  {
    SquareOfHalf(w, m);
    hide Mul, Pow;
    PowFirst(w);
    PowMul(w, 2, m / 2);
  }

  lemma DropPeriod(z: Complex, m: nat, d: nat)
    requires Pow(z, m) == ONE && m <= d
    ensures Pow(z, d) == Pow(z, d - m)
  {
    hide Mul, Pow;
    PowAdd(z, m, d - m);
    MulOne(Pow(z, d - m));
  }

  /** The powers of a root other than 1 cancel. */
  lemma {:induction false} GeometricZero(w: Complex, n: nat, d: nat)
    requires IsPow2(n) && n >= 2 && 0 < d < n && Pow(w, n / 2) == MINUS_ONE
    ensures Sum(Powers(Pow(w, d)), n) == ZERO
    decreases n
  {
    hide Mul, Pow, Sum, Powers;
    var m, z := n / 2, Pow(w, d);
    GeometricSplit(z, m);
    if d == m {
      assert Add(ONE, z) == ZERO;
      MulOne(Sum(Powers(Mul(z, z)), m));
    } else {
      var w2, d2 := Mul(w, w), if d < m then d else d - m;
      SquaredPower(w, d);
      SquaredRoot(w, m);
      if d > m { DropPeriod(w2, m, d); }
      GeometricZero(w2, m, d2);
      MulOne(Add(ONE, z));
    }
  }

  lemma {:induction false} GeometricOnes(n: nat)
    ensures Sum(Powers(ONE), n) == OfNat(n)
  {
    hide Mul, Pow;
    if n == 0 {
    } else {
      GeometricOnes(n - 1);
      PowOne(n - 1);
    }
  }

  // ---------------------------------------------------------------- inversion

  /** For inverse w and v: (w^t)(v^s) is v^(s - t), or w^(t - s). */
  lemma Ratio(w: Complex, v: Complex, t: nat, s: nat)
    requires Mul(w, v) == ONE
    ensures Mul(Pow(w, t), Pow(v, s)) == if t <= s then Pow(v, s - t) else Pow(w, t - s)
  {
    hide Mul, Pow;
    if t <= s {
      PowAdd(v, t, s - t);
      MulAssoc(Pow(w, t), Pow(v, t), Pow(v, s - t));
      PowOfProduct(w, v, t);
      PowOne(t);
      MulOne(Pow(v, s - t));
    } else {
      PowAdd(w, t - s, s);
      MulAssoc(Pow(w, t - s), Pow(w, s), Pow(v, s));
      PowOfProduct(w, v, s);
      PowOne(s);
      MulOne(Pow(w, t - s));
    }
  }

  /** (w^t)(v^s) is 1 when t == s, and otherwise a root whose powers cancel. */
  lemma RatioSums(w: Complex, v: Complex, n: nat, t: nat, s: nat)
    requires IsPow2(n) && t < n && s < n && Mul(w, v) == ONE
    requires n >= 2 ==> Pow(w, n / 2) == MINUS_ONE
    ensures Sum(Powers(Mul(Pow(w, t), Pow(v, s))), n) == if t == s then OfNat(n) else ZERO
  {
    Ratio(w, v, t, s);
    assert Pow(v, 0) == ONE;
    hide Mul, Pow, Sum, Powers, OfNat;
    if t == s {
      GeometricOnes(n);
    } else if t < s {
      InverseHalf(w, v, n / 2);
      GeometricZero(v, n, s - t);
    } else {
      GeometricZero(w, n, t - s);
    }
  }

  lemma InverseHalf(w: Complex, v: Complex, h: nat)
    requires Mul(w, v) == ONE && Pow(w, h) == MINUS_ONE
    ensures Pow(v, h) == MINUS_ONE
  {
    hide Mul, Pow;
    PowOfProduct(w, v, h);
    PowOne(h);
    NegationOfOne(Pow(v, h));
  }

  lemma NegationOfOne(p: Complex)
    requires Mul(MINUS_ONE, p) == ONE
    ensures p == MINUS_ONE
  {
  }

  /** The summand x[t] w^(kt) v^(sk) of the transform of a transform. */
  function Both(x: seq<Complex>, w: Complex, v: Complex, s: nat): (nat, nat) -> Complex {
    (k: nat, t: nat) => Mul(Mul(At(x, t), Pow(w, k * t)), Pow(v, s * k))
  }

  lemma BothFactors(x: seq<Complex>, w: Complex, v: Complex, s: nat, k: nat, t: nat)
    ensures Both(x, w, v, s)(k, t) == Mul(At(x, t), Pow(Mul(Pow(w, t), Pow(v, s)), k))
  {
    hide Mul, Pow, At;
    PowOfProduct(Pow(w, t), Pow(v, s), k);
    PowMul(w, t, k);
    PowMul(v, s, k);
    assert t * k == k * t;
    MulAssoc(At(x, t), Pow(w, k * t), Pow(v, s * k));
  }

  lemma InnerSum(x: seq<Complex>, w: Complex, v: Complex, s: nat, t: nat)
    ensures ColumnSums(Both(x, w, v, s), |x|)(t)
         == Mul(At(x, t), Sum(Powers(Mul(Pow(w, t), Pow(v, s))), |x|))
  {
    hide Mul, Pow, At, Both;
    var z, c := Mul(Pow(w, t), Pow(v, s)), At(x, t);
    SumScale(c, Powers(z), |x|);
    forall k: nat ensures Both(x, w, v, s)(k, t) == Mul(c, Powers(z)(k)) {
      BothFactors(x, w, v, s, k, t);
    }
    SumExt((k: nat) => Both(x, w, v, s)(k, t), (k: nat) => Mul(c, Powers(z)(k)), |x|);
  }

  lemma OuterTerm(x: seq<Complex>, w: Complex, v: Complex, s: nat, k: nat)
    requires k < |x|
    ensures Term(Transform(x, w), v, s)(k) == RowSums(Both(x, w, v, s), |x|)(k)
  {
    hide Mul, Pow;
    var c := Pow(v, s * k);
    MulComm(Coefficient(x, w, k), c);
    SumScale(c, Term(x, w, k), |x|);
    forall t: nat ensures Mul(c, Term(x, w, k)(t)) == Both(x, w, v, s)(k, t) {
      MulComm(c, Term(x, w, k)(t));
    }
    SumExt((t: nat) => Mul(c, Term(x, w, k)(t)), (t: nat) => Both(x, w, v, s)(k, t), |x|);
  }

  lemma OuterSum(x: seq<Complex>, w: Complex, v: Complex, s: nat)
    ensures Coefficient(Transform(x, w), v, s) == Sum(RowSums(Both(x, w, v, s), |x|), |x|)
  {
    hide Term, RowSums;
    forall k: nat | k < |x| ensures Term(Transform(x, w), v, s)(k) == RowSums(Both(x, w, v, s), |x|)(k) {
      OuterTerm(x, w, v, s, k);
    }
    SumExt(Term(Transform(x, w), v, s), RowSums(Both(x, w, v, s), |x|), |x|);
  }

  /** Transforming with the inverse root and no scaling gives n times the input. */
  lemma InverseTransform(x: seq<Complex>, w: Complex, v: Complex, s: nat)
    requires IsPow2(|x|) && s < |x| && Mul(w, v) == ONE
    requires |x| >= 2 ==> Pow(w, |x| / 2) == MINUS_ONE
    ensures Transform(Transform(x, w), v)[s] == Mul(x[s], OfNat(|x|))
  {
    hide Mul, Pow, ColumnSums, RowSums, Both, OfNat, IsPow2;
    var n := |x|;
    var f := Both(x, w, v, s);
    OuterSum(x, w, v, s);
    SumSwap(f, n, n);
    forall t: nat | t < n
      ensures ColumnSums(f, n)(t) == if t == s then Mul(x[s], OfNat(n)) else ZERO
    {
      InnerSum(x, w, v, s, t);
      RatioSums(w, v, n, t, s);
      MulOne(At(x, t));
    }
    SumSingle(ColumnSums(f, n), n, s);
  }
}
