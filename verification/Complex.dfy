/** Complex numbers over exact reals, powers and finite sums: the arithmetic of
    std::complex<double> without its rounding. */
module ComplexNumbers {
  datatype Complex = Complex(re: real, im: real)

  const ZERO := Complex(0.0, 0.0)
  const ONE := Complex(1.0, 0.0)
  const MINUS_ONE := Complex(-1.0, 0.0)

  function Add(a: Complex, b: Complex): Complex {
    Complex(a.re + b.re, a.im + b.im)
  }

  function Sub(a: Complex, b: Complex): Complex {
    Complex(a.re - b.re, a.im - b.im)
  }

  function Mul(a: Complex, b: Complex): Complex {
    Complex(a.re * b.re - a.im * b.im, a.re * b.im + a.im * b.re)
  }

  function Conj(a: Complex): Complex {
    Complex(a.re, -a.im)
  }

  function OfNat(n: nat): Complex {
    Complex(n as real, 0.0)
  }

  function Pow(w: Complex, k: nat): Complex {
    if k == 0 then ONE else Mul(Pow(w, k - 1), w)
  }

  /** f(0) + ... + f(n - 1). */
  function Sum(f: nat -> Complex, n: nat): Complex {
    if n == 0 then ZERO else Add(Sum(f, n - 1), f(n - 1))
  }

  // ---------------------------------------------------------------- products

  lemma MulComm(a: Complex, b: Complex)
    ensures Mul(a, b) == Mul(b, a)
  {
  }

  lemma MulAssoc(a: Complex, b: Complex, c: Complex)
    ensures Mul(Mul(a, b), c) == Mul(a, Mul(b, c))
  {
    assert Mul(Mul(a, b), c).re == Mul(a, Mul(b, c)).re;
    assert Mul(Mul(a, b), c).im == Mul(a, Mul(b, c)).im;
  }

  lemma MulAdd(a: Complex, b: Complex, c: Complex)
    ensures Mul(a, Add(b, c)) == Add(Mul(a, b), Mul(a, c))
  {
  }

  lemma MulMinusOne(a: Complex, b: Complex)
    ensures Add(a, Mul(MINUS_ONE, b)) == Sub(a, b)
    ensures Mul(b, MINUS_ONE) == Mul(MINUS_ONE, b)
    ensures Add(a, Mul(b, MINUS_ONE)) == Sub(a, b)
  {
  }

  /** (a b)(c d) == (a c)(b d) */
  lemma MulShuffle(a: Complex, b: Complex, c: Complex, d: Complex)
    ensures Mul(Mul(a, b), Mul(c, d)) == Mul(Mul(a, c), Mul(b, d))
  {
    hide Mul;
    MulAssoc(a, b, Mul(c, d));
    MulAssoc(b, c, d);
    MulComm(b, c);
    MulAssoc(c, b, d);
    MulAssoc(a, c, Mul(b, d));
  }

  lemma MulOne(a: Complex)
    ensures Mul(a, ONE) == a && Mul(ONE, a) == a
    ensures Mul(a, ZERO) == ZERO && Mul(ZERO, a) == ZERO
    ensures Add(a, ZERO) == a && Add(ZERO, a) == a
  {
  }

  // ---------------------------------------------------------------- powers

  lemma {:induction false} PowAdd(w: Complex, a: nat, b: nat)
    ensures Pow(w, a + b) == Mul(Pow(w, a), Pow(w, b))
  {
    hide Mul;
    if b == 0 {
      MulOne(Pow(w, a));
    } else {
      PowAdd(w, a, b - 1);
      MulAssoc(Pow(w, a), Pow(w, b - 1), w);
    }
  }

  lemma {:induction false} PowMul(w: Complex, a: nat, b: nat)
    ensures Pow(Pow(w, a), b) == Pow(w, a * b)
  {
    hide Mul;
    if b == 0 {
    } else {
      PowMul(w, a, b - 1);
      PowAdd(w, a * (b - 1), a);
      assert a * (b - 1) + a == a * b;
    }
  }

  lemma {:induction false} PowOne(k: nat)
    ensures Pow(ONE, k) == ONE
  {
    hide Mul;
    if k == 0 {
    } else {
      PowOne(k - 1);
      MulOne(ONE);
    }
  }

  /** (a b)^k == a^k b^k */
  lemma {:induction false} PowOfProduct(a: Complex, b: Complex, k: nat)
    ensures Pow(Mul(a, b), k) == Mul(Pow(a, k), Pow(b, k))
  {
    hide Mul;
    if k == 0 {
      MulOne(ONE);
    } else {
      PowOfProduct(a, b, k - 1);
      MulShuffle(Pow(a, k - 1), Pow(b, k - 1), a, b);
    }
  }

  lemma PowFirst(w: Complex)
    ensures Pow(w, 1) == w && Pow(w, 2) == Mul(w, w)
  {
    hide Mul;
    MulOne(w);
    assert Pow(w, 1) == Mul(Pow(w, 0), w);
  }

  // ---------------------------------------------------------------- sums

  lemma {:induction false} SumExt(f: nat -> Complex, g: nat -> Complex, n: nat)
    requires forall i: nat :: i < n ==> f(i) == g(i)
    ensures Sum(f, n) == Sum(g, n)
  {
    if n == 0 {
    } else {
      SumExt(f, g, n - 1);
    }
  }

  lemma {:induction false} SumZero(f: nat -> Complex, n: nat)
    requires forall i: nat :: i < n ==> f(i) == ZERO
    ensures Sum(f, n) == ZERO
  {
    if n == 0 {
    } else {
      SumZero(f, n - 1);
    }
  }

  /** A sum with a single term that is not zero. */
  lemma {:induction false} SumSingle(f: nat -> Complex, n: nat, s: nat)
    requires s < n && forall i: nat :: i < n && i != s ==> f(i) == ZERO
    ensures Sum(f, n) == f(s)
  {
    if s == n - 1 { SumZero(f, n - 1); } else { SumSingle(f, n - 1, s); }
  }

  lemma {:induction false} SumScale(c: Complex, f: nat -> Complex, n: nat)
    ensures Mul(c, Sum(f, n)) == Sum((i: nat) => Mul(c, f(i)), n)
  {
    var g := (i: nat) => Mul(c, f(i));
    hide Mul;
    if n == 0 {
      MulOne(c);
    } else {
      SumScale(c, f, n - 1);
      MulAdd(c, Sum(f, n - 1), f(n - 1));
      SumExt(g, (i: nat) => Mul(c, f(i)), n - 1);
    }
  }

  lemma {:induction false} SumAdd(f: nat -> Complex, g: nat -> Complex, n: nat)
    ensures Sum((i: nat) => Add(f(i), g(i)), n) == Add(Sum(f, n), Sum(g, n))
  {
    if n == 0 {
    } else {
      SumAdd(f, g, n - 1);
    }
  }

  /** k |-> f(k, 0) + ... + f(k, n - 1) */
  function RowSums(f: (nat, nat) -> Complex, n: nat): nat -> Complex {
    (k: nat) => Sum((t: nat) => f(k, t), n)
  }

  /** t |-> f(0, t) + ... + f(m - 1, t) */
  function ColumnSums(f: (nat, nat) -> Complex, m: nat): nat -> Complex {
    (t: nat) => Sum((k: nat) => f(k, t), m)
  }

  /** The order of a double sum does not matter. */
  lemma {:induction false} SumSwap(f: (nat, nat) -> Complex, m: nat, n: nat)
    ensures Sum(RowSums(f, n), m) == Sum(ColumnSums(f, m), n)
  {
    if m == 0 {
      SumZero(ColumnSums(f, 0), n);
    } else {
      SumSwap(f, m - 1, n);
      var row := (t: nat) => f(m - 1, t);
      var next := (t: nat) => Add(ColumnSums(f, m - 1)(t), row(t));
      SumAdd(ColumnSums(f, m - 1), row, n);
      SumExt((t: nat) => Add(ColumnSums(f, m - 1)(t), row(t)), next, n);
      forall t: nat | t < n ensures next(t) == ColumnSums(f, m)(t) {
        SumExt((k: nat) => f(k, t), (k: nat) => f(k, t), m - 1);
      }
      SumExt(next, ColumnSums(f, m), n);
    }
  }
}
