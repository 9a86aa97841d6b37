/** Why the correlator looks at phases: moving the samples round by s multiplies output k of the transform by
    the s k-th power of the root, and leaves its magnitude alone. */
module FftShift {
  import opened ComplexNumbers
  import opened Dft
  import opened Fft
  import opened FftSpec

  /** The samples moved one place up, the last one round to the front. */
  function Rotated<T>(x: seq<T>): (r: seq<T>)
    ensures |r| == |x|
    ensures forall t :: 0 <= t < |x| ==> r[t] == x[if t == 0 then |x| - 1 else t - 1]
  {
    if x == [] then [] else [x[|x| - 1]] + x[..|x| - 1]
  }

  function RotatedBy<T>(x: seq<T>, s: nat): (r: seq<T>)
    ensures |r| == |x|
  {
    if s == 0 then x else Rotated(RotatedBy(x, s - 1))
  }

  /** Where the sample at t ends up. */
  function Place(t: nat, s: nat, n: nat): (p: nat)
    requires t < n && s <= n
    ensures p < n
  {
    if t + s < n then t + s else t + s - n
  }

  /** Every sample is found s places further on, round the end. */
  lemma {:induction false} RotatedByMoves<T>(x: seq<T>, s: nat, t: nat)
    requires t < |x| && s <= |x|
    ensures RotatedBy(x, s)[Place(t, s, |x|)] == x[t]
  {
    if s == 0 {
    } else {
      RotatedByMoves(x, s - 1, t);
      assert Place(t, s, |x|) == if Place(t, s - 1, |x|) == |x| - 1 then 0 else Place(t, s - 1, |x|) + 1;
    }
  }

  // ---------------------------------------------------------------- one place

  lemma FirstTerm(x: seq<Complex>, w: Complex, k: nat)
    requires x != []
    ensures Term(Rotated(x), w, k)(0) == x[|x| - 1]
  {
    assert k * 0 == 0;
    hide Mul;
    MulOne(x[|x| - 1]);
  }

  lemma LaterTerm(x: seq<Complex>, w: Complex, k: nat, t: nat)
    requires t + 1 < |x|
    ensures Term(Rotated(x), w, k)(t + 1) == Mul(Pow(w, k), Term(x, w, k)(t))
  {
    hide Mul, Pow;
    assert k * (t + 1) == k + k * t;
    PowAdd(w, k, k * t);
    MulLeftComm(x[t], Pow(w, k), Pow(w, k * t));
  }

  lemma LastTerm(x: seq<Complex>, w: Complex, k: nat)
    requires x != [] && Pow(w, |x|) == ONE
    ensures Mul(Pow(w, k), Term(x, w, k)(|x| - 1)) == x[|x| - 1]
  {
    hide Mul, Pow;
    var n, v := |x|, x[|x| - 1];
    MulLeftComm(Pow(w, k), v, Pow(w, k * (n - 1)));
    PowAdd(w, k, k * (n - 1));
    assert k + k * (n - 1) == n * k;
    PowMul(w, n, k);
    PowOne(k);
    MulOne(v);
  }

  lemma {:induction false} PartialSum(x: seq<Complex>, w: Complex, k: nat, m: nat)
    requires m < |x|
    ensures Sum(Term(Rotated(x), w, k), m + 1) == Add(x[|x| - 1], Mul(Pow(w, k), Sum(Term(x, w, k), m)))
  {
    var g, f, p := Term(Rotated(x), w, k), Term(x, w, k), Pow(w, k);
    hide Mul, Pow, Term, Rotated;
    if m == 0 {
      FirstTerm(x, w, k);
      assert Sum(g, 1) == Add(ZERO, g(0));
      MulZero(p);
    } else {
      PartialSum(x, w, k, m - 1);
      LaterTerm(x, w, k, m - 1);
      MulAdd(p, Sum(f, m - 1), f(m - 1));
    }
  }

  lemma MulZero(p: Complex)
    ensures Mul(p, ZERO) == ZERO
  {
  }

  lemma RotatedCoefficient(x: seq<Complex>, w: Complex, k: nat)
    requires x != [] && Pow(w, |x|) == ONE
    ensures Coefficient(Rotated(x), w, k) == Mul(Pow(w, k), Coefficient(x, w, k))
  {
    var f, p, n := Term(x, w, k), Pow(w, k), |x|;
    hide Mul, Pow, Term, Rotated;
    PartialSum(x, w, k, n - 1);
    LastTerm(x, w, k);
    MulAdd(p, Sum(f, n - 1), f(n - 1));
  }

  // ---------------------------------------------------------------- any number of places

  /** The s-th power of the k-th power of the root. */
  function Phase(w: Complex, k: nat, s: nat): Complex {
    Pow(Pow(w, k), s)
  }

  lemma NextPhase(w: Complex, k: nat, s: nat)
    requires s > 0
    ensures Phase(w, k, s) == Mul(Pow(w, k), Phase(w, k, s - 1))
  {
    hide Mul;
    MulComm(Pow(w, k), Phase(w, k, s - 1));
  }

  lemma NoPhase(w: Complex, k: nat)
    ensures Phase(w, k, 0) == ONE
  {
  }

  lemma {:induction false} ShiftedCoefficient(x: seq<Complex>, w: Complex, k: nat, s: nat)
    requires x != [] && Pow(w, |x|) == ONE
    ensures Coefficient(RotatedBy(x, s), w, k) == Mul(Phase(w, k, s), Coefficient(x, w, k))
  {
    hide Mul, Pow, Phase, Coefficient, Rotated;
    var c := Coefficient(x, w, k);
    if s == 0 {
      NoPhase(w, k);
      MulOne(c);
    } else {
      ShiftedCoefficient(x, w, k, s - 1);
      RotatedCoefficient(RotatedBy(x, s - 1), w, k);
      NextPhase(w, k, s);
      MulAssoc(Pow(w, k), Phase(w, k, s - 1), c);
    }
  }

  lemma FirstRootIsOne(root: nat -> Complex)
    requires UnitRoots(root)
    ensures root(1) == ONE
  {
    assert SquaresTo(root, 1);
    MinusOneSquared();
    hide Mul;
  }

  lemma RootTurns(root: nat -> Complex, n: nat)
    requires UnitRoots(root) && IsPow2(n)
    ensures Pow(root(n), n) == ONE
  {
    hide UnitRoots, Mul, Pow;
    if n == 1 {
      FirstRootIsOne(root);
      PowOne(1);
    } else {
      var h := n / 2;
      assert n == h + h && n == 2 * h;
      hide IsPow2;
      HalfTurn(root, h);
      PowAdd(root(n), h, h);
      MinusOneSquared();
    }
  }

  lemma MinusOneSquared()
    ensures Mul(MINUS_ONE, MINUS_ONE) == ONE
  {
  }

  /** The root that the code turns by: clockwise forward, counter-clockwise for the inverse. */
  function Root(trig: nat -> Complex, inverse: bool, n: nat): Complex {
    if inverse then trig(n) else Conj(trig(n))
  }

  lemma TwiddleIsRoot(trig: nat -> Complex, inverse: bool, n: nat)
    ensures Twiddle(trig, inverse)(n) == Root(trig, inverse, n)
  {
  }

  /** The shift theorem for the transform the code computes, in either direction. */
  lemma ShiftTheorem(x: seq<Complex>, trig: nat -> Complex, inverse: bool, s: nat, k: nat)
    requires IsPow2(|x|) && IsUnitCircle(trig) && k < |x|
    ensures var w := Root(trig, inverse, |x|);
            Transform(RotatedBy(x, s), w)[k] == Mul(Phase(w, k, s), Transform(x, w)[k])
  {
    hide IsUnitCircle, UnitRoots, Mul, Pow, Phase, Coefficient, Root, Twiddle;
    TwiddleRoots(trig, inverse);
    TwiddleIsRoot(trig, inverse, |x|);
    RootTurns(Twiddle(trig, inverse), |x|);
    ShiftedCoefficient(x, Root(trig, inverse, |x|), k, s);
  }

  // ---------------------------------------------------------------- magnitudes

  /** The squared magnitude. */
  function Norm(a: Complex): real {
    a.re * a.re + a.im * a.im
  }

  lemma NormOfProduct(a: Complex, b: Complex)
    ensures Norm(Mul(a, b)) == Norm(a) * Norm(b)
  {
    var p, q := a.re * b.re - a.im * b.im, a.re * b.im + a.im * b.re;
    assert p * p + q * q == (a.re * a.re + a.im * a.im) * (b.re * b.re + b.im * b.im);
  }

  lemma {:induction false} NormOfPow(w: Complex, k: nat)
    requires Norm(w) == 1.0
    ensures Norm(Pow(w, k)) == 1.0
  {
    hide Mul, Norm;
    if k == 0 {
      NormOfOne();
    } else {
      NormOfPow(w, k - 1);
      NormOfProduct(Pow(w, k - 1), w);
    }
  }

  lemma NormOfOne()
    ensures Norm(ONE) == 1.0
  {
  }

  lemma OnUnitCircle(trig: nat -> Complex, inverse: bool, n: nat)
    requires Mul(trig(n), Conj(trig(n))) == ONE
    ensures Norm(Root(trig, inverse, n)) == 1.0
  {
  }

  lemma NormOfPhase(w: Complex, k: nat, s: nat)
    requires Norm(w) == 1.0
    ensures Norm(Phase(w, k, s)) == 1.0
  {
    hide Mul, Norm;
    NormOfPow(w, k);
    NormOfPow(Pow(w, k), s);
  }

  lemma CircleAt(trig: nat -> Complex, n: nat)
    requires IsUnitCircle(trig) && n >= 1
    ensures Mul(trig(n), Conj(trig(n))) == ONE
  {
    hide Mul, UnitRoots;
  }

  /** So only the phase tells how far the samples moved. */
  lemma ShiftKeepsMagnitude(x: seq<Complex>, trig: nat -> Complex, inverse: bool, s: nat, k: nat)
    requires IsPow2(|x|) && IsUnitCircle(trig) && k < |x|
    ensures var w := Root(trig, inverse, |x|);
            Norm(Transform(RotatedBy(x, s), w)[k]) == Norm(Transform(x, w)[k])
  {
    hide Mul, Phase, Pow, Coefficient, Norm, IsUnitCircle, Conj, Root, RotatedBy;
    var w := Root(trig, inverse, |x|);
    ShiftTheorem(x, trig, inverse, s, k);
    CircleAt(trig, |x|);
    OnUnitCircle(trig, inverse, |x|);
    NormOfPhase(w, k, s);
    NormOfProduct(Phase(w, k, s), Transform(x, w)[k]);
  }
}
