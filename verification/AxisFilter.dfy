/** The textbook two-state (position, velocity) Kalman filter of one box coordinate, and
    what every run of four of them keeps. */
module AxisFilter {
  import opened Reals

  const STD_POS: real := 1.0 / 20.0
  const STD_VEL: real := 1.0 / 160.0

  /** Mean (m, v) and covariance ((p00, p01), (p01, p11)). */
  datatype Axis = Axis(m: real, v: real, p00: real, p01: real, p11: real)

  function StartAxis(z: real, size: real): Axis {
    Axis(z, 0.0, Square(2.0 * STD_POS * size), 0.0, Square(10.0 * STD_VEL * size))
  }

  function PredictAxis(a: Axis, dt: real, size: real): Axis {
    Axis(a.m + Times(dt, a.v), a.v,
         a.p00 + Times(dt, a.p01) + Times(dt, a.p01 + Times(dt, a.p11)) + Square(STD_POS * size),
         a.p01 + Times(dt, a.p11),
         a.p11 + Square(STD_VEL * size))
  }

  /** The variance of the innovation. */
  function Innovation(a: Axis, size: real): real {
    a.p00 + Square(STD_POS * size)
  }

  function Gain(p: real, s: real): real {
    if s > 0.0 then p / s else 0.0
  }

  function UpdateAxis(a: Axis, z: real, size: real): Axis {
    var s := Innovation(a, size);
    var k0, k1 := Gain(a.p00, s), Gain(a.p01, s);
    Axis(a.m + Times(k0, z - a.m), a.v + Times(k1, z - a.m),
         Times(1.0 - k0, a.p00), Times(1.0 - k0, a.p01), a.p11 - Times(k1, a.p01))
  }

  /** The covariance is positive semidefinite. */
  predicate Psd(a: Axis) {
    a.p00 >= 0.0 && a.p11 >= 0.0 && a.p01 * a.p01 <= a.p00 * a.p11
  }

  // ---------------------------------------------------------------- arithmetic

  lemma SignFromProduct(c: real, d: real)
    requires d > 0.0 && c * d >= 0.0
    ensures c >= 0.0
  {
    if c < 0.0 { NegativeProduct(c, d); }
  }

  lemma NegativeProduct(c: real, d: real)
    requires c < 0.0 && d > 0.0
    ensures c * d < 0.0
  {
  }

  lemma PositiveProduct(a: real, b: real)
    requires a > 0.0 && b > 0.0
    ensures Times(a, b) > 0.0
  {
  }

  lemma ProductOfNegations(a: real, b: real)
    ensures Times(-a, -b) == Times(a, b)
  {
  }

  lemma ZeroSquare(a: real)
    requires Times(a, a) <= 0.0
    ensures a == 0.0
  {
    hide Times;
    if a > 0.0 {
      PositiveProduct(a, a);
    } else if a < 0.0 {
      PositiveProduct(-a, -a);
      ProductOfNegations(a, a);
    }
  }

  lemma GainTimes(p: real, s: real)
    requires s > 0.0
    ensures Gain(p, s) * s == p
  {
  }

  // ---------------------------------------------------------------- positive semidefiniteness

  /** The variance of the position after dt without noise, and its covariance with the velocity. */
  function MovedVariance(a: Axis, dt: real): real {
    a.p00 + dt * a.p01 + dt * (a.p01 + dt * a.p11)
  }

  function MovedCovariance(a: Axis, dt: real): real {
    a.p01 + dt * a.p11
  }

  lemma QuadraticForm(a: Axis, dt: real)
    requires Psd(a)
    ensures MovedVariance(a, dt) >= 0.0
  {
    if a.p11 == 0.0 {
      assert Times(a.p01, a.p01) <= 0.0;
      ZeroSquare(a.p01);
    } else {
      Determinant(a, dt);
      SquareNonNegative(MovedCovariance(a, dt));
      hide MovedVariance, MovedCovariance, Square;
      SignFromProduct(MovedVariance(a, dt), a.p11);
    }
  }

  /** Moving along the velocity keeps the determinant. */
  lemma Determinant(a: Axis, dt: real)
    ensures MovedVariance(a, dt) * a.p11 - Square(MovedCovariance(a, dt)) == a.p00 * a.p11 - a.p01 * a.p01
  {
    var x := dt * a.p11;
    assert Square(a.p01 + x) == a.p01 * a.p01 + 2.0 * (a.p01 * x) + x * x;
    assert (a.p00 + dt * a.p01 + dt * (a.p01 + x)) * a.p11
        == a.p00 * a.p11 + (dt * a.p01) * a.p11 + (dt * (a.p01 + x)) * a.p11;
    assert (dt * a.p01) * a.p11 == a.p01 * x;
    assert (dt * (a.p01 + x)) * a.p11 == (a.p01 + x) * x;
  }

  /** Adding noise to the diagonal keeps semidefiniteness. */
  lemma AddNoise(f: real, c: real, p11: real, q0: real, q1: real)
    requires f >= 0.0 && p11 >= 0.0 && Times(c, c) <= Times(f, p11) && q0 >= 0.0 && q1 >= 0.0
    ensures Times(c, c) <= Times(f + q0, p11 + q1)
  {
    assert (f + q0) * (p11 + q1) == f * p11 + f * q1 + q0 * (p11 + q1);
    ProductNonNegative(f, q1);
    ProductNonNegative(q0, p11 + q1);
  }

  lemma PredictEntries(a: Axis, dt: real, size: real)
    ensures var p := PredictAxis(a, dt, size);
            && p.p00 == MovedVariance(a, dt) + Square(STD_POS * size)
            && p.p01 == MovedCovariance(a, dt)
            && p.p11 == a.p11 + Square(STD_VEL * size)
  {
  }

  lemma MovedPsd(a: Axis, dt: real)
    requires Psd(a)
    ensures MovedVariance(a, dt) >= 0.0
    ensures Times(MovedCovariance(a, dt), MovedCovariance(a, dt)) <= Times(MovedVariance(a, dt), a.p11)
  {
    var c := MovedCovariance(a, dt);
    assert Square(c) == Times(c, c);
    hide MovedVariance, MovedCovariance, Square;
    QuadraticForm(a, dt);
    Determinant(a, dt);
  }

  lemma PsdOf(a: Axis)
    requires a.p00 >= 0.0 && a.p11 >= 0.0 && Times(a.p01, a.p01) <= Times(a.p00, a.p11)
    ensures Psd(a)
  {
  }

  lemma PredictPsd(a: Axis, dt: real, size: real)
    requires Psd(a)
    ensures Psd(PredictAxis(a, dt, size))
  {
    MovedPsd(a, dt);
    SquareNonNegative(STD_POS * size);
    SquareNonNegative(STD_VEL * size);
    assert a.p11 >= 0.0;
    hide MovedVariance, MovedCovariance, Square, PredictAxis, Psd, Times;
    PredictEntries(a, dt, size);
    AddNoise(MovedVariance(a, dt), MovedCovariance(a, dt), a.p11, Square(STD_POS * size), Square(STD_VEL * size));
    PsdOf(PredictAxis(a, dt, size));
  }

  /** The gain of the position is a weight between 0 and 1. */
  lemma GainIsWeight(a: Axis, size: real)
    requires Psd(a)
    ensures 0.0 <= Gain(a.p00, Innovation(a, size)) <= 1.0
  {
    var s := Innovation(a, size);
    SquareNonNegative(STD_POS * size);
    if s > 0.0 {
      var k := Gain(a.p00, s);
      GainTimes(a.p00, s);
      SignFromProduct(k, s);
      assert (1.0 - k) * s == s - a.p00;
      SignFromProduct(1.0 - k, s);
    }
  }

  /** With a positive innovation variance, s times each new entry in closed form. */
  lemma UpdateClosedForm(a: Axis, z: real, size: real)
    requires Innovation(a, size) > 0.0
    ensures var s, r2, u := Innovation(a, size), Square(STD_POS * size), UpdateAxis(a, z, size);
            && u.p00 * s == a.p00 * r2
            && u.p01 * s == a.p01 * r2
            && u.p11 * s == a.p00 * a.p11 - a.p01 * a.p01 + a.p11 * r2
  {
    var s, r2 := Innovation(a, size), Square(STD_POS * size);
    var k0, k1 := Gain(a.p00, s), Gain(a.p01, s);
    GainTimes(a.p00, s);
    GainTimes(a.p01, s);
    hide Gain, Square;
    assert ((1.0 - k0) * a.p00) * s == a.p00 * (s - k0 * s);
    assert ((1.0 - k0) * a.p01) * s == a.p01 * (s - k0 * s);
    assert (a.p11 - k1 * a.p01) * s == a.p11 * s - (k1 * s) * a.p01;
    assert a.p11 * (a.p00 + r2) == a.p00 * a.p11 + a.p11 * r2;
  }

  lemma UpdatePsd(a: Axis, z: real, size: real)
    requires Psd(a)
    ensures Psd(UpdateAxis(a, z, size))
  {
    var s, r2, u := Innovation(a, size), Square(STD_POS * size), UpdateAxis(a, z, size);
    SquareNonNegative(STD_POS * size);
    if s <= 0.0 {
      NoUpdate(a, z, size);
    } else {
      UpdateClosedForm(a, z, size);
      hide UpdateAxis, Square, Gain;
      ClosedFormPsd(a, u, s, r2);
    }
  }

  lemma ClosedFormPsd(a: Axis, u: Axis, s: real, r2: real)
    requires Psd(a) && s > 0.0 && r2 >= 0.0 && s == a.p00 + r2
    requires u.p00 * s == a.p00 * r2 && u.p01 * s == a.p01 * r2
    requires u.p11 * s == a.p00 * a.p11 - a.p01 * a.p01 + a.p11 * r2
    ensures Psd(u)
  {
    ProductNonNegative(a.p00, r2);
    ProductNonNegative(a.p11, r2);
    SignFromProduct(u.p00, s);
    SignFromProduct(u.p11, s);
    UpdatedDeterminant(a, u, s, r2);
  }

  /** Without uncertainty the measurement is ignored. */
  lemma NoUpdate(a: Axis, z: real, size: real)
    requires Innovation(a, size) <= 0.0
    ensures UpdateAxis(a, z, size) == a
  {
  }

  lemma UpdatedDeterminant(a: Axis, u: Axis, s: real, r2: real)
    requires Psd(a) && s > 0.0 && r2 >= 0.0 && s == a.p00 + r2
    requires u.p00 * s == a.p00 * r2 && u.p01 * s == a.p01 * r2
    requires u.p11 * s == a.p00 * a.p11 - a.p01 * a.p01 + a.p11 * r2
    ensures u.p01 * u.p01 <= u.p00 * u.p11
  {
    var d := a.p00 * a.p11 - a.p01 * a.p01;
    var e := u.p00 * u.p11 - u.p01 * u.p01;
    // e s s == r2 s d
    assert (e * s) * s == (u.p00 * s) * (u.p11 * s) - (u.p01 * s) * (u.p01 * s);
    Expand(a.p00, a.p01, a.p11, r2, d);
    assert (e * s) * s == (r2 * d) * s by {
      assert (a.p00 * r2) * (d + a.p11 * r2) - (a.p01 * r2) * (a.p01 * r2) == (r2 * d) * (a.p00 + r2);
    }
    ProductNonNegative(r2, d);
    ProductNonNegative(r2 * d, s);
    SignFromProduct(e * s, s);
    SignFromProduct(e, s);
  }

  lemma Expand(p: real, c: real, q: real, r2: real, d: real)
    requires d == p * q - c * c
    ensures (p * r2) * (d + q * r2) - (c * r2) * (c * r2) == (r2 * d) * (p + r2)
  {
    assert (p * r2) * (d + q * r2) == (r2 * d) * p + (r2 * r2) * (p * q);
    assert (c * r2) * (c * r2) == (r2 * r2) * (c * c);
    assert (r2 * r2) * (p * q) - (r2 * r2) * (c * c) == (r2 * r2) * d;
    assert (r2 * d) * (p + r2) == (r2 * d) * p + (r2 * r2) * d;
  }

  // ---------------------------------------------------------------- what an update does

  /** A measurement never makes the filter less certain. */
  lemma UpdateShrinks(a: Axis, z: real, size: real)
    requires Psd(a)
    ensures UpdateAxis(a, z, size).p00 <= a.p00
    ensures UpdateAxis(a, z, size).p11 <= a.p11
  {
    var s := Innovation(a, size);
    var k0, k1 := Gain(a.p00, s), Gain(a.p01, s);
    GainIsWeight(a, size);
    ProductNonNegative(k0, a.p00);
    assert (1.0 - k0) * a.p00 == a.p00 - k0 * a.p00;
    if s > 0.0 {
      GainTimes(a.p01, s);
      assert (k1 * a.p01) * s == (k1 * s) * a.p01;
      SquareNonNegative(a.p01);
      SignFromProduct(k1 * a.p01, s);
    }
  }

  /** The new position lies between the predicted and the measured one. */
  lemma UpdateBetween(a: Axis, z: real, size: real)
    requires Psd(a)
    ensures var m := UpdateAxis(a, z, size).m; a.m <= m <= z || z <= m <= a.m
  {
    var k := Gain(a.p00, Innovation(a, size));
    GainIsWeight(a, size);
    var d := z - a.m;
    assert d - k * d == (1.0 - k) * d;
    if d >= 0.0 {
      ProductNonNegative(k, d);
      ProductNonNegative(1.0 - k, d);
    } else {
      assert k * d == -(k * (-d)) && (1.0 - k) * d == -((1.0 - k) * (-d));
      ProductNonNegative(k, -d);
      ProductNonNegative(1.0 - k, -d);
    }
  }

  // ---------------------------------------------------------------- four axes, whole runs

  /** cx, cy, w, h. */
  type Axes = a: seq<Axis> | |a| == 4 witness seq(4, i => Axis(0.0, 0.0, 0.0, 0.0, 0.0))

  /** The noise of cx and w scales with the width, that of cy and h with the height. */
  function Size(a: Axes, i: nat): real {
    if i % 2 == 0 then a[2].m else a[3].m
  }

  datatype Op =
    | Initiate(z: seq<real>)
    | Predict(dt: real)
    | Update(z: seq<real>)
    | Shift(dx: real, dy: real)

  predicate OpOk(op: Op) {
    (op.Initiate? || op.Update?) ==> |op.z| == 4
  }

  function Apply(a: Axes, op: Op): Axes
    requires OpOk(op)
  {
    match op
    case Initiate(z) => seq(4, i requires 0 <= i < 4 => StartAxis(z[i], if i % 2 == 0 then z[2] else z[3]))
    case Predict(dt) => seq(4, i requires 0 <= i < 4 => PredictAxis(a[i], dt, Size(a, i)))
    case Update(z) => seq(4, i requires 0 <= i < 4 => UpdateAxis(a[i], z[i], Size(a, i)))
    case Shift(dx, dy) => a[0 := a[0].(m := a[0].m + dx)][1 := a[1].(m := a[1].m + dy)]
  }

  function Run(a: Axes, ops: seq<Op>): Axes
    requires forall k :: 0 <= k < |ops| ==> OpOk(ops[k])
  {
    if ops == [] then a else Apply(Run(a, ops[..|ops| - 1]), ops[|ops| - 1])
  }

  predicate AllPsd(a: Axes) {
    forall i :: 0 <= i < 4 ==> Psd(a[i])
  }

  lemma ApplyPsd(a: Axes, op: Op)
    requires AllPsd(a) && OpOk(op)
    ensures AllPsd(Apply(a, op))
  {
    forall i | 0 <= i < 4 ensures Psd(Apply(a, op)[i]) {
      match op
      case Initiate(z) =>
        SquareNonNegative(2.0 * STD_POS * (if i % 2 == 0 then z[2] else z[3]));
        SquareNonNegative(10.0 * STD_VEL * (if i % 2 == 0 then z[2] else z[3]));
        ProductNonNegative(Apply(a, op)[i].p00, Apply(a, op)[i].p11);
      case Predict(dt) => PredictPsd(a[i], dt, Size(a, i));
      case Update(z) => UpdatePsd(a[i], z[i], Size(a, i));
      case Shift(_, _) =>
    }
  }

  /** In every run all four covariances stay positive semidefinite. */
  lemma {:induction false} RunPsd(a: Axes, ops: seq<Op>)
    requires AllPsd(a) && forall k :: 0 <= k < |ops| ==> OpOk(ops[k])
    ensures AllPsd(Run(a, ops))
  {
    if ops == [] {
    } else {
      RunPsd(a, ops[..|ops| - 1]);
      ApplyPsd(Run(a, ops[..|ops| - 1]), ops[|ops| - 1]);
    }
  }
}
