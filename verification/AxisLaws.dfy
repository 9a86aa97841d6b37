/** What the box filter must do whatever its formulas are: the horizontal and the vertical coordinates
    never meet, stretching the picture one way stretches the filter that way, the correction is the one
    of least variance, and the noise has the documented size. */
module AxisLaws {
  import opened Reals
  import opened AxisFilter
  import opened KalmanBoxes

  // ---------------------------------------------------------------- two directions that never meet

  /** The two operations say the same of the coordinates d and d + 2: 0 for cx and w, 1 for cy and h. */
  predicate Agree(x: Op, y: Op, d: nat)
    requires d < 2 && OpOk(x) && OpOk(y)
  {
    match (x, y)
    case (Initiate(z), Initiate(u)) => z[d] == u[d] && z[d + 2] == u[d + 2]
    case (Predict(s), Predict(t)) => s == t
    case (Update(z), Update(u)) => z[d] == u[d] && z[d + 2] == u[d + 2]
    case (Shift(sx, sy), Shift(tx, ty)) => if d == 0 then sx == tx else sy == ty
    case _ => false
  }

  predicate SameAxes(a: Axes, b: Axes, d: nat)
    requires d < 2
  {
    a[d] == b[d] && a[d + 2] == b[d + 2]
  }

  lemma ApplyApart(a: Axes, b: Axes, x: Op, y: Op, d: nat)
    requires d < 2 && OpOk(x) && OpOk(y) && Agree(x, y, d) && SameAxes(a, b, d)
    ensures SameAxes(Apply(a, x), Apply(b, y), d)
  {
    hide StartAxis, PredictAxis, UpdateAxis;
  }

  /** Two runs that agree in the operations on cx and w agree in the axes of cx and w, whatever cy and h
      are; and the other way round. */
  lemma {:induction false} RunsApart(a: Axes, b: Axes, xs: seq<Op>, ys: seq<Op>, d: nat)
    requires d < 2 && |xs| == |ys| && SameAxes(a, b, d)
    requires forall k :: 0 <= k < |xs| ==> OpOk(xs[k]) && OpOk(ys[k]) && Agree(xs[k], ys[k], d)
    ensures SameAxes(Run(a, xs), Run(b, ys), d)
  {
    hide SameAxes, Apply, Agree;
    if xs == [] {
    } else {
      var n := |xs| - 1;
      RunsApart(a, b, xs[..n], ys[..n], d);
      ApplyApart(Run(a, xs[..n]), Run(b, ys[..n]), xs[n], ys[n], d);
    }
  }

  // ---------------------------------------------------------------- stretching

  function StretchAxis(x: Axis, c: real): Axis {
    Axis(Times(c, x.m), Times(c, x.v), Times(Square(c), x.p00), Times(Square(c), x.p01), Times(Square(c), x.p11))
  }

  /** The filter of a picture stretched by c in direction d. */
  function Stretch(a: Axes, c: real, d: nat): Axes {
    seq(4, i requires 0 <= i < 4 => if i % 2 == d then StretchAxis(a[i], c) else a[i])
  }

  function StretchBox(z: seq<real>, c: real, d: nat): (r: seq<real>)
    ensures |r| == |z| && forall i :: 0 <= i < |r| ==> r[i] == if i % 2 == d then Times(c, z[i]) else z[i]
  {
    seq(|z|, i requires 0 <= i < |z| => if i % 2 == d then Times(c, z[i]) else z[i])
  }

  function StretchOp(op: Op, c: real, d: nat): (r: Op)
    ensures OpOk(op) ==> OpOk(r)
  {
    match op
    case Initiate(z) => Initiate(StretchBox(z, c, d))
    case Predict(dt) => op
    case Update(z) => Update(StretchBox(z, c, d))
    case Shift(dx, dy) => if d == 0 then Shift(Times(c, dx), dy) else Shift(dx, Times(c, dy))
  }

  function StretchOps(ops: seq<Op>, c: real, d: nat): (r: seq<Op>)
    ensures |r| == |ops| && forall k :: 0 <= k < |r| ==> r[k] == StretchOp(ops[k], c, d)
  {
    seq(|ops|, k requires 0 <= k < |ops| => StretchOp(ops[k], c, d))
  }

  lemma SquareOfProduct(q: real, c: real, s: real)
    ensures Square(q * Times(c, s)) == Times(Square(c), Square(q * s))
  {
    assert q * (c * s) == c * (q * s);
    assert (c * (q * s)) * (c * (q * s)) == (c * c) * ((q * s) * (q * s));
  }

  lemma StretchStart(z: real, size: real, c: real)
    ensures StartAxis(Times(c, z), Times(c, size)) == StretchAxis(StartAxis(z, size), c)
  {
    SquareOfProduct(2.0 * STD_POS, c, size);
    SquareOfProduct(10.0 * STD_VEL, c, size);
    assert Times(Square(c), 0.0) == 0.0 && Times(c, 0.0) == 0.0;
    hide Times, Square;
  }

  lemma TimesAdd(k: real, a: real, b: real)
    ensures Times(k, a + b) == Times(k, a) + Times(k, b)
  {
  }

  lemma TimesSwap(k: real, t: real, a: real)
    ensures Times(t, Times(k, a)) == Times(k, Times(t, a))
  {
    assert t * (k * a) == k * (t * a);
  }

  lemma StretchPredict(a: Axis, dt: real, size: real, c: real)
    ensures PredictAxis(StretchAxis(a, c), dt, Times(c, size)) == StretchAxis(PredictAxis(a, dt, size), c)
  {
    SquareOfProduct(STD_POS, c, size);
    SquareOfProduct(STD_VEL, c, size);
    hide Times, Square;
    var k := Square(c);
    var p, q := Square(STD_POS * size), Square(STD_VEL * size);
    var l := a.p01 + Times(dt, a.p11);
    TimesAdd(c, a.m, Times(dt, a.v));
    TimesSwap(c, dt, a.v);
    TimesSwap(k, dt, a.p11);
    TimesAdd(k, a.p01, Times(dt, a.p11));
    TimesSwap(k, dt, a.p01);
    TimesSwap(k, dt, l);
    TimesAdd(k, a.p00 + Times(dt, a.p01) + Times(dt, l), p);
    TimesAdd(k, a.p00 + Times(dt, a.p01), Times(dt, l));
    TimesAdd(k, a.p00, Times(dt, a.p01));
    TimesAdd(k, a.p11, q);
  }

  /** A gain is a ratio of variances, so stretching leaves it alone. */
  lemma StretchGain(p: real, s: real, k: real)
    requires k > 0.0
    ensures Gain(Times(k, p), Times(k, s)) == Gain(p, s)
  {
    if s > 0.0 {
      ProductPositive(k, s);
      var g := p / s;
      assert g * s == p;
      assert g * (k * s) == k * p;
      QuotientIs(k * p, k * s, g);
    } else {
      assert -s >= 0.0;
      ProductNonNegative(k, -s);
      assert k * s == -(k * -s);
    }
  }

  lemma QuotientIs(a: real, b: real, g: real)
    requires b != 0.0 && g * b == a
    ensures a / b == g
  {
  }

  /** The entries of an update, with its gains named. */
  lemma UpdateEntries(a: Axis, z: real, size: real, k0: real, k1: real)
    requires k0 == Gain(a.p00, Innovation(a, size)) && k1 == Gain(a.p01, Innovation(a, size))
    ensures UpdateAxis(a, z, size)
         == Axis(a.m + Times(k0, z - a.m), a.v + Times(k1, z - a.m),
                 Times(1.0 - k0, a.p00), Times(1.0 - k0, a.p01), a.p11 - Times(k1, a.p01))
  {
    hide Gain, Innovation, Times;
  }

  lemma StretchInnovation(a: Axis, size: real, c: real)
    ensures Innovation(StretchAxis(a, c), Times(c, size)) == Times(Square(c), Innovation(a, size))
  {
    SquareOfProduct(STD_POS, c, size);
    hide Times, Square;
    TimesAdd(Square(c), a.p00, Square(STD_POS * size));
  }

  lemma StretchUpdate(a: Axis, z: real, size: real, c: real)
    requires c > 0.0
    ensures UpdateAxis(StretchAxis(a, c), Times(c, z), Times(c, size)) == StretchAxis(UpdateAxis(a, z, size), c)
  {
    var k, s := Square(c), Innovation(a, size);
    SquarePositive(c);
    StretchInnovation(a, size, c);
    hide Times, Square, Gain, Innovation, UpdateAxis;
    StretchGain(a.p00, s, k);
    StretchGain(a.p01, s, k);
    var k0, k1 := Gain(a.p00, s), Gain(a.p01, s);
    UpdateEntries(a, z, size, k0, k1);
    UpdateEntries(StretchAxis(a, c), Times(c, z), Times(c, size), k0, k1);
    TimesSub(c, z, a.m);
    TimesAdd(c, a.m, Times(k0, z - a.m));
    TimesAdd(c, a.v, Times(k1, z - a.m));
    TimesSwap(c, k0, z - a.m);
    TimesSwap(c, k1, z - a.m);
    TimesSwap(k, 1.0 - k0, a.p00);
    TimesSwap(k, 1.0 - k0, a.p01);
    TimesSwap(k, k1, a.p01);
    TimesSub(k, a.p11, Times(k1, a.p01));
  }

  lemma TimesSub(k: real, a: real, b: real)
    ensures Times(k, a - b) == Times(k, a) - Times(k, b)
  {
  }

  lemma StretchSize(a: Axes, c: real, d: nat, i: nat)
    requires d < 2 && i < 4
    ensures Size(Stretch(a, c, d), i) == if i % 2 == d then Times(c, Size(a, i)) else Size(a, i)
  {
    hide Times;
  }

  lemma ApplyAt(a: Axes, op: Op, i: nat)
    requires OpOk(op) && i < 4
    ensures Apply(a, op)[i]
            == match op
               case Initiate(z) => StartAxis(z[i], if i % 2 == 0 then z[2] else z[3])
               case Predict(dt) => PredictAxis(a[i], dt, Size(a, i))
               case Update(z) => UpdateAxis(a[i], z[i], Size(a, i))
               case Shift(dx, dy) => if i == 0 then a[0].(m := a[0].m + dx) else
                                     if i == 1 then a[1].(m := a[1].m + dy) else a[i]
  {
    hide StartAxis, PredictAxis, UpdateAxis;
  }

  lemma StretchEntry(a: Axes, op: Op, c: real, d: nat, i: nat)
    requires c > 0.0 && d < 2 && i < 4 && OpOk(op)
    ensures Apply(Stretch(a, c, d), StretchOp(op, c, d))[i]
            == if i % 2 == d then StretchAxis(Apply(a, op)[i], c) else Apply(a, op)[i]
  {
    ApplyAt(a, op, i);
    ApplyAt(Stretch(a, c, d), StretchOp(op, c, d), i);
    StretchSize(a, c, d, i);
    hide StartAxis, PredictAxis, UpdateAxis, Apply, Times, Square, Size;
    match op
    case Initiate(z) => StretchStart(z[i], if i % 2 == 0 then z[2] else z[3], c);
    case Predict(dt) => StretchPredict(a[i], dt, Size(a, i), c);
    case Update(z) => StretchUpdate(a[i], z[i], Size(a, i), c);
    case Shift(dx, dy) => TimesAdd(c, a[i].m, if i == 0 then dx else dy);
  }

  lemma ApplyStretches(a: Axes, op: Op, c: real, d: nat)
    requires c > 0.0 && d < 2 && OpOk(op)
    ensures Apply(Stretch(a, c, d), StretchOp(op, c, d)) == Stretch(Apply(a, op), c, d)
  {
    hide Apply, StretchAxis, StretchOp;
    forall i: nat | i < 4
      ensures Apply(Stretch(a, c, d), StretchOp(op, c, d))[i] == Stretch(Apply(a, op), c, d)[i]
    {
      StretchEntry(a, op, c, d, i);
    }
  }

  /** Multiplying all measurements and shifts of one direction by c multiplies that direction's means
      and velocities by c and its covariances by c c, and leaves the other direction alone. */
  lemma {:induction false} RunStretches(a: Axes, ops: seq<Op>, c: real, d: nat)
    requires c > 0.0 && d < 2 && forall k :: 0 <= k < |ops| ==> OpOk(ops[k])
    ensures Run(Stretch(a, c, d), StretchOps(ops, c, d)) == Stretch(Run(a, ops), c, d)
  {
    hide Apply, Stretch, StretchOp;
    if ops == [] {
    } else {
      var n := |ops| - 1;
      RunStretches(a, ops[..n], c, d);
      assert StretchOps(ops, c, d)[..n] == StretchOps(ops[..n], c, d);
      ApplyStretches(Run(a, ops[..n]), ops[n], c, d);
    }
  }

  // ---------------------------------------------------------------- the gating distance

  lemma StretchDistance(x: Axis, z: real, size: real, c: real)
    requires c > 0.0
    ensures AxisDistance(StretchAxis(x, c), Times(c, z), Times(c, size)) == AxisDistance(x, z, size)
  {
    var k, s := Square(c), Innovation(x, size);
    SquarePositive(c);
    StretchedOffset(c, z, x.m);
    DistanceIsGain(x, z, size);
    DistanceIsGain(StretchAxis(x, c), Times(c, z), Times(c, size));
    StretchInnovation(x, size, c);
    hide Times, Square, Gain, AxisDistance, Innovation;
    StretchGain(Square(z - x.m), s, k);
  }

  lemma StretchedOffset(c: real, z: real, m: real)
    ensures Square(Times(c, z) - Times(c, m)) == Times(Square(c), Square(z - m))
  {
    SquareOfProduct(1.0, c, z - m);
    assert Times(c, z) - Times(c, m) == 1.0 * Times(c, z - m);
    hide Square;
  }

  lemma DistanceIsGain(x: Axis, z: real, size: real)
    ensures AxisDistance(x, z, size) == Gain(Square(z - x.m), Innovation(x, size))
  {
    hide Square, Innovation;
  }

  function Distance(a: Axes, z: seq<real>): real
    requires |z| == 4
  {
    AxisDistance(a[0], z[0], Size(a, 0)) + AxisDistance(a[1], z[1], Size(a, 1))
    + AxisDistance(a[2], z[2], Size(a, 2)) + AxisDistance(a[3], z[3], Size(a, 3))
  }

  /** The gating distance has no unit: stretching filter and measurement leaves it alone. */
  lemma DistanceHasNoUnit(a: Axes, z: seq<real>, c: real, d: nat)
    requires c > 0.0 && d < 2 && |z| == 4
    ensures Distance(Stretch(a, c, d), StretchBox(z, c, d)) == Distance(a, z)
  {
    hide AxisDistance, StretchAxis, Size;
    forall i: nat | i < 4
      ensures AxisDistance(Stretch(a, c, d)[i], StretchBox(z, c, d)[i], Size(Stretch(a, c, d), i))
           == AxisDistance(a[i], z[i], Size(a, i))
    {
      StretchSize(a, c, d, i);
      if i % 2 == d { StretchDistance(a[i], z[i], Size(a, i), c); }
    }
  }

  // ---------------------------------------------------------------- the correction of least variance

  /** The variances left when the innovation is added to position and velocity with weights g and h. */
  function PositionVariance(a: Axis, r2: real, g: real): real {
    Square(1.0 - g) * a.p00 + Square(g) * r2
  }

  function VelocityVariance(a: Axis, r2: real, h: real): real {
    a.p11 - 2.0 * h * a.p01 + Square(h) * (a.p00 + r2)
  }

  lemma SquareOfSum(k: real, e: real, s: real)
    ensures Times(Square(k + e), s) == Times(Square(k), s) + 2.0 * Times(e, Times(k, s)) + Times(Square(e), s)
  {
    assert (k + e) * (k + e) == k * k + 2.0 * (e * k) + e * e;
    assert ((k + e) * (k + e)) * s == (k * k) * s + 2.0 * (e * (k * s)) + (e * e) * s;
  }

  lemma PositionForm(a: Axis, r2: real, s: real, g: real)
    requires s == a.p00 + r2
    ensures PositionVariance(a, r2, g) == a.p00 - 2.0 * Times(g, a.p00) + Times(Square(g), s)
  {
    assert ((1.0 - g) * (1.0 - g)) * a.p00 == a.p00 - 2.0 * (g * a.p00) + (g * g) * a.p00;
    assert (g * g) * s == (g * g) * a.p00 + (g * g) * r2;
  }

  lemma VelocityForm(a: Axis, r2: real, s: real, h: real)
    requires s == a.p00 + r2
    ensures VelocityVariance(a, r2, h) == a.p11 - 2.0 * Times(h, a.p01) + Times(Square(h), s)
  {
    assert 2.0 * h * a.p01 == 2.0 * (h * a.p01);
  }

  lemma SquareTimes(k: real, s: real)
    ensures Times(Square(k), s) == Times(k, Times(k, s))
  {
    assert (k * k) * s == k * (k * s);
  }

  lemma SquareTimesNatural(e: real, s: real)
    requires s > 0.0
    ensures Times(Square(e), s) >= 0.0
  {
    SquareNonNegative(e);
    ProductNonNegative(Square(e), s);
  }

  /** c - 2 g p + g g s is least where g s is p. */
  lemma LeastWeight(c: real, p: real, s: real, k: real, g: real)
    requires s > 0.0 && Times(k, s) == p
    ensures c - Times(k, p) == c - 2.0 * Times(k, p) + Times(Square(k), s)
    ensures c - Times(k, p) <= c - 2.0 * Times(g, p) + Times(Square(g), s)
  {
    var e := g - k;
    SquareTimes(k, s);
    SquareOfSum(k, e, s);
    SquareTimesNatural(e, s);
    SumTimes(k, e, p);
    assert k + e == g;
    hide Times, Square;
  }

  lemma SumTimes(k: real, e: real, p: real)
    ensures Times(k + e, p) == Times(k, p) + Times(e, p)
  {
  }

  /** No weight does better than p / s. */
  lemma LeastPosition(a: Axis, r2: real, s: real, k: real, g: real)
    requires s == a.p00 + r2 && s > 0.0 && Times(k, s) == a.p00
    ensures PositionVariance(a, r2, k) == a.p00 - Times(k, a.p00) <= PositionVariance(a, r2, g)
  {
    hide PositionVariance, Times, Square;
    PositionForm(a, r2, s, k);
    PositionForm(a, r2, s, g);
    LeastWeight(a.p00, a.p00, s, k, g);
  }

  lemma LeastVelocity(a: Axis, r2: real, s: real, k: real, h: real)
    requires s == a.p00 + r2 && s > 0.0 && Times(k, s) == a.p01
    ensures VelocityVariance(a, r2, k) == a.p11 - Times(k, a.p01) <= VelocityVariance(a, r2, h)
  {
    hide VelocityVariance, Times, Square;
    VelocityForm(a, r2, s, k);
    VelocityForm(a, r2, s, h);
    LeastWeight(a.p11, a.p01, s, k, h);
  }

  /** u corrects a by the innovation with weights g and h. */
  predicate CorrectsBy(a: Axis, u: Axis, z: real, r2: real, g: real, h: real) {
    && u.m == a.m + g * (z - a.m) && u.v == a.v + h * (z - a.m)
    && u.p00 == PositionVariance(a, r2, g) && u.p11 == VelocityVariance(a, r2, h)
  }

  ghost predicate Corrects(a: Axis, u: Axis, z: real, r2: real) {
    exists g, h :: CorrectsBy(a, u, z, r2, g, h)
  }

  /** The update is the linear correction of least variance, in position and in velocity. */
  lemma UpdateIsOptimal(a: Axis, z: real, size: real, g: real, h: real)
    requires Psd(a)
    ensures var r2, u := Square(STD_POS * size), UpdateAxis(a, z, size);
            && Corrects(a, u, z, r2)
            && u.p00 <= PositionVariance(a, r2, g) && u.p11 <= VelocityVariance(a, r2, h)
  {
    var r2, s, u := Square(STD_POS * size), Innovation(a, size), UpdateAxis(a, z, size);
    SquareNonNegative(STD_POS * size);
    var k0, k1 := Gain(a.p00, s), Gain(a.p01, s);
    UpdateEntries(a, z, size, k0, k1);
    if s > 0.0 {
      GainTimes(a.p00, s);
      GainTimes(a.p01, s);
      Complement(k0, a.p00);
      LeastPosition(a, r2, s, k0, g);
      LeastVelocity(a, r2, s, k1, h);
      hide UpdateAxis, Gain, PositionVariance, VelocityVariance, Square;
      assert CorrectsBy(a, u, z, r2, k0, k1);
    } else {
      NothingToCorrect(a, z, size, g, h);
    }
  }

  lemma Complement(k: real, p: real)
    ensures Times(1.0 - k, p) == p - Times(k, p)
  {
  }

  /** Without uncertainty no weight changes a variance. */
  lemma NothingToCorrect(a: Axis, z: real, size: real, g: real, h: real)
    requires Psd(a) && Innovation(a, size) <= 0.0
    ensures var r2, u := Square(STD_POS * size), UpdateAxis(a, z, size);
            && Corrects(a, u, z, r2)
            && u.p00 <= PositionVariance(a, r2, g) && u.p11 <= VelocityVariance(a, r2, h)
  {
    var r2 := Square(STD_POS * size);
    SquareNonNegative(STD_POS * size);
    NoUpdate(a, z, size);
    assert a.p00 == 0.0 && r2 == 0.0;
    assert Times(a.p01, a.p01) <= 0.0;
    ZeroSquare(a.p01);
    hide UpdateAxis;
    assert CorrectsBy(a, a, z, r2, 0.0, 0.0);
  }

  // ---------------------------------------------------------------- the size of the noise

  /** A box 200 wide and 50 high at (10, 20), started and predicted one frame ahead: the axes of cx and cy. */
  lemma StartAndNoise(a: Axes)
    ensures var r := Run(a, [Initiate([10.0, 20.0, 200.0, 50.0]), Predict(1.0)]);
            && r[0] == Axis(10.0, 0.0, 656.25, 156.25, 157.8125)
            && r[1] == Axis(20.0, 0.0, 41.015625, 9.765625, 9.86328125)
            && r[2].m == 200.0 && r[3].m == 50.0
  {
    var z := [10.0, 20.0, 200.0, 50.0];
    var ops := [Initiate(z), Predict(1.0)];
    assert ops[..1] == [Initiate(z)] && ops[..1][..0] == [];
    var s := Apply(a, Initiate(z));
    assert Run(a, ops[..1]) == s;
    forall i: nat | i < 4 ensures s[i] == StartAxis(z[i], if i % 2 == 0 then z[2] else z[3]) {
      ApplyAt(a, Initiate(z), i);
    }
    forall i: nat | i < 4 ensures Apply(s, Predict(1.0))[i] == PredictAxis(s[i], 1.0, Size(s, i)) {
      ApplyAt(s, Predict(1.0), i);
    }
  }
}
