/** KalmanBox: the 8x8 filter with its Cholesky solves is, in every run, four independent
    two-state filters. */
module KalmanBoxes {
  import opened Reals
  import opened Cholesky
  import opened AxisFilter

  // ---------------------------------------------------------------- the matrices of four axes

  function MeanEntry(a: Axes, i: nat): real
    requires i < 8
  {
    if i < 4 then a[i].m else a[i - 4].v
  }

  /** Zero between different coordinates. */
  function CovEntry(a: Axes, i: nat, j: nat): real
    requires i < 8 && j < 8
  {
    if i == j then (if i < 4 then a[i].p00 else a[i - 4].p11)
    else if j == i + 4 then a[i].p01
    else if i == j + 4 then a[j].p01
    else 0.0
  }

  ghost predicate Represents(mean: seq<real>, cov: Mat, a: Axes) {
    && |mean| == 8 && IsMat(cov, 8, 8)
    && (forall i :: 0 <= i < 8 ==> mean[i] == MeanEntry(a, i))
    && (forall i, j :: 0 <= i < 8 && 0 <= j < 8 ==> cov[i][j] == CovEntry(a, i, j))
  }

  // ---------------------------------------------------------------- predict

  /** The process noise. */
  function Noise(mean: seq<real>, i: nat): real
    requires |mean| == 8 && i < 8
  {
    (if i < 4 then STD_POS else STD_VEL) * (if i % 2 == 0 then mean[2] else mean[3])
  }

  function HalfMoved(cov: Mat, dt: real, i: nat, j: nat): real
    requires IsMat(cov, 8, 8) && i < 8 && j < 8
  {
    cov[i][j] + (if i < 4 then Times(dt, cov[4 + i][j]) else 0.0)
  }

  function Moved(cov: Mat, dt: real, i: nat, j: nat): real
    requires IsMat(cov, 8, 8) && i < 8 && j < 8
  {
    HalfMoved(cov, dt, i, j) + (if j < 4 then Times(dt, HalfMoved(cov, dt, i, 4 + j)) else 0.0)
  }

  method HalfMove(cov: Mat, dt: real) returns (fc: Mat)
    requires IsMat(cov, 8, 8)
    ensures IsMat(fc, 8, 8)
    ensures forall i, j :: 0 <= i < 8 && 0 <= j < 8 ==> fc[i][j] == HalfMoved(cov, dt, i, j)
  {
    hide HalfMoved, Put;
    fc := Zeros(8, 8);
    for i := 0 to 8
      invariant IsMat(fc, 8, 8)
      invariant forall r, c :: 0 <= r < i && 0 <= c < 8 ==> fc[r][c] == HalfMoved(cov, dt, r, c)
    {
      for j := 0 to 8
        invariant IsMat(fc, 8, 8)
        invariant forall r, c :: 0 <= r < i && 0 <= c < 8 ==> fc[r][c] == HalfMoved(cov, dt, r, c)
        invariant forall c :: 0 <= c < j ==> fc[i][c] == HalfMoved(cov, dt, i, c)
      {
        HalfMovedAt(cov, dt, i, j);
        fc := Put(fc, i, j, cov[i][j] + (if i < 4 then Times(dt, cov[4 + i][j]) else 0.0));
      }
    }
  }

  lemma HalfMovedAt(cov: Mat, dt: real, i: nat, j: nat)
    requires IsMat(cov, 8, 8) && i < 8 && j < 8
    ensures HalfMoved(cov, dt, i, j) == cov[i][j] + (if i < 4 then Times(dt, cov[4 + i][j]) else 0.0)
  {
  }

  lemma MovedAt(cov: Mat, dt: real, i: nat, j: nat)
    requires IsMat(cov, 8, 8) && i < 8 && j < 8
    ensures Moved(cov, dt, i, j)
         == HalfMoved(cov, dt, i, j) + (if j < 4 then Times(dt, HalfMoved(cov, dt, i, 4 + j)) else 0.0)
  {
  }

  /** The two matrix loops: the transition matrix on both sides. */
  method Move(cov: Mat, dt: real) returns (nc: Mat)
    requires IsMat(cov, 8, 8)
    ensures IsMat(nc, 8, 8)
    ensures forall i, j :: 0 <= i < 8 && 0 <= j < 8 ==> nc[i][j] == Moved(cov, dt, i, j)
  {
    hide Moved, HalfMoved, Put;
    var fc := HalfMove(cov, dt);
    nc := Zeros(8, 8);
    for i := 0 to 8
      invariant IsMat(nc, 8, 8)
      invariant forall r, c :: 0 <= r < i && 0 <= c < 8 ==> nc[r][c] == Moved(cov, dt, r, c)
    {
      for j := 0 to 8
        invariant IsMat(nc, 8, 8)
        invariant forall r, c :: 0 <= r < i && 0 <= c < 8 ==> nc[r][c] == Moved(cov, dt, r, c)
        invariant forall c :: 0 <= c < j ==> nc[i][c] == Moved(cov, dt, i, c)
      {
        MovedAt(cov, dt, i, j);
        nc := Put(nc, i, j, fc[i][j] + (if j < 4 then Times(dt, fc[i][4 + j]) else 0.0));
      }
    }
  }

  method AddProcessNoise(m: Mat, mean: seq<real>) returns (nc: Mat)
    requires IsMat(m, 8, 8) && |mean| == 8
    ensures IsMat(nc, 8, 8)
    ensures forall i, j :: 0 <= i < 8 && 0 <= j < 8 ==>
              nc[i][j] == if i == j then m[i][i] + Square(Noise(mean, i)) else m[i][j]
  {
    hide Put, Noise, Square;
    nc := m;
    for k := 0 to 8
      invariant IsMat(nc, 8, 8)
      invariant forall i, j :: 0 <= i < 8 && 0 <= j < 8 ==>
                  nc[i][j] == if i == j && i < k then m[i][i] + Square(Noise(mean, i)) else m[i][j]
    {
      nc := Put(nc, k, k, nc[k][k] + Square(Noise(mean, k)));
    }
  }

  lemma NoiseIs(mean: seq<real>, cov: Mat, a: Axes, i: nat)
    requires Represents(mean, cov, a) && i < 8
    ensures Noise(mean, i) == (if i < 4 then STD_POS else STD_VEL) * Size(a, i)
  {
    assert mean[2] == MeanEntry(a, 2) && mean[3] == MeanEntry(a, 3);
  }

  lemma HalfMovedEntry(mean: seq<real>, cov: Mat, a: Axes, dt: real, i: nat, j: nat)
    requires Represents(mean, cov, a) && i < 8 && j < 8
    ensures HalfMoved(cov, dt, i, j) == CovEntry(a, i, j) + (if i < 4 then Times(dt, CovEntry(a, 4 + i, j)) else 0.0)
  {
    hide Times, CovEntry;
    assert cov[i][j] == CovEntry(a, i, j);
    if i < 4 { assert cov[4 + i][j] == CovEntry(a, 4 + i, j); }
  }

  lemma PredictAt(a: Axes, dt: real, r: nat)
    requires r < 4
    ensures Apply(a, Predict(dt))[r] == PredictAxis(a[r], dt, Size(a, r))
  {
  }

  /** One entry of the moved covariance is the entry of the moved axes. */
  lemma MovedEntry(mean: seq<real>, cov: Mat, a: Axes, dt: real, i: nat, j: nat)
    requires Represents(mean, cov, a) && i < 8 && j < 8
    ensures Moved(cov, dt, i, j) + (if i == j then Square(Noise(mean, i)) else 0.0)
         == CovEntry(Apply(a, Predict(dt)), i, j)
  {
    assert Times(dt, 0.0) == 0.0;
    NoiseIs(mean, cov, a, i);
    HalfMovedEntry(mean, cov, a, dt, i, j);
    if j < 4 { HalfMovedEntry(mean, cov, a, dt, i, 4 + j); }
    hide Square, Times, Noise, HalfMoved, Represents, Apply, Size;
    PredictAt(a, dt, i % 4);
    PredictAt(a, dt, j % 4);
    SizeOfAxis(a, i);
  }

  lemma SizeOfAxis(a: Axes, i: nat)
    ensures Size(a, i) == Size(a, i % 4)
  {
  }

  lemma PredictRepresents(mean: seq<real>, cov: Mat, a: Axes, dt: real, mean': seq<real>, cov': Mat)
    requires Represents(mean, cov, a)
    requires |mean'| == 8
    requires forall i :: 0 <= i < 4 ==> mean'[i] == mean[i] + Times(dt, mean[4 + i])
    requires forall i :: 4 <= i < 8 ==> mean'[i] == mean[i]
    requires IsMat(cov', 8, 8)
    requires forall i, j :: 0 <= i < 8 && 0 <= j < 8 ==>
               cov'[i][j] == Moved(cov, dt, i, j) + (if i == j then Square(Noise(mean, i)) else 0.0)
    ensures Represents(mean', cov', Apply(a, Predict(dt)))
  {
    hide Moved, Square, Noise, Times;
    forall i: nat, j: nat | i < 8 && j < 8 ensures cov'[i][j] == CovEntry(Apply(a, Predict(dt)), i, j) {
      MovedEntry(mean, cov, a, dt, i, j);
    }
    forall i: nat | i < 8 ensures mean'[i] == MeanEntry(Apply(a, Predict(dt)), i) {
      var q := if i < 4 then i else i - 4;
      assert Apply(a, Predict(dt))[q] == PredictAxis(a[q], dt, Size(a, q));
      assert mean[4 + q] == MeanEntry(a, 4 + q);
    }
  }

  // ---------------------------------------------------------------- update

  function DotTerms(x: seq<real>, y: seq<real>): nat -> real
    requires |x| == |y| == N
  {
    (k: nat) => if k < N then Times(x[k], y[k]) else 0.0
  }

  /** The inner loops of update: a sum of four products. */
  method Dot(x: seq<real>, y: seq<real>) returns (s: real)
    requires |x| == |y| == N
    ensures s == Sum(DotTerms(x, y), N)
  {
    s := 0.0;
    for k := 0 to N
      invariant s == Sum(DotTerms(x, y), k)
    {
      s := s + x[k] * y[k];
    }
  }

  lemma {:induction false} SparseSum(f: nat -> real, n: nat, q: nat)
    requires forall k: nat :: k < n && k != q ==> f(k) == 0.0
    ensures Sum(f, n) == if q < n then f(q) else 0.0
  {
    if n == 0 {
    } else {
      SparseSum(f, n - 1, q);
    }
  }

  lemma SparseDot(x: seq<real>, y: seq<real>, q: nat)
    requires |x| == |y| == N && q < N
    requires forall k :: 0 <= k < N && k != q ==> x[k] == 0.0 || y[k] == 0.0
    ensures Sum(DotTerms(x, y), N) == Times(x[q], y[q])
  {
    forall k: nat | k < N && k != q ensures DotTerms(x, y)(k) == 0.0 {
      TimesAdd(x[k], 0.0, 0.0);
      TimesAdd(y[k], 0.0, 0.0);
    }
    SparseSum(DotTerms(x, y), N, q);
  }

  /** The innovation covariance of four axes. */
  ghost predicate IsInnovation(pcov: Mat, a: Axes) {
    && IsMat(pcov, N, N)
    && forall i, j :: 0 <= i < N && 0 <= j < N ==>
         pcov[i][j] == if i == j then Innovation(a[i], Size(a, i)) else 0.0
  }

  /** Row r of the gain: only the entry of r's own coordinate can differ from zero. */
  function GainEntry(a: Axes, r: nat, c: nat): real
    requires r < 8 && c < 4
  {
    if r == c then Gain(a[c].p00, Innovation(a[c], Size(a, c)))
    else if r == c + 4 then Gain(a[c].p01, Innovation(a[c], Size(a, c)))
    else 0.0
  }

  ghost predicate IsGain(k: Mat, a: Axes) {
    && IsMat(k, 8, 4)
    && forall r, c :: 0 <= r < 8 && 0 <= c < 4 ==> k[r][c] == GainEntry(a, r, c)
  }

  lemma SolveIsGain(mean: seq<real>, cov: Mat, a: Axes, pcov: Mat, l: Mat, sqrt: real -> real, r: nat, c: nat)
    requires IsSqrt(sqrt) && Represents(mean, cov, a) && IsInnovation(pcov, a) && IsFactor(sqrt, pcov, l)
    requires r < 8 && c < 4
    ensures Solution(l, cov[r][..4])[c] == GainEntry(a, r, c)
  {
    hide IsSqrt, IsFactor, Solution, Forward, Innovation;
    DiagonalSolution(sqrt, pcov, l, cov[r][..4], c);
    assert cov[r][..4][c] == cov[r][c] == CovEntry(a, r, c);
    ZeroGain(Innovation(a[c], Size(a, c)));
  }

  lemma ZeroGain(s: real)
    ensures Gain(0.0, s) == 0.0
  {
  }

  method GainMatrix(cov: Mat, l: Mat, ghost mean: seq<real>, ghost pcov: Mat, ghost a: Axes, ghost sqrt: real -> real)
    returns (k: Mat)
    requires IsSqrt(sqrt) && Represents(mean, cov, a) && IsInnovation(pcov, a) && IsFactor(sqrt, pcov, l)
    ensures IsGain(k, a)
  {
    hide GainEntry, Solution, IsSqrt;
    k := Zeros(8, 4);
    for r := 0 to 8
      invariant IsMat(k, 8, 4)
      invariant forall i, c :: 0 <= i < r && 0 <= c < 4 ==> k[i][c] == GainEntry(a, i, c)
    {
      var row := CholSolveVec(l, cov[r][..4]);
      forall c: nat | c < 4 ensures row[c] == GainEntry(a, r, c) {
        SolveIsGain(mean, cov, a, pcov, l, sqrt, r, c);
      }
      k := k[r := row];
    }
  }

  /** pcov times the transposed gain. */
  method Weighted(pcov: Mat, k: Mat, ghost a: Axes) returns (m: Mat)
    requires IsInnovation(pcov, a) && IsGain(k, a)
    ensures IsMat(m, 4, 8)
    ensures forall i, c :: 0 <= i < 4 && 0 <= c < 8 ==>
              m[i][c] == Times(Innovation(a[i], Size(a, i)), GainEntry(a, c, i))
  {
    hide GainEntry, Put, Times, Innovation;
    m := Zeros(4, 8);
    for i := 0 to 4
      invariant IsMat(m, 4, 8)
      invariant forall r, c :: 0 <= r < i && 0 <= c < 8 ==>
                  m[r][c] == Times(Innovation(a[r], Size(a, r)), GainEntry(a, c, r))
    {
      for c := 0 to 8
        invariant IsMat(m, 4, 8)
        invariant forall r, d :: 0 <= r < i && 0 <= d < 8 ==>
                    m[r][d] == Times(Innovation(a[r], Size(a, r)), GainEntry(a, d, r))
        invariant forall d :: 0 <= d < c ==> m[i][d] == Times(Innovation(a[i], Size(a, i)), GainEntry(a, d, i))
      {
        var s := Dot(pcov[i], k[c]);
        SparseDot(pcov[i], k[c], i);
        m := Put(m, i, c, s);
      }
    }
  }

  /** What update subtracts from covariance entry (i, j). */
  function Reduction(a: Axes, i: nat, j: nat): real
    requires i < 8 && j < 8
  {
    var q := i % 4;
    if j % 4 == q then Times(GainEntry(a, i, q), Times(Innovation(a[q], Size(a, q)), GainEntry(a, j, q))) else 0.0
  }

  function Column(m: Mat, j: nat): (c: seq<real>)
    requires IsMat(m, 4, 8) && j < 8
    ensures |c| == 4 && forall i :: 0 <= i < 4 ==> c[i] == m[i][j]
  {
    seq(4, i requires 0 <= i < 4 => m[i][j])
  }

  lemma ReductionIsDot(a: Axes, k: Mat, m: Mat, i: nat, j: nat)
    requires IsGain(k, a) && IsMat(m, 4, 8) && i < 8 && j < 8
    requires forall r, c :: 0 <= r < 4 && 0 <= c < 8 ==>
               m[r][c] == Times(Innovation(a[r], Size(a, r)), GainEntry(a, c, r))
    ensures Sum(DotTerms(k[i], Column(m, j)), N) == Reduction(a, i, j)
  {
    var q := i % 4;
    assert forall c :: 0 <= c < 4 && c != q ==> GainEntry(a, i, c) == 0.0;
    SparseDot(k[i], Column(m, j), q);
    if j % 4 != q {
      assert GainEntry(a, j, q) == 0.0;
      TimesAdd(Innovation(a[q], Size(a, q)), 0.0, 0.0);
      TimesAdd(GainEntry(a, i, q), 0.0, 0.0);
    }
  }

  method Reduce(cov: Mat, k: Mat, m: Mat, ghost a: Axes) returns (c: Mat)
    requires IsMat(cov, 8, 8) && IsGain(k, a) && IsMat(m, 4, 8)
    requires forall r, c :: 0 <= r < 4 && 0 <= c < 8 ==>
               m[r][c] == Times(Innovation(a[r], Size(a, r)), GainEntry(a, c, r))
    ensures IsMat(c, 8, 8)
    ensures forall i, j :: 0 <= i < 8 && 0 <= j < 8 ==> c[i][j] == cov[i][j] - Reduction(a, i, j)
  {
    hide Reduction, Put, Times, Innovation, GainEntry;
    c := cov;
    for i := 0 to 8
      invariant IsMat(c, 8, 8)
      invariant forall r, d :: 0 <= r < 8 && 0 <= d < 8 ==>
                  c[r][d] == if r < i then cov[r][d] - Reduction(a, r, d) else cov[r][d]
    {
      for j := 0 to 8
        invariant IsMat(c, 8, 8)
        invariant forall r, d :: 0 <= r < 8 && 0 <= d < 8 ==>
                    c[r][d] == if r < i || (r == i && d < j) then cov[r][d] - Reduction(a, r, d) else cov[r][d]
      {
        var s := Dot(k[i], Column(m, j));
        ReductionIsDot(a, k, m, i, j);
        c := Put(c, i, j, c[i][j] - s);
      }
    }
  }

  /** Subtracting the reductions is the closed-form update of every axis. */
  lemma UpdatedEntry(a: Axes, z: seq<real>, i: nat, j: nat)
    requires |z| == 4 && i < 8 && j < 8
    ensures CovEntry(a, i, j) - Reduction(a, i, j) == CovEntry(Apply(a, Update(z)), i, j)
  {
    hide Times, Gain, Innovation, UpdateAxis, Apply, Size;
    var q := i % 4;
    if j % 4 == q {
      AxisReduction(a[q], Innovation(a[q], Size(a, q)));
      UpdateAt(a, z, q);
      AxisEntries(a[q], z[q], Size(a, q));
    }
  }

  lemma UpdateAt(a: Axes, z: seq<real>, q: nat)
    requires |z| == 4 && q < 4
    ensures Apply(a, Update(z))[q] == UpdateAxis(a[q], z[q], Size(a, q))
  {
  }

  lemma AxisEntries(x: Axis, z: real, size: real)
    ensures var k0, k1, u := Gain(x.p00, Innovation(x, size)), Gain(x.p01, Innovation(x, size)), UpdateAxis(x, z, size);
            && u.p00 == Times(1.0 - k0, x.p00)
            && u.p01 == Times(1.0 - k0, x.p01)
            && u.p11 == x.p11 - Times(k1, x.p01)
  {
  }

  lemma AxisReduction(x: Axis, s: real)
    ensures var k0, k1 := Gain(x.p00, s), Gain(x.p01, s);
            && x.p00 - Times(k0, Times(s, k0)) == Times(1.0 - k0, x.p00)
            && x.p01 - Times(k0, Times(s, k1)) == Times(1.0 - k0, x.p01)
            && x.p01 - Times(k1, Times(s, k0)) == Times(1.0 - k0, x.p01)
            && x.p11 - Times(k1, Times(s, k1)) == x.p11 - Times(k1, x.p01)
  {
    if s > 0.0 {
      var k0, k1 := Gain(x.p00, s), Gain(x.p01, s);
      GainTimes(x.p00, s);
      GainTimes(x.p01, s);
      assert s * k0 == x.p00 && s * k1 == x.p01;
      assert k1 * x.p00 == k1 * (s * k0) == k0 * (s * k1) == k0 * x.p01;
    }
  }

  /** The loop that adds gain times innovation to the mean. */
  method MoveMean(mean: seq<real>, k: Mat, innov: seq<real>, ghost a: Axes) returns (r: seq<real>)
    requires |mean| == 8 && IsGain(k, a) && |innov| == 4
    ensures |r| == 8
    ensures forall i :: 0 <= i < 8 ==> r[i] == mean[i] + Times(GainEntry(a, i, i % 4), innov[i % 4])
  {
    hide Times;
    r := mean;
    for i := 0 to 8
      invariant |r| == 8
      invariant forall j :: 0 <= j < 8 ==>
                  r[j] == if j < i then mean[j] + Times(GainEntry(a, j, j % 4), innov[j % 4]) else mean[j]
    {
      var s := Dot(k[i], innov);
      SparseDot(k[i], innov, i % 4);
      r := r[i := r[i] + s];
    }
  }

  lemma UpdateRepresents(mean: seq<real>, cov: Mat, a: Axes, z: seq<real>, mean': seq<real>, cov': Mat)
    requires Represents(mean, cov, a) && |z| == 4
    requires |mean'| == 8 && IsMat(cov', 8, 8)
    requires forall i :: 0 <= i < 8 ==> mean'[i] == mean[i] + Times(GainEntry(a, i, i % 4), z[i % 4] - a[i % 4].m)
    requires forall i, j :: 0 <= i < 8 && 0 <= j < 8 ==> cov'[i][j] == cov[i][j] - Reduction(a, i, j)
    ensures Represents(mean', cov', Apply(a, Update(z)))
  {
    hide Reduction, Gain, Innovation, Times;
    forall i: nat, j: nat | i < 8 && j < 8 ensures cov'[i][j] == CovEntry(Apply(a, Update(z)), i, j) {
      UpdatedEntry(a, z, i, j);
    }
    forall i: nat | i < 8 ensures mean'[i] == MeanEntry(Apply(a, Update(z)), i) {
      var q := i % 4;
      assert Apply(a, Update(z))[q] == UpdateAxis(a[q], z[q], Size(a, q));
      assert mean[i] == MeanEntry(a, i);
      assert i == q || i == q + 4;
    }
  }

  lemma InitiateRepresents(z: seq<real>, std: seq<real>, mean: seq<real>, cov: Mat, a: Axes)
    requires |z| == 4 && |std| == 8 && mean == z + [0.0, 0.0, 0.0, 0.0]
    requires forall i :: 0 <= i < 4 ==> std[i] == 2.0 * STD_POS * (if i % 2 == 0 then z[2] else z[3])
    requires forall i :: 0 <= i < 4 ==> std[4 + i] == 10.0 * STD_VEL * (if i % 2 == 0 then z[2] else z[3])
    requires IsMat(cov, 8, 8)
    requires forall r, c :: 0 <= r < 8 && 0 <= c < 8 ==> cov[r][c] == if r == c then Square(std[r]) else 0.0
    ensures Represents(mean, cov, Apply(a, Initiate(z)))
  {
    hide Square, Apply, Represents;
    forall i: nat | i < 4
      ensures Apply(a, Initiate(z))[i] == Axis(z[i], 0.0, Square(std[i]), 0.0, Square(std[4 + i]))
    {
      InitiatedAxis(a, z, std, i);
    }
    DiagonalRepresents(z, std, mean, cov, Apply(a, Initiate(z)));
  }

  lemma InitiatedAxis(a: Axes, z: seq<real>, std: seq<real>, i: nat)
    requires |z| == 4 && |std| == 8 && i < 4
    requires std[i] == 2.0 * STD_POS * (if i % 2 == 0 then z[2] else z[3])
    requires std[4 + i] == 10.0 * STD_VEL * (if i % 2 == 0 then z[2] else z[3])
    ensures Apply(a, Initiate(z))[i] == Axis(z[i], 0.0, Square(std[i]), 0.0, Square(std[4 + i]))
  {
    hide Square;
  }

  lemma DiagonalRepresents(z: seq<real>, std: seq<real>, mean: seq<real>, cov: Mat, b: Axes)
    requires |z| == 4 && |std| == 8 && mean == z + [0.0, 0.0, 0.0, 0.0] && IsMat(cov, 8, 8)
    requires forall r, c :: 0 <= r < 8 && 0 <= c < 8 ==> cov[r][c] == if r == c then Square(std[r]) else 0.0
    requires forall i :: 0 <= i < 4 ==> b[i] == Axis(z[i], 0.0, Square(std[i]), 0.0, Square(std[4 + i]))
    ensures Represents(mean, cov, b)
  {
    hide Square;
    forall i: nat, j: nat | i < 8 && j < 8 ensures cov[i][j] == CovEntry(b, i, j) {
      var q := i % 4;
      assert b[q] == Axis(z[q], 0.0, Square(std[q]), 0.0, Square(std[4 + q]));
      assert b[j % 4] == Axis(z[j % 4], 0.0, Square(std[j % 4]), 0.0, Square(std[4 + j % 4]));
      assert i == q || i == 4 + q;
    }
    forall i: nat | i < 8 ensures mean[i] == MeanEntry(b, i) {
      var q := i % 4;
      assert b[q] == Axis(z[q], 0.0, Square(std[q]), 0.0, Square(std[4 + q]));
      assert i == q || i == 4 + q;
    }
  }

  lemma ForwardSquare(sqrt: real -> real, pcov: Mat, l: Mat, d: seq<real>, i: nat)
    requires IsSqrt(sqrt) && IsDiagonal(pcov) && IsFactor(sqrt, pcov, l) && |d| == N && i < N
    ensures Times(Forward(l, d, i), Forward(l, d, i)) == if pcov[i][i] > 0.0 then Square(d[i]) / pcov[i][i] else 0.0
  {
    DiagonalSolution(sqrt, pcov, l, d, i);
    GuardedSquare(sqrt, pcov[i][i], d[i]);
    hide Times, Square, IsSqrt, IsFactor, Forward;
  }

  /** The square of a guarded quotient by the root of s. */
  lemma GuardedSquare(sqrt: real -> real, s: real, d: real)
    requires IsSqrt(sqrt)
    ensures var r := sqrt(if s > 0.0 then s else 0.0);
            var f := if r != 0.0 then d / r else 0.0;
            Times(f, f) == if s > 0.0 then Square(d) / s else 0.0
  {
    if s > 0.0 {
      PivotSquared(sqrt, s);
      QuotientSquared(d, sqrt(s), s);
    } else {
      assert sqrt(0.0) * sqrt(0.0) == 0.0;
      ZeroSquare(sqrt(0.0));
    }
  }

  lemma FourTerms(e: nat -> real)
    ensures Sum(e, 4) == e(0) + e(1) + e(2) + e(3)
  {
    assert Sum(e, 1) == e(0);
    assert Sum(e, 2) == e(0) + e(1);
    assert Sum(e, 3) == e(0) + e(1) + e(2);
  }

  lemma QuotientSquared(d: real, r: real, s: real)
    requires r > 0.0 && Times(r, r) == s && s > 0.0
    ensures Times(d / r, d / r) == Square(d) / s
  {
    var q := d / r;
    assert (q * q) * (r * r) == (q * r) * (q * r) == d * d;
  }

  lemma DistanceAt(x: Axis, z: real, size: real)
    ensures AxisDistance(x, z, size)
         == if Innovation(x, size) > 0.0 then Square(z - x.m) / Innovation(x, size) else 0.0
    ensures AxisDistance(x, z, size) >= 0.0
  {
    var s := Innovation(x, size);
    if s > 0.0 {
      SquareNonNegative(z - x.m);
      QuotientNonNegative(Square(z - x.m), s);
    }
  }

  lemma QuotientNonNegative(a: real, s: real)
    requires a >= 0.0 && s > 0.0
    ensures a / s >= 0.0
  {
  }

  // ---------------------------------------------------------------- the filter

  /** The guarded Mahalanobis distance of one coordinate. */
  function AxisDistance(x: Axis, z: real, size: real): real {
    var s := Innovation(x, size);
    if s > 0.0 then Square(z - x.m) / s else 0.0
  }

  class KalmanBox {
    var mean: seq<real>
    var cov: Mat
    var initiated: bool
    const sqrt: real -> real
    ghost var axes: Axes

    /** The matrix state is that of four independent filters, each with a positive
        semidefinite covariance. */
    ghost predicate Valid()
      reads this
    {
      IsSqrt(sqrt) && Represents(mean, cov, axes) && AllPsd(axes)
    }

    constructor (sqrt: real -> real)
      requires IsSqrt(sqrt)
      ensures Valid() && !initiated
    {
      this.sqrt := sqrt;
      mean := seq(8, i => 0.0);
      cov := Zeros(8, 8);
      initiated := false;
      axes := seq(4, i => Axis(0.0, 0.0, 0.0, 0.0, 0.0));
    }

    method Initiate(z: seq<real>)
      requires Valid() && |z| == 4
      modifies this
      ensures Valid() && initiated && axes == Apply(old(axes), AxisFilter.Initiate(z))
    {
      ghost var before := axes;
      var w, h := z[2], z[3];
      mean := z + [0.0, 0.0, 0.0, 0.0];
      var p, v := 2.0 * STD_POS, 10.0 * STD_VEL;
      var std := [p * w, p * h, p * w, p * h, v * w, v * h, v * w, v * h];
      hide Square, Put;
      var c := Zeros(8, 8);
      for i := 0 to 8
        invariant IsMat(c, 8, 8)
        invariant forall r, d :: 0 <= r < 8 && 0 <= d < 8 ==> c[r][d] == if r == d && r < i then Square(std[r]) else 0.0
      {
        c := Put(c, i, i, Square(std[i]));
      }
      InitiateRepresents(z, std, mean, c, before);
      cov := c;
      initiated := true;
      axes := Apply(axes, AxisFilter.Initiate(z));
      ApplyPsd(before, AxisFilter.Initiate(z));
    }

    method Predict(dt: real)
      requires Valid()
      modifies this
      ensures Valid() && initiated == old(initiated) && axes == Apply(old(axes), AxisFilter.Predict(dt))
    {
      hide Moved, Noise, Square, Psd, PredictAxis;
      ghost var before := axes;
      var oldMean := mean;
      for i := 0 to 4
        invariant |mean| == 8 && cov == old(cov) && axes == before && initiated == old(initiated)
        invariant forall k :: 0 <= k < 4 ==>
                    mean[k] == if k < i then oldMean[k] + Times(dt, oldMean[4 + k]) else oldMean[k]
        invariant forall k :: 4 <= k < 8 ==> mean[k] == oldMean[k]
      {
        mean := mean[i := mean[i] + dt * mean[4 + i]];
      }
      var nc := Move(cov, dt);
      var c := AddProcessNoise(nc, oldMean);
      axes := Apply(axes, AxisFilter.Predict(dt));
      PredictRepresents(oldMean, cov, before, dt, mean, c);
      ApplyPsd(before, AxisFilter.Predict(dt));
      cov := c;
    }

    method Project() returns (pmean: seq<real>, pcov: Mat)
      requires Valid()
      ensures |pmean| == 4 && forall i :: 0 <= i < 4 ==> pmean[i] == axes[i].m
      ensures IsInnovation(pcov, axes)
    {
      hide Square;
      pmean := mean[..4];
      pcov := Zeros(N, N);
      for i := 0 to N
        invariant IsMat(pcov, N, N)
        invariant forall r, c :: 0 <= r < N && 0 <= c < N ==> pcov[r][c] == if r < i then cov[r][c] else 0.0
      {
        pcov := pcov[i := cov[i][..4]];
      }
      for i := 0 to N
        invariant IsMat(pcov, N, N)
        invariant forall r, c :: 0 <= r < N && 0 <= c < N ==>
                    pcov[r][c] == cov[r][c] + (if r == c && r < i then Square(STD_POS * Size(axes, r)) else 0.0)
      {
        assert Size(axes, i) == if i % 2 == 0 then mean[2] else mean[3];
        pcov := Put(pcov, i, i, pcov[i][i] + Square(STD_POS * (if i % 2 == 0 then mean[2] else mean[3])));
      }
    }

    method Update(z: seq<real>)
      requires Valid() && |z| == 4
      modifies this
      ensures Valid() && initiated == old(initiated) && axes == Apply(old(axes), AxisFilter.Update(z))
    {
      hide GainEntry, Reduction, Innovation, Times, Psd, UpdateAxis, IsSqrt;
      ghost var before := axes;
      var pmean, pcov := Project();
      var l := Chol4(pcov, sqrt);
      var k := GainMatrix(cov, l, mean, pcov, axes, sqrt);
      var innov := [z[0] - pmean[0], z[1] - pmean[1], z[2] - pmean[2], z[3] - pmean[3]];
      var newMean := MoveMean(mean, k, innov, axes);
      var m := Weighted(pcov, k, axes);
      var c := Reduce(cov, k, m, axes);
      axes := Apply(axes, AxisFilter.Update(z));
      UpdateRepresents(mean, cov, before, z, newMean, c);
      ApplyPsd(before, AxisFilter.Update(z));
      mean := newMean;
      cov := c;
    }

    /** The box the filter stands for. */
    method Box() returns (cx: real, cy: real, w: real, h: real)
      requires Valid()
      ensures cx == axes[0].m && cy == axes[1].m && w == axes[2].m && h == axes[3].m
    {
      cx, cy, w, h := mean[0], mean[1], mean[2], mean[3];
      assert forall i: nat :: i < 4 ==> mean[i] == MeanEntry(axes, i);
    }

    method Shift(dx: real, dy: real)
      requires Valid()
      modifies this
      ensures Valid() && initiated == old(initiated) && axes == Apply(old(axes), AxisFilter.Shift(dx, dy))
    {
      ghost var before := axes;
      mean := mean[0 := mean[0] + dx][1 := mean[1] + dy];
      axes := Apply(axes, AxisFilter.Shift(dx, dy));
      ApplyPsd(before, AxisFilter.Shift(dx, dy));
    }

    /** The sum over the coordinates of d d / S; a coordinate without uncertainty counts 0. */
    method GatingDistance(z: seq<real>) returns (m: real)
      requires Valid() && |z| == 4
      ensures m == AxisDistance(axes[0], z[0], Size(axes, 0)) + AxisDistance(axes[1], z[1], Size(axes, 1))
                 + AxisDistance(axes[2], z[2], Size(axes, 2)) + AxisDistance(axes[3], z[3], Size(axes, 3))
      ensures m >= 0.0
    {
      hide Innovation, Psd, AxisDistance, Forward, Square;
      var pmean, pcov := Project();
      var l := Chol4(pcov, sqrt);
      var d := [z[0] - pmean[0], z[1] - pmean[1], z[2] - pmean[2], z[3] - pmean[3]];
      var y := ForwardSubstitution(l, d);
      m := 0.0;
      ghost var a := axes;
      ghost var e := (i: nat) => if i < 4 then AxisDistance(a[i], z[i], Size(a, i)) else 0.0;
      for i := 0 to 4
        invariant m == Sum(e, i) && m >= 0.0
      {
        ForwardSquare(sqrt, pcov, l, d, i);
        DistanceAt(axes[i], z[i], Size(axes, i));
        m := m + y[i] * y[i];
      }
      FourTerms(e);
    }
  }
}
