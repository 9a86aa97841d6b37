/** The hand-written 4x4 Cholesky factorisation and triangular solves of kalman_box.cpp in
    exact reals: what they compute in general, and on the diagonal matrices the filter meets. */
module Cholesky {
  import opened Reals

  const N: nat := 4

  /** std::array<std::array<double, C>, R>: a value, copied on assignment. */
  type Mat = seq<seq<real>>

  predicate IsMat(m: Mat, r: nat, c: nat) {
    |m| == r && forall i :: 0 <= i < r ==> |m[i]| == c
  }

  function Zeros(r: nat, c: nat): (m: Mat)
    ensures IsMat(m, r, c)
    ensures forall i, j :: 0 <= i < r && 0 <= j < c ==> m[i][j] == 0.0
  {
    seq(r, i => seq(c, j => 0.0))
  }

  function Put(m: Mat, i: nat, j: nat, v: real): (m': Mat)
    requires i < |m| && j < |m[i]|
    ensures |m'| == |m| && forall r :: 0 <= r < |m| ==> |m'[r]| == |m[r]|
    ensures m'[i][j] == v
    ensures forall c :: 0 <= c < |m[i]| && c != j ==> m'[i][c] == m[i][c]
    ensures forall r :: 0 <= r < |m| && r != i ==> m'[r] == m[r]
  {
    m[i := m[i][j := v]]
  }

  // ---------------------------------------------------------------- sums

  /** f(0) + ... + f(n - 1) */
  function Sum(f: nat -> real, n: nat): real {
    if n == 0 then 0.0 else Sum(f, n - 1) + f(n - 1)
  }

  lemma {:induction false} SumExt(f: nat -> real, g: nat -> real, n: nat)
    requires forall i: nat :: i < n ==> f(i) == g(i)
    ensures Sum(f, n) == Sum(g, n)
  {
    if n == 0 {
    } else {
      SumExt(f, g, n - 1);
    }
  }

  lemma {:induction false} SumZero(f: nat -> real, n: nat)
    requires forall i: nat :: i < n ==> f(i) == 0.0
    ensures Sum(f, n) == 0.0
  {
    if n == 0 {
    } else {
      SumZero(f, n - 1);
    }
  }

  lemma {:induction false} SumAdd(f: nat -> real, g: nat -> real, n: nat)
    ensures Sum((i: nat) => f(i) + g(i), n) == Sum(f, n) + Sum(g, n)
  {
    if n == 0 {
    } else {
      SumAdd(f, g, n - 1);
    }
  }

  lemma {:induction false} SumScale(c: real, f: nat -> real, n: nat)
    ensures Sum((i: nat) => Times(c, f(i)), n) == Times(c, Sum(f, n))
  {
    if n == 0 {
    } else {
      SumScale(c, f, n - 1);
      TimesAdd(c, Sum(f, n - 1), f(n - 1));
      hide Times;
      SumExt((i: nat) => Times(c, f(i)), (i: nat) => Times(c, f(i)), n - 1);
    }
  }

  lemma TimesAdd(c: real, a: real, b: real)
    ensures Times(c, a + b) == Times(c, a) + Times(c, b)
    ensures Times(c, 0.0) == Times(0.0, c) == 0.0
  {
  }

  function Rows(f: (nat, nat) -> real, n: nat): nat -> real {
    (i: nat) => Sum((j: nat) => f(i, j), n)
  }

  function Columns(f: (nat, nat) -> real, m: nat): nat -> real {
    (j: nat) => Sum((i: nat) => f(i, j), m)
  }

  lemma {:induction false} SumSwap(f: (nat, nat) -> real, m: nat, n: nat)
    ensures Sum(Rows(f, n), m) == Sum(Columns(f, m), n)
  {
    if m == 0 {
      SumZero(Columns(f, 0), n);
    } else {
      SumSwap(f, m - 1, n);
      var row := (j: nat) => f(m - 1, j);
      var next := (j: nat) => Columns(f, m - 1)(j) + row(j);
      SumAdd(Columns(f, m - 1), row, n);
      forall j: nat | j < n ensures next(j) == Columns(f, m)(j) {
        SumExt((i: nat) => f(i, j), (i: nat) => f(i, j), m - 1);
      }
      SumExt(next, Columns(f, m), n);
      SumExt((j: nat) => Columns(f, m - 1)(j) + row(j), next, n);
    }
  }

  // ---------------------------------------------------------------- the factor

  /** What is left of a[i][j] after m columns are subtracted. */
  function Rest(sqrt: real -> real, a: Mat, i: nat, j: nat, m: nat): real
    requires IsMat(a, N, N) && m <= j <= i < N
    decreases i, j, m
  {
    if m == 0 then a[i][j]
    else Rest(sqrt, a, i, j, m - 1) - Times(Factor(sqrt, a, i, m - 1), Factor(sqrt, a, j, m - 1))
  }

  /** Entry (i, j), j <= i, of the factor, with the guards for a pivot that is not positive. */
  function Factor(sqrt: real -> real, a: Mat, i: nat, j: nat): real
    requires IsMat(a, N, N) && j <= i < N
    decreases i, j, j + 1
  {
    var s := Rest(sqrt, a, i, j, j);
    if i == j then sqrt(if s > 0.0 then s else 0.0)
    else if Factor(sqrt, a, j, j) != 0.0 then s / Factor(sqrt, a, j, j) else 0.0
  }

  predicate IsFactor(sqrt: real -> real, a: Mat, l: Mat)
    requires IsMat(a, N, N)
  {
    && IsMat(l, N, N)
    && forall i, j :: 0 <= i < N && 0 <= j < N ==> l[i][j] == if j <= i then Factor(sqrt, a, i, j) else 0.0
  }

  /** The rows above i are complete, and row i up to column j. */
  predicate FilledTo(sqrt: real -> real, a: Mat, l: Mat, i: nat, j: nat)
    requires IsMat(a, N, N)
  {
    && IsMat(l, N, N)
    && forall r, c :: 0 <= r < N && 0 <= c < N ==>
         l[r][c] == if (r < i && c <= r) || (r == i && c < j && c <= r) then Factor(sqrt, a, r, c) else 0.0
  }

  /** The innermost loop and the two guarded assignments. */
  method CholEntry(a: Mat, l: Mat, i: nat, j: nat, sqrt: real -> real) returns (v: real)
    requires IsMat(a, N, N) && j <= i < N && FilledTo(sqrt, a, l, i, j)
    ensures v == Factor(sqrt, a, i, j)
  {
    var s := a[i][j];
    for k := 0 to j
      invariant s == Rest(sqrt, a, i, j, k)
    {
      s := s - Times(l[i][k], l[j][k]);
    }
    if i == j {
      v := sqrt(if s > 0.0 then s else 0.0);
    } else {
      v := if l[j][j] != 0.0 then s / l[j][j] else 0.0;
    }
  }

  method Chol4(a: Mat, sqrt: real -> real) returns (l: Mat)
    requires IsMat(a, N, N)
    ensures IsFactor(sqrt, a, l)
  {
    hide Factor, Rest, Put;
    l := Zeros(N, N);
    for i := 0 to N
      invariant FilledTo(sqrt, a, l, i, 0)
    {
      for j := 0 to i + 1
        invariant FilledTo(sqrt, a, l, i, j)
      {
        var v := CholEntry(a, l, i, j, sqrt);
        l := Put(l, i, j, v);
      }
    }
  }

  /** Every pivot is positive: the factorisation never meets its guards. */
  predicate PositivePivots(sqrt: real -> real, a: Mat)
    requires IsMat(a, N, N)
  {
    forall j :: 0 <= j < N ==> Rest(sqrt, a, j, j, j) > 0.0
  }

  function Products(l: Mat, i: nat, j: nat): nat -> real
    requires IsMat(l, N, N) && i < N && j < N
  {
    (k: nat) => if k < N then Times(l[i][k], l[j][k]) else 0.0
  }

  lemma {:induction false} RestIsDifference(sqrt: real -> real, a: Mat, l: Mat, i: nat, j: nat, m: nat)
    requires IsMat(a, N, N) && IsFactor(sqrt, a, l) && m <= j <= i < N
    ensures Rest(sqrt, a, i, j, m) == a[i][j] - Sum(Products(l, i, j), m)
  {
    if m == 0 {
    } else {
      RestIsDifference(sqrt, a, l, i, j, m - 1);
    }
  }

  lemma PivotSquared(sqrt: real -> real, s: real)
    requires IsSqrt(sqrt) && s > 0.0
    ensures sqrt(s) > 0.0 && Times(sqrt(s), sqrt(s)) == s
  {
    assert sqrt(s) != 0.0;
  }

  lemma Division(s: real, d: real)
    requires d != 0.0
    ensures Times(s / d, d) == Times(d, s / d) == s
  {
  }

  lemma FactorEntry(sqrt: real -> real, a: Mat, i: nat, j: nat)
    requires IsMat(a, N, N) && IsSqrt(sqrt) && PositivePivots(sqrt, a) && j <= i < N
    ensures Factor(sqrt, a, j, j) > 0.0
    ensures Times(Factor(sqrt, a, i, j), Factor(sqrt, a, j, j)) == Rest(sqrt, a, i, j, j)
  {
    PivotSquared(sqrt, Rest(sqrt, a, j, j, j));
    hide Times;
    if i != j { Division(Rest(sqrt, a, i, j, j), Factor(sqrt, a, j, j)); }
    assert i == j ==> Times(Factor(sqrt, a, j, j), Factor(sqrt, a, j, j)) == Rest(sqrt, a, j, j, j);
  }

  /** With positive pivots the factor times its transpose is the matrix. */
  lemma FactorTimesTranspose(sqrt: real -> real, a: Mat, l: Mat, i: nat, j: nat)
    requires IsMat(a, N, N) && IsSqrt(sqrt) && IsFactor(sqrt, a, l) && PositivePivots(sqrt, a)
    requires j <= i < N
    ensures Sum(Products(l, i, j), N) == a[i][j]
    ensures l[j][j] > 0.0
  {
    hide Times, IsSqrt, PositivePivots;
    FactorEntry(sqrt, a, i, j);
    RestIsDifference(sqrt, a, l, i, j, j);
    ZeroTail(l, i, j, N);
    hide Factor, Rest;
    assert Sum(Products(l, i, j), j + 1) == Sum(Products(l, i, j), j) + Products(l, i, j)(j);
  }

  lemma {:induction false} ZeroTail(l: Mat, i: nat, j: nat, m: nat)
    requires IsMat(l, N, N) && j <= i < N && j + 1 <= m <= N
    requires forall k :: j < k < N ==> l[j][k] == 0.0
    ensures Sum(Products(l, i, j), m) == Sum(Products(l, i, j), j + 1)
  {
    if m <= j + 1 {
    } else {
      ZeroTail(l, i, j, m - 1);
    }
  }

  // ---------------------------------------------------------------- triangular solves

  function Forward(l: Mat, b: seq<real>, i: nat): real
    requires IsMat(l, N, N) && |b| == N && i < N
    decreases i, i + 1
  {
    if l[i][i] != 0.0 then ForwardRest(l, b, i, i) / l[i][i] else 0.0
  }

  function ForwardRest(l: Mat, b: seq<real>, i: nat, m: nat): real
    requires IsMat(l, N, N) && |b| == N && m <= i < N
    decreases i, m
  {
    if m == 0 then b[i] else ForwardRest(l, b, i, m - 1) - Times(l[i][m - 1], Forward(l, b, m - 1))
  }

  function Backward(l: Mat, y: seq<real>, i: nat): real
    requires IsMat(l, N, N) && |y| == N && i < N
    decreases N - i, N + 1
  {
    if l[i][i] != 0.0 then BackwardRest(l, y, i, N) / l[i][i] else 0.0
  }

  /** y[i] less the terms of columns i + 1 up to m. */
  function BackwardRest(l: Mat, y: seq<real>, i: nat, m: nat): real
    requires IsMat(l, N, N) && |y| == N && i < m <= N
    decreases N - i, m
  {
    if m == i + 1 then y[i] else BackwardRest(l, y, i, m - 1) - Times(l[m - 1][i], Backward(l, y, m - 1))
  }

  function ForwardAll(l: Mat, b: seq<real>): (y: seq<real>)
    requires IsMat(l, N, N) && |b| == N
    ensures |y| == N && forall i :: 0 <= i < N ==> y[i] == Forward(l, b, i)
  {
    seq(N, i requires 0 <= i < N => Forward(l, b, i))
  }

  /** The result of chol_solve_vec. */
  function Solution(l: Mat, b: seq<real>): (x: seq<real>)
    requires IsMat(l, N, N) && |b| == N
    ensures |x| == N && forall i :: 0 <= i < N ==> x[i] == Backward(l, ForwardAll(l, b), i)
  {
    seq(N, i requires 0 <= i < N => Backward(l, ForwardAll(l, b), i))
  }

  method ForwardSubstitution(l: Mat, b: seq<real>) returns (y: seq<real>)
    requires IsMat(l, N, N) && |b| == N
    ensures y == ForwardAll(l, b)
  {
    y := seq(N, i => 0.0);
    for i := 0 to N
      invariant |y| == N && forall k :: 0 <= k < i ==> y[k] == Forward(l, b, k)
    {
      var s := b[i];
      for k := 0 to i
        invariant s == ForwardRest(l, b, i, k)
      {
        s := s - Times(l[i][k], y[k]);
      }
      y := y[i := if l[i][i] != 0.0 then s / l[i][i] else 0.0];
    }
  }

  method CholSolveVec(l: Mat, b: seq<real>) returns (x: seq<real>)
    requires IsMat(l, N, N) && |b| == N
    ensures x == Solution(l, b)
  {
    var y := ForwardSubstitution(l, b);
    x := seq(N, i => 0.0);
    for i := N downto 0
      invariant |x| == N && forall k :: i <= k < N ==> x[k] == Backward(l, y, k)
    {
      var s := y[i];
      for k := i + 1 to N
        invariant s == BackwardRest(l, y, i, k)
      {
        s := s - Times(l[k][i], x[k]);
      }
      x := x[i := if l[i][i] != 0.0 then s / l[i][i] else 0.0];
    }
  }

  // ---------------------------------------------------------------- the solution solves the system

  /** k |-> l[i][k] y[k] */
  function RowTerms(l: Mat, y: seq<real>, i: nat): nat -> real
    requires IsMat(l, N, N) && |y| == N && i < N
  {
    (k: nat) => if k < N then Times(l[i][k], y[k]) else 0.0
  }

  /** k |-> l[k][i] x[k] */
  function ColumnTerms(l: Mat, x: seq<real>, i: nat): nat -> real
    requires IsMat(l, N, N) && |x| == N && i < N
  {
    (k: nat) => if k < N then Times(l[k][i], x[k]) else 0.0
  }

  predicate IsLowerTriangular(l: Mat) {
    IsMat(l, N, N) && forall i, j :: 0 <= i < j < N ==> l[i][j] == 0.0
  }

  predicate PositiveDiagonal(l: Mat) {
    IsMat(l, N, N) && forall i :: 0 <= i < N ==> l[i][i] > 0.0
  }

  lemma {:induction false} ForwardRestSum(l: Mat, b: seq<real>, i: nat, m: nat)
    requires IsMat(l, N, N) && |b| == N && m <= i < N
    ensures ForwardRest(l, b, i, m) == b[i] - Sum(RowTerms(l, ForwardAll(l, b), i), m)
  {
    hide Times;
    if m == 0 {
    } else {
      ForwardRestSum(l, b, i, m - 1);
    }
  }

  lemma {:induction false} TailIsZero(f: nat -> real, lo: nat, hi: nat)
    requires lo <= hi && forall k: nat :: lo <= k < hi ==> f(k) == 0.0
    ensures Sum(f, hi) == Sum(f, lo)
  {
    if lo >= hi {
    } else {
      TailIsZero(f, lo, hi - 1);
    }
  }

  /** l y == b */
  lemma ForwardSolves(l: Mat, b: seq<real>, i: nat)
    requires IsLowerTriangular(l) && PositiveDiagonal(l) && |b| == N && i < N
    ensures Sum(RowTerms(l, ForwardAll(l, b), i), N) == b[i]
  {
    var f := RowTerms(l, ForwardAll(l, b), i);
    ForwardRestSum(l, b, i, i);
    Division(ForwardRest(l, b, i, i), l[i][i]);
    assert forall k: nat :: i < k < N ==> f(k) == 0.0;
    hide Times;
    assert f(i) == ForwardRest(l, b, i, i);
    TailIsZero(f, i + 1, N);
    assert Sum(f, i + 1) == Sum(f, i) + f(i);
  }

  lemma {:induction false} BackwardRestSum(l: Mat, b: seq<real>, i: nat, m: nat)
    requires IsLowerTriangular(l) && |b| == N && i < m <= N
    ensures var y, f := ForwardAll(l, b), ColumnTerms(l, Solution(l, b), i);
            BackwardRest(l, y, i, m) == y[i] - (Sum(f, m) - f(i))
  {
    var y, x := ForwardAll(l, b), Solution(l, b);
    var f := ColumnTerms(l, x, i);
    if m == i + 1 {
      assert forall k: nat :: k < i ==> f(k) == 0.0;
      SumZero(f, i);
    } else {
      hide Times, ForwardAll;
      BackwardRestSum(l, b, i, m - 1);
      assert f(m - 1) == Times(l[m - 1][i], Backward(l, y, m - 1));
    }
  }

  /** The transpose of l times x is y. */
  lemma BackwardSolves(l: Mat, b: seq<real>, i: nat)
    requires IsLowerTriangular(l) && PositiveDiagonal(l) && |b| == N && i < N
    ensures Sum(ColumnTerms(l, Solution(l, b), i), N) == ForwardAll(l, b)[i]
  {
    var y, f := ForwardAll(l, b), ColumnTerms(l, Solution(l, b), i);
    BackwardRestSum(l, b, i, N);
    Division(BackwardRest(l, y, i, N), l[i][i]);
    hide Times;
    assert f(i) == BackwardRest(l, y, i, N);
  }

  /** (j, k) |-> l[i][k] l[j][k] x[j] */
  function TripleTerms(l: Mat, x: seq<real>, i: nat): (nat, nat) -> real
    requires IsMat(l, N, N) && |x| == N && i < N
  {
    (j: nat, k: nat) => if j < N && k < N then Times(l[i][k], Times(l[j][k], x[j])) else 0.0
  }

  predicate IsSymmetric(a: Mat) {
    IsMat(a, N, N) && forall i, j :: 0 <= i < N && 0 <= j < N ==> a[i][j] == a[j][i]
  }

  lemma TripleRow(sqrt: real -> real, a: Mat, l: Mat, x: seq<real>, i: nat, j: nat)
    requires IsSqrt(sqrt) && IsSymmetric(a) && PositivePivots(sqrt, a) && IsFactor(sqrt, a, l)
    requires |x| == N && i < N && j < N
    ensures Rows(TripleTerms(l, x, i), N)(j) == Times(a[i][j], x[j])
  {
    var hi, lo := if i < j then j else i, if i < j then i else j;
    FactorTimesTranspose(sqrt, a, l, hi, lo);
    hide Times, IsSqrt, PositivePivots, IsFactor;
    TimesComm(a[i][j], x[j]);
    ScaledProducts(l, x, i, j);
  }

  lemma ScaledProducts(l: Mat, x: seq<real>, i: nat, j: nat)
    requires IsMat(l, N, N) && |x| == N && i < N && j < N
    ensures Rows(TripleTerms(l, x, i), N)(j) == Times(x[j], Sum(Products(l, i, j), N))
    ensures Sum(Products(l, i, j), N) == Sum(Products(l, j, i), N)
  {
    hide Times;
    var f := Products(l, i, j);
    SumScale(x[j], f, N);
    forall k: nat | k < N ensures Times(x[j], f(k)) == TripleTerms(l, x, i)(j, k) {
      TimesShuffle(x[j], l[i][k], l[j][k]);
    }
    SumExt((k: nat) => Times(x[j], f(k)), (k: nat) => TripleTerms(l, x, i)(j, k), N);
    forall k: nat | k < N ensures f(k) == Products(l, j, i)(k) {
      TimesComm(l[i][k], l[j][k]);
    }
    SumExt(f, Products(l, j, i), N);
  }

  lemma TimesComm(a: real, b: real)
    ensures Times(a, b) == Times(b, a)
  {
  }

  lemma TimesShuffle(x: real, p: real, q: real)
    ensures Times(x, Times(p, q)) == Times(p, Times(q, x))
  {
  }

  lemma TripleColumn(l: Mat, x: seq<real>, i: nat, k: nat)
    requires IsMat(l, N, N) && |x| == N && i < N && k < N
    ensures Columns(TripleTerms(l, x, i), N)(k) == Times(l[i][k], Sum(ColumnTerms(l, x, k), N))
  {
    hide Times;
    SumScale(l[i][k], ColumnTerms(l, x, k), N);
    forall j: nat | j < N
      ensures Times(l[i][k], ColumnTerms(l, x, k)(j)) == TripleTerms(l, x, i)(j, k)
    {
    }
    SumExt((j: nat) => Times(l[i][k], ColumnTerms(l, x, k)(j)), (j: nat) => TripleTerms(l, x, i)(j, k), N);
  }

  lemma FactorShape(sqrt: real -> real, a: Mat, l: Mat)
    requires IsMat(a, N, N) && IsSqrt(sqrt) && PositivePivots(sqrt, a) && IsFactor(sqrt, a, l)
    ensures IsLowerTriangular(l) && PositiveDiagonal(l)
  {
    forall i: nat | i < N ensures l[i][i] > 0.0 { FactorTimesTranspose(sqrt, a, l, i, i); }
  }

  /** chol_solve_vec after chol4 solves a x == b for every symmetric matrix whose pivots
      are positive. */
  lemma SolvesSystem(sqrt: real -> real, a: Mat, l: Mat, b: seq<real>, i: nat)
    requires IsSqrt(sqrt) && IsSymmetric(a) && PositivePivots(sqrt, a) && IsFactor(sqrt, a, l)
    requires |b| == N && i < N
    ensures Sum(RowTerms(a, Solution(l, b), i), N) == b[i]
  {
    var x, y := Solution(l, b), ForwardAll(l, b);
    var t := TripleTerms(l, x, i);
    FactorShape(sqrt, a, l);
    hide Times, IsSqrt, PositivePivots, IsFactor, Solution, ForwardAll, TripleTerms, Rows, Columns, PositiveDiagonal;
    forall j: nat | j < N ensures RowTerms(a, x, i)(j) == Rows(t, N)(j) {
      TripleRow(sqrt, a, l, x, i, j);
    }
    SumExt(RowTerms(a, x, i), Rows(t, N), N);
    SumSwap(t, N, N);
    forall k: nat | k < N ensures Columns(t, N)(k) == RowTerms(l, y, i)(k) {
      TripleColumn(l, x, i, k);
      BackwardSolves(l, b, k);
    }
    SumExt(Columns(t, N), RowTerms(l, y, i), N);
    ForwardSolves(l, b, i);
  }

  // ---------------------------------------------------------------- diagonal matrices

  predicate IsDiagonal(a: Mat) {
    IsMat(a, N, N) && forall i, j :: 0 <= i < N && 0 <= j < N && i != j ==> a[i][j] == 0.0
  }

  /** A diagonal matrix has a diagonal factor: guarded roots of its entries. */
  lemma {:induction false} DiagonalFactor(sqrt: real -> real, a: Mat, i: nat, j: nat)
    requires IsDiagonal(a) && j <= i < N
    ensures Factor(sqrt, a, i, j) == if i == j then sqrt(if a[i][i] > 0.0 then a[i][i] else 0.0) else 0.0
    decreases i, j, j + 1
  {
    DiagonalRest(sqrt, a, i, j, j);
  }

  lemma {:induction false} DiagonalRest(sqrt: real -> real, a: Mat, i: nat, j: nat, m: nat)
    requires IsDiagonal(a) && m <= j <= i < N
    ensures Rest(sqrt, a, i, j, m) == a[i][j]
    decreases i, j, m
  {
    if m == 0 {
    } else {
      DiagonalRest(sqrt, a, i, j, m - 1);
      DiagonalFactor(sqrt, a, i, m - 1);
      TimesAdd(Factor(sqrt, a, j, m - 1), 0.0, 0.0);
    }
  }

  /** With off-diagonal zeros the solves reduce to one guarded division per coordinate. */
  lemma DiagonalSolution(sqrt: real -> real, a: Mat, l: Mat, b: seq<real>, i: nat)
    requires IsSqrt(sqrt) && IsDiagonal(a) && IsFactor(sqrt, a, l) && |b| == N && i < N
    ensures l[i][i] == sqrt(if a[i][i] > 0.0 then a[i][i] else 0.0)
    ensures Forward(l, b, i) == if l[i][i] != 0.0 then b[i] / l[i][i] else 0.0
    ensures Solution(l, b)[i] == if a[i][i] > 0.0 then b[i] / a[i][i] else 0.0
  {
    forall r, c | 0 <= c <= r < N
      ensures l[r][c] == if r == c then sqrt(if a[r][r] > 0.0 then a[r][r] else 0.0) else 0.0
    {
      DiagonalFactor(sqrt, a, r, c);
    }
    hide IsFactor;
    DiagonalForward(l, b, i, i);
    DiagonalBackward(l, ForwardAll(l, b), i, N);
    TwoDivisions(sqrt, a[i][i], b[i]);
  }

  lemma {:induction false} DiagonalForward(l: Mat, b: seq<real>, i: nat, m: nat)
    requires IsDiagonal(l) && |b| == N && m <= i < N
    ensures ForwardRest(l, b, i, m) == b[i]
  {
    if m == 0 {
    } else {
      DiagonalForward(l, b, i, m - 1);
      TimesAdd(Forward(l, b, m - 1), 0.0, 0.0);
    }
  }

  lemma {:induction false} DiagonalBackward(l: Mat, y: seq<real>, i: nat, m: nat)
    requires IsDiagonal(l) && |y| == N && i < m <= N
    ensures BackwardRest(l, y, i, m) == y[i]
  {
    if m <= i + 1 {
    } else {
      DiagonalBackward(l, y, i, m - 1);
      TimesAdd(Backward(l, y, m - 1), 0.0, 0.0);
    }
  }

  /** Dividing twice by the guarded root is dividing once by the pivot. */
  lemma TwoDivisions(sqrt: real -> real, s: real, b: real)
    requires IsSqrt(sqrt)
    ensures var d := sqrt(if s > 0.0 then s else 0.0);
            (if d != 0.0 then (if d != 0.0 then b / d else 0.0) / d else 0.0) == if s > 0.0 then b / s else 0.0
  {
    var d := sqrt(if s > 0.0 then s else 0.0);
    if s > 0.0 {
      PivotSquared(sqrt, s);
      DivideTwice(b, d, s);
    } else {
      assert d * d == 0.0;
    }
  }

  lemma DivideTwice(b: real, d: real, s: real)
    requires d != 0.0 && Times(d, d) == s && s != 0.0
    ensures b / d / d == b / s
  {
    var q := b / d / d;
    assert q * (d * d) == (q * d) * d == b;
  }
}
