/** Products of reals, named so that proofs about formulas need not look inside them. */
module Reals {
  function Times(a: real, b: real): real {
    a * b
  }

  function Square(a: real): real {
    a * a
  }

  /** std::sqrt on exact reals. */
  ghost predicate IsSqrt(sqrt: real -> real) {
    forall s: real :: s >= 0.0 ==> sqrt(s) >= 0.0 && sqrt(s) * sqrt(s) == s
  }

  lemma SquareOrder(a: real, b: real)
    requires a >= 0.0 && b >= 0.0
    ensures Square(a) < Square(b) <==> a < b
  {
    if a < b {
      ProductPositive(b - a, b + a);
      assert Square(b) - Square(a) == (b - a) * (b + a);
    } else {
      ProductNonNegative(a - b, a + b);
      assert Square(a) - Square(b) == (a - b) * (a + b);
    }
  }

  lemma ProductNonNegative(a: real, b: real)
    requires a >= 0.0 && b >= 0.0
    ensures a * b >= 0.0
  {
  }

  lemma ProductPositive(a: real, b: real)
    requires a > 0.0 && b > 0.0
    ensures a * b > 0.0
  {
  }

  lemma SquareNonNegative(a: real)
    ensures Square(a) >= 0.0
  {
  }

  lemma SquarePositive(c: real)
    requires c > 0.0
    ensures Square(c) > 0.0
  {
    assert Square(0.0) == 0.0;
    hide Square;
    SquareOrder(0.0, c);
  }
}
