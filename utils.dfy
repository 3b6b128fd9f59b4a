/** Numeric helpers of the physics code: the absolute value the wall tests use,
    an Option for a result that may be undefined, and what the model relies on
    about the platform square root, which it does not compute. */
module Utils {

  datatype Option<T> = None | Some(value: T)

  /** `mod_f32`: the absolute value of `x`. The two clauses together determine it. */
  function Abs(x: real): (r: real)
    ensures r >= 0.0
    ensures r == x || r == -x
  {
    if x < 0.0 then -x else x
  }

  lemma AbsCases(x: real)
    ensures x >= 0.0 ==> Abs(x) == x
    ensures x < 0.0 ==> Abs(x) == -x
  {
  }

  lemma AbsSymmetric(x: real)
    ensures Abs(-x) == Abs(x)
  {
  }

  lemma AbsIdempotent(x: real)
    ensures Abs(Abs(x)) == Abs(x)
  {
  }

  /** `sqrt` is exact at `x`: it returns the non-negative root of `x`. */
  ghost predicate IsRoot(sqrt: real -> real, x: real) {
    0.0 <= sqrt(x) && sqrt(x) * sqrt(x) == x
  }

  /** `sqrt` is exact at every non-negative argument. */
  ghost predicate ExactSqrt(sqrt: real -> real) {
    forall x :: 0.0 <= x ==> IsRoot(sqrt, x)
  }

  /** Comparing a non-negative root with a non-negative bound is comparing
      the root's square with the bound's square. */
  lemma RootComparison(x: real, root: real, bound: real)
    requires 0.0 <= root && root * root == x
    requires 0.0 <= bound
    ensures root < bound <==> x < bound * bound
    ensures root > bound <==> x > bound * bound
  {
    SquareMonotone(root, bound);
    SquareMonotone(bound, root);
  }

  lemma SquareMonotone(a: real, b: real)
    requires 0.0 <= a && 0.0 <= b
    ensures a < b ==> a * a < b * b
    ensures a <= b ==> a * a <= b * b
  {
    var aa, ab, bb := a * a, a * b, b * b;
    if a <= b {
      assert aa <= ab <= bb;
      if a < b {
        assert ab < bb;
      }
    }
  }
  /** A product written as a function application, so that facts about its sign
      stay attached to the term that later goals mention. */
  function Mul(a: real, b: real): real {
    a * b
  }

  lemma MulPositive(a: real, b: real)
    requires a > 0.0 && b > 0.0
    ensures Mul(a, b) > 0.0
  {
  }

  /** A square is non-negative, and positive away from zero. */
  lemma SquareSign(x: real)
    ensures Mul(x, x) >= 0.0
    ensures x != 0.0 ==> Mul(x, x) > 0.0
  {
    if x > 0.0 {
      MulPositive(x, x);
    } else if x < 0.0 {
      MulPositive(-x, -x);
      assert Mul(-x, -x) == Mul(x, x);
    }
  }

  /** A sum of two squares is non-negative, and positive unless both are zero. */
  lemma SumOfSquares(a: real, b: real)
    ensures a * a + b * b == Mul(a, a) + Mul(b, b)
    ensures Mul(a, a) + Mul(b, b) >= 0.0
    ensures a != 0.0 || b != 0.0 ==> Mul(a, a) + Mul(b, b) > 0.0
  {
    SquareSign(a);
    SquareSign(b);
  }

  lemma MulCommutes(a: real, b: real)
    ensures Mul(a, b) == Mul(b, a)
  {
  }

  /** Dividing and multiplying back by a non-zero number is the identity. */
  lemma DivTimes(a: real, d: real)
    requires d != 0.0
    ensures Mul(a / d, d) == a
  {
  }

  lemma DivAssoc(a: real, b: real, d: real)
    requires d != 0.0
    ensures (a * b) / d == (a / d) * b
  {
  }

  lemma DivPositive(a: real, b: real)
    requires a > 0.0 && b > 0.0
    ensures a / b > 0.0
  {
    DivTimes(a, b);
  }

  lemma DivNonNegative(a: real, b: real)
    requires a >= 0.0 && b > 0.0
    ensures a / b >= 0.0
  {
    if a > 0.0 {
      DivPositive(a, b);
    }
  }

  /** A larger positive denominator gives a smaller quotient. */
  lemma DivAntitone(k: real, a: real, b: real)
    requires k >= 0.0 && 0.0 < a <= b
    ensures k / b <= k / a
  {
    DivTimes(k, a);
    DivTimes(k, b);
    var x, y := k / a, k / b;
    if y > x {
      MulPositive(y - x, a);
      if b - a > 0.0 && y > 0.0 {
        MulPositive(y, b - a);
      }
    }
  }

  /** A non-zero factor can be cancelled. */
  lemma Cancel(a: real, b: real, c: real)
    requires a != 0.0 && Mul(b, a) == Mul(c, a)
    ensures b == c
  {
    assert Mul(b - c, a) == 0.0;
  }

  /** Two non-negative numbers with the same square are equal: the root is unique. */
  lemma RootUnique(a: real, b: real)
    requires 0.0 <= a && 0.0 <= b && Mul(a, a) == Mul(b, b)
    ensures a == b
  {
    if a < b {
      SquareMonotone(a, b);
    } else if b < a {
      SquareMonotone(b, a);
    }
  }

  /** An exact root of a positive number is positive. */
  lemma RootPositive(sqrt: real -> real, x: real)
    requires IsRoot(sqrt, x) && x > 0.0
    ensures sqrt(x) > 0.0
  {
  }

  /** (nx·d)² + (ny·d)² = (nx² + ny²)·d², with every product kept as a term. */
  lemma FactorSquares(nx: real, ny: real, d: real)
    ensures Mul(Mul(nx, d), Mul(nx, d)) + Mul(Mul(ny, d), Mul(ny, d)) == Mul(Mul(nx, nx) + Mul(ny, ny), Mul(d, d))
  {
  }

  /** (dx/d, dy/d) is a unit vector when d is the length of (dx, dy). */
  lemma UnitQuotient(dx: real, dy: real, d: real)
    requires d != 0.0 && Mul(d, d) == Mul(dx, dx) + Mul(dy, dy)
    ensures Mul(dx / d, dx / d) + Mul(dy / d, dy / d) == 1.0
  {
    var nx, ny := dx / d, dy / d;
    DivTimes(dx, d);
    DivTimes(dy, d);
    FactorSquares(nx, ny, d);
    SquareSign(d);
    assert Mul(Mul(nx, nx) + Mul(ny, ny), Mul(d, d)) == Mul(1.0, Mul(d, d));
    Cancel(Mul(d, d), Mul(nx, nx) + Mul(ny, ny), 1.0);
  }
}
