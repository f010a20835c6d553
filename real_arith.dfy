// Real arithmetic used by the geometric proofs.
//
// Every product in the model goes through `Mul` or `Square`, and each nonlinear fact is
// proved once, here, in a lemma of its own; the proofs elsewhere then only combine these
// facts linearly.

module RealArith {

  function Mul(a: real, b: real): real {
    a * b
  }

  function Square(a: real): real {
    a * a
  }

  function Quotient(a: real, b: real): real
    requires b != 0.0
  {
    a / b
  }

  /** `x.powi(n)` */
  function Pow(x: real, n: nat): real {
    if n == 0 then 1.0 else Mul(x, Pow(x, n - 1))
  }

  lemma MulCommutes(a: real, b: real)
    ensures Mul(a, b) == Mul(b, a)
  {
  }

  lemma MulDistributes(a: real, s: real, t: real)
    ensures Mul(a, s + t) == Mul(a, s) + Mul(a, t)
  {
    assert a * (s + t) == a * s + a * t;
  }

  lemma MulByZero(a: real, b: real)
    requires a == 0.0
    ensures Mul(a, b) == 0.0 && Mul(b, a) == 0.0
  {
  }

  lemma MulNegates(a: real, b: real)
    ensures Mul(a, -b) == -Mul(a, b)
  {
    assert a * (-b) == -(a * b);
  }

  lemma SquareOfNegation(a: real)
    ensures Square(-a) == Square(a)
  {
  }

  lemma ProductOverDivisor(t: real, a: real)
    requires a != 0.0
    ensures Mul(t, a) / a == t
  {
  }

  lemma SquareNonNegative(a: real)
    ensures 0.0 <= Square(a)
  {
  }

  lemma PositiveProduct(a: real, b: real)
    requires 0.0 < a && 0.0 < b
    ensures 0.0 < Mul(a, b)
  {
  }

  lemma SquarePositive(a: real)
    requires a != 0.0
    ensures 0.0 < Square(a)
  {
    if 0.0 < a {
      PositiveProduct(a, a);
    } else {
      PositiveProduct(-a, -a);
      assert Square(a) == Mul(-a, -a);
    }
  }

  lemma ZeroProduct(a: real, q: real)
    requires a != 0.0 && Mul(a, q) == 0.0
    ensures q == 0.0
  {
    assert a * q == 0.0;
  }

  lemma SquareOfProduct(a: real, b: real)
    ensures Square(Mul(a, b)) == Mul(Square(a), Square(b))
  {
    assert (a * b) * (a * b) == (a * a) * (b * b);
  }

  lemma QuotientTimesDivisor(a: real, l: real)
    requires l != 0.0
    ensures Mul(a / l, l) == a
  {
  }

  lemma DistributeThree(a: real, b: real, c: real, m: real)
    ensures Mul(a + b + c, m) == Mul(a, m) + Mul(b, m) + Mul(c, m)
  {
    assert (a + b + c) * m == a * m + b * m + c * m;
  }

  lemma CancelFactor(x: real, m: real)
    requires m != 0.0 && Mul(x, m) == m
    ensures x == 1.0
  {
    assert x * m == m;
  }

  /** Dividing three numbers by the root of their sum of squares gives squares summing to one. */
  lemma QuotientSquaresSumToOne(x: real, y: real, z: real, l: real)
    requires l != 0.0 && Square(l) == Square(x) + Square(y) + Square(z)
    ensures Square(x / l) + Square(y / l) + Square(z / l) == 1.0
  {
    QuotientTimesDivisor(x, l);
    QuotientTimesDivisor(y, l);
    QuotientTimesDivisor(z, l);
    SquareOfProduct(x / l, l);
    SquareOfProduct(y / l, l);
    SquareOfProduct(z / l, l);
    DistributeThree(Square(x / l), Square(y / l), Square(z / l), Square(l));
    SquarePositive(l);
    CancelFactor(Square(x / l) + Square(y / l) + Square(z / l), Square(l));
  }

  lemma ReciprocalAvoidsMinusOne(a: real)
    requires a != 0.0 && a != -1.0
    ensures 1.0 / a != -1.0
  {
  }

  lemma SquareAtMostOne(a: real)
    requires Square(a) <= 1.0
    ensures -1.0 <= a <= 1.0
  {
  }

  lemma SquareOfSumScaled(p: real, q: real, t: real)
    ensures Square(p + Mul(q, t)) == Square(p) + 2.0 * Mul(Mul(p, q), t) + Mul(Square(q), Square(t))
  {
    assert (p + q * t) * (p + q * t) == p * p + 2.0 * ((p * q) * t) + (q * q) * (t * t);
  }

  /** `a` times the quadratic `a t^2 + 2 h t + c`, completed to a square. */
  lemma QuadraticIdentity(a: real, h: real, c: real, t: real)
    ensures Mul(a, Mul(a, Square(t)) + 2.0 * Mul(h, t) + c)
         == Square(Mul(t, a) + h) - Square(h) + Mul(a, c)
  {
    assert a * (a * (t * t) + 2.0 * (h * t) + c) == (t * a + h) * (t * a + h) - h * h + a * c;
  }

  /** The two scalar triple products with a repeated vector, written out by components. */
  lemma TripleProductsVanish(a1: real, a2: real, a3: real, b1: real, b2: real, b3: real)
    ensures Mul(a1, Mul(a2, b3) - Mul(a3, b2)) + Mul(a2, Mul(a3, b1) - Mul(a1, b3))
          + Mul(a3, Mul(a1, b2) - Mul(a2, b1)) == 0.0
    ensures Mul(b1, Mul(a2, b3) - Mul(a3, b2)) + Mul(b2, Mul(a3, b1) - Mul(a1, b3))
          + Mul(b3, Mul(a1, b2) - Mul(a2, b1)) == 0.0
  {
    assert a1 * (a2 * b3 - a3 * b2) + a2 * (a3 * b1 - a1 * b3) + a3 * (a1 * b2 - a2 * b1) == 0.0;
    assert b1 * (a2 * b3 - a3 * b2) + b2 * (a3 * b1 - a1 * b3) + b3 * (a1 * b2 - a2 * b1) == 0.0;
  }

  lemma EqualSquares(x: real, s: real)
    requires Square(x) == Square(s)
    ensures x == s || x == -s
  {
    assert (x - s) * (x + s) == 0.0;
  }

  lemma DivMonotone(x: real, y: real, a: real)
    requires 0.0 < a && x <= y
    ensures x / a <= y / a
  {
  }

  lemma MulBounded(a: real, p: real)
    requires 0.0 <= a && 0.0 <= p <= 1.0
    ensures 0.0 <= Mul(a, p) <= a
  {
  }

  lemma {:induction false} PowInUnit(x: real, n: nat)
    requires 0.0 <= x <= 1.0
    ensures 0.0 <= Pow(x, n) <= 1.0
  {
    if n > 0 {
      PowInUnit(x, n - 1);
      MulBounded(Pow(x, n - 1), x);
      MulCommutes(Pow(x, n - 1), x);
    }
  }

  lemma {:induction false} PowOfOne(n: nat)
    ensures Pow(1.0, n) == 1.0
  {
    if n > 0 {
      PowOfOne(n - 1);
    }
  }

  lemma PowOfZero(n: nat)
    requires 0 < n
    ensures Pow(0.0, n) == 0.0
  {
    MulByZero(0.0, Pow(0.0, n - 1));
  }

  lemma MulByOne(a: real)
    ensures Mul(1.0, a) == a && Mul(a, 1.0) == a
  {
  }

  /** Dividing a sum of three products by `l` divides each left factor. */
  lemma QuotientsDistribute(a: real, b: real, c: real, p: real, q: real, r: real, l: real)
    requires l != 0.0
    ensures Mul(a / l, p) + Mul(b / l, q) + Mul(c / l, r) == (Mul(a, p) + Mul(b, q) + Mul(c, r)) / l
  {
    assert (a / l) * p + (b / l) * q + (c / l) * r == (a * p + b * q + c * r) / l;
  }

  lemma QuotientNonPositive(x: real, l: real)
    requires x <= 0.0 && 0.0 < l
    ensures x / l <= 0.0
  {
  }

  lemma PowTwo(x: real)
    ensures Pow(x, 2) == Square(x)
  {
    assert Pow(x, 1) == Mul(x, Pow(x, 0));
    MulByOne(x);
  }

  lemma QuotientInUnit(p: real, d: real)
    requires 0.0 < d && -d <= p <= d
    ensures -1.0 <= p / d <= 1.0
  {
  }

  lemma SquareOfUnit(a: real)
    requires -1.0 <= a <= 1.0
    ensures Square(a) <= 1.0
  {
    if 0.0 <= a {
      MulBounded(a, a);
    } else {
      MulBounded(-a, -a);
      assert Square(a) == Mul(-a, -a);
    }
  }
  /** Scaling a ratio and dividing by its numerator leaves the scale over the denominator. */
  lemma RatioOverNumerator(c: real, w: real, h: real)
    requires w != 0.0 && h != 0.0
    ensures Mul(c, w / h) / w == c / h
  {
    assert c * (w / h) / w == c / h;
  }

  lemma RatioSwap(c: real, w: real, h: real)
    requires h != 0.0
    ensures Mul(c, w / h) == Mul(w, c / h)
  {
    assert c * (w / h) == w * (c / h);
  }

  lemma QuotientOfNegation(a: real, l: real)
    requires l != 0.0
    ensures (-a) / l == -(a / l) && 0.0 / l == 0.0
  {
  }

  lemma MulNonNegative(a: real, b: real)
    requires 0.0 <= a && 0.0 <= b
    ensures 0.0 <= Mul(a, b)
  {
  }

  lemma MulStrictlyMonotone(a: real, b: real, s: real)
    requires a < b && 0.0 < s
    ensures Mul(a, s) < Mul(b, s)
  {
    assert (b - a) * s > 0.0;
  }
}
