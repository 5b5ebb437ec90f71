/**
 * Facts about floor, ceiling and multiplication on exact reals and integers,
 * stated over plain variables so that the projections can instantiate them.
 */
module Arith {

  /** Math.ceil on exact reals. */
  function Ceil(x: real): (c: int)
    ensures c as real - 1.0 < x <= c as real
  {
    -((-x).Floor)
  }

  lemma MulMonotone(a: real, b: real, u: real)
    requires a <= b && u >= 0.0
    ensures a * u <= b * u
  {
    assert b * u - a * u == (b - a) * u;
  }

  lemma MulStrict(a: real, b: real, u: real)
    requires a < b && u > 0.0
    ensures a * u < b * u
  {
    assert b * u - a * u == (b - a) * u;
  }

  lemma DivMonotone(a: real, b: real, u: real)
    requires a <= b && u > 0.0
    ensures a / u <= b / u
  {
    MulMonotone(a, b, 1.0 / u);
    assert a / u == a * (1.0 / u) && b / u == b * (1.0 / u);
  }

  lemma MulIntMonotone(a: int, b: int, d: int)
    requires a <= b && d >= 0
    ensures a * d <= b * d
  {
    assert b * d - a * d == (b - a) * d;
  }

  /** Integer division by a positive divisor (JS Math.floor of the quotient) is monotone. */
  lemma DivIntMonotone(a: int, b: int, d: int)
    requires a <= b && d > 0
    ensures a / d <= b / d
  {
    var qa, qb := a / d, b / d;
    if qa > qb {
      MulIntMonotone(qb + 1, qa, d);
      assert false;
    }
  }

  /** For u > 0, q = floor(x / u) brackets x between q*u and (q+1)*u. */
  lemma FloorDivBracket(x: real, u: real)
    requires u > 0.0
    ensures (x / u).Floor as real * u <= x
    ensures x < ((x / u).Floor + 1) as real * u
  {
    var q := x / u;
    var n := q.Floor;
    assert q * u == x;
    assert n as real <= q < (n + 1) as real;
    MulMonotone(n as real, q, u);
    MulStrict(q, (n + 1) as real, u);
    assert x < (n + 1) as real * u;
  }

  /** Dividing a non-positive amount by a positive one floors to at most zero, a positive one to at least zero. */
  lemma FloorDivSign(x: real, u: real)
    requires u > 0.0
    ensures x <= 0.0 ==> (x / u).Floor <= 0
    ensures x > 0.0 ==> (x / u).Floor >= 0
  {
    if x <= 0.0 {
      DivMonotone(x, 0.0, u);
    } else {
      DivMonotone(0.0, x, u);
    }
  }

  /** floor((x - c) / u) == floor(x / u) - p when c == u*p for a whole number p. */
  lemma FloorShift(x: real, c: real, u: real, p: int)
    requires u > 0.0 && c == u * p as real
    ensures ((x - c) / u).Floor == (x / u).Floor - p
  {
    assert (x - c) / u == x / u - p as real;
  }

  /** A non-negative amount covers no whole unit of `u` exactly when it is below `u`. */
  lemma FloorDivIsZero(x: real, u: real)
    requires u > 0.0 && x >= 0.0
    ensures (x / u).Floor == 0 <==> x < u
  {
    FloorDivBracket(x, u);
    FloorDivSign(x, u);
    var f := (x / u).Floor;
    if f >= 1 {
      MulMonotone(1.0, f as real, u);
      assert u <= f as real * u <= x;
    } else {
      assert f == 0;
      assert (f + 1) as real * u == u;
    }
  }
}
