/** Facts about division and products that several modules need. */
module Arithmetic {

  lemma MulStrict(b: nat, x: int, y: int)
    ensures x < y ==> b * x + b <= b * y
  {
    var d := y - x - 1;
    assert b * (x + 1 + d) == b * x + b + b * d;
    if d >= 0 {
      assert b * d >= 0;
    }
  }

  lemma DivBounds(x: nat, b: nat)
    requires b > 0
    ensures b * (x / b) <= x < b * (x / b) + b
  {
  }

  lemma DivUnique(x: nat, b: nat, q: nat)
    requires b > 0 && b * q <= x < b * q + b
    ensures x / b == q
  {
    DivBounds(x, b);
    MulStrict(b, x / b, q);
    MulStrict(b, q, x / b);
  }

  lemma Distribute(b: int, p: int, q: int)
    ensures b * (p + q) == b * p + b * q
  {
  }

  /** `x == b * p + r` and `y == b * q + s` add up to one quotient or the next. */
  lemma DivOfSum(x: nat, y: nat, b: nat, p: nat, q: nat)
    requires b > 0 && b * p <= x < b * p + b && b * q <= y < b * q + b
    ensures p + q <= (x + y) / b <= p + q + 1
  {
    Distribute(b, p, q);
    Distribute(b, p + q, 1);
    if x + y < b * (p + q) + b {
      DivUnique(x + y, b, p + q);
    } else {
      DivUnique(x + y, b, p + q + 1);
    }
  }

  /** Floor division of a sum. */
  lemma DivSum(x: nat, y: nat, b: nat)
    requires b > 0
    ensures x / b + y / b <= (x + y) / b <= x / b + y / b + 1
  {
    DivBounds(x, b);
    DivBounds(y, b);
    DivOfSum(x, y, b, x / b, y / b);
  }

  lemma RealDivTimes(y: real, t: real)
    requires t != 0.0
    ensures y / t * t == y
  {
  }

  lemma RealQuotient(x: real, y: real, t: real)
    requires t != 0.0 && x * t == y
    ensures x == y / t
  {
  }

  lemma RealDivSum(a: real, b: real, t: real)
    requires t != 0.0
    ensures (a + b) / t == a / t + b / t
    ensures (a - b) / t == a / t - b / t
  {
  }

  lemma RealDivMonotone(a: real, b: real, t: real)
    requires t > 0.0 && a <= b
    ensures a / t <= b / t
  {
  }

  lemma SquareMonotone(a: real, b: real)
    requires 0.0 <= a <= b
    ensures a * a <= b * b
  {
  }

  /** Comparing a square of a quotient with a quotient. */
  lemma SquareOfQuotient(x: real, y: real, t: real)
    requires t > 0.0 && x * x <= t * y
    ensures (x / t) * (x / t) <= y / t
  {
    var e := x / t;
    RealDivTimes(x, t);
    assert (e * t) * x == x * x;
    assert (e * x) * t == x * x;
    assert e * x > y ==> (e * x) * t > y * t;
    RealDivMonotone(e * x, y, t);
    assert (e * x) / t == e * e by {
      assert (e * e) * t == e * (e * t);
      RealQuotient(e * e, e * x, t);
    }
  }
}
