/** Facts about products and quotients of reals. Products that meet in a later step are passed under a name, so that the
    solver compares names and not polynomials. */
module Reals {
  function Sq(x: real): real {
    x * x
  }

  function Times(k: real, x: real): real {
    k * x
  }

  lemma MulPos(a: real, b: real, ab: real)
    requires a > 0.0 && b > 0.0 && ab == a * b
    ensures ab > 0.0
  {
  }

  lemma MulNonNeg(a: real, b: real, ab: real)
    requires a >= 0.0 && b >= 0.0 && ab == a * b
    ensures ab >= 0.0
  {
  }

  lemma SquareNegated(d: real, e: real)
    requires e == -d
    ensures Sq(d) == e * e
  {
  }

  lemma SquareSign(d: real)
    ensures Sq(d) >= 0.0
    ensures d != 0.0 ==> Sq(d) > 0.0
    ensures d == 0.0 ==> Sq(d) == 0.0
  {
    if d > 0.0 {
      MulPos(d, d, Sq(d));
    } else if d < 0.0 {
      SquareNegated(d, -d);
      MulPos(-d, -d, Sq(d));
    }
  }

  lemma Distribute(c: real, x: real, y: real, sum: real)
    requires sum == x + y
    ensures c * sum == c * x + c * y && sum * c == x * c + y * c
  {
  }

  lemma Assoc(a: real, b: real, c: real, ab: real, bc: real)
    requires ab == a * b && bc == b * c
    ensures ab * c == a * bc
  {
  }

  lemma MulOrder(a: real, b: real, d: real)
    requires d > 0.0
    ensures a < b <==> a * d < b * d
    ensures a == b <==> a * d == b * d
  {
  }

  lemma IsQuotient(x: real, a: real, d: real)
    requires d != 0.0 && x == a / d
    ensures x * d == a
  {
  }

  lemma Quotient(a: real, b: real, d: real)
    requires d > 0.0
    ensures a < b * d <==> a / d < b
    ensures a > b * d <==> a / d > b
    ensures a == b * d <==> a / d == b
  {
  }

  /** With t = x/e and j = k/d, comparing t and j is comparing xd and ke. */
  lemma CompareThrough(t: real, j: real, e: real, d: real, x: real, k: real)
    requires e > 0.0 && d > 0.0 && t * e == x && j * d == k
    ensures x * d <= k * e ==> t <= j
    ensures x * d == k * e ==> t == j
  {
  }
}
