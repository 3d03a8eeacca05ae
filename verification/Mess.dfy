/** Modified exponential subjective scoring, ECBP-1100: how much heavier a competing branch has to
    be, given the age of the fork (core/blockchain_af.go). */
module Mess {
  import opened Collections

  const DENOMINATOR := 128
  const X_CAP := 25132
  const AMPL := 15
  const HEIGHT := DENOMINATOR * AMPL * 2

  /** The sine approximation 3x^2 - 2x^3/xcap, before scaling. */
  function Curve(x: int): int {
    3 * (x * x) - (2 * (x * x * x)) / X_CAP
  }

  /** The curve function's numerator over DENOMINATOR; division is Euclidean, as in big.Int.Div. */
  function PolynomialV(x: int): int {
    var capped := if x > X_CAP then X_CAP else x;
    DENOMINATOR + Curve(capped) * HEIGHT / (X_CAP * X_CAP)
  }

  lemma Cube(x: int)
    ensures (x + 1) * (x + 1) * (x + 1) == x * x * x + 3 * (x * x) + 3 * x + 1
    ensures (x + 1) * (x + 1) == x * x + 2 * x + 1
  {
  }

  /** Adding d to a dividend raises the quotient by at most k when d fits in k divisors. */
  lemma QuotientStep(a: int, d: int, k: int, c: int)
    requires c > 0 && d <= k * c
    ensures (a + d) / c <= a / c + k
  {
    assert (a + k * c) / c == a / c + k by {
      Shift(a, k, c);
    }
    DivMonotone(a + d, a + k * c, c);
  }

  lemma Shift(a: int, k: int, c: int)
    requires c > 0
    ensures (a + k * c) / c == a / c + k
  {
    var q, r := a / c, a % c;
    assert a + k * c == (q + k) * c + r;
    DivUnique(a + k * c, q + k, r, c);
  }

  lemma NextMultiple(p: int, q: int, c: int)
    requires p > q && c > 0
    ensures p * c >= q * c + c
  {
    assert (p - q - 1) * c >= 0;
    assert p * c == q * c + c + (p - q - 1) * c;
  }

  lemma Division(n: int, c: int) returns (q: int, r: int)
    requires c > 0
    ensures q == n / c && n == q * c + r && 0 <= r < c
  {
    q, r := n / c, n % c;
  }

  lemma DivUnique(n: int, q: int, r: int, c: int)
    requires c > 0 && n == q * c + r && 0 <= r < c
    ensures n / c == q
  {
    var p, s := Division(n, c);
    if p > q {
      NextMultiple(p, q, c);
    } else if p < q {
      NextMultiple(q, p, c);
    }
  }

  lemma DivMonotone(a: int, b: int, c: int)
    requires c > 0 && a <= b
    ensures a / c <= b / c
  {
    var p, r := Division(a, c);
    var q, s := Division(b, c);
    if p > q {
      NextMultiple(p, q, c);
    }
  }

  lemma CurveStep(x: int)
    requires 0 <= x < X_CAP
    ensures Curve(x) <= Curve(x + 1)
  {
    Cube(x);
    var square, cube := x * x, x * x * x;
    Squeeze(x);
    QuotientStep(2 * cube, 6 * square + 6 * x + 2, 6 * x + 3, X_CAP);
  }

  lemma Squeeze(x: int)
    requires 0 <= x < X_CAP
    ensures 6 * (x * x) + 6 * x + 2 <= (6 * x + 3) * X_CAP
  {
    Product(x, X_CAP - 1 - x);
    assert x * (X_CAP - 1 - x) == (X_CAP - 1) * x - x * x;
  }

  lemma {:induction false} CurveMonotone(x: int, y: int)
    requires 0 <= x <= y <= X_CAP
    ensures Curve(x) <= Curve(y)
    decreases y - x
  {
    if x < y {
      CurveStep(x);
      CurveMonotone(x + 1, y);
    }
  }

  lemma Scale(c: int, d: int)
    requires c <= d
    ensures c * HEIGHT / (X_CAP * X_CAP) <= d * HEIGHT / (X_CAP * X_CAP)
  {
    DivMonotone(c * HEIGHT, d * HEIGHT, X_CAP * X_CAP);
  }

  lemma Ends()
    ensures PolynomialV(0) == DENOMINATOR && PolynomialV(X_CAP) == DENOMINATOR + HEIGHT
  {
    assert Curve(X_CAP) == X_CAP * X_CAP;
  }

  /** Older forks need at least as much weight. */
  lemma VMonotone(x: int, y: int)
    requires 0 <= x <= y
    ensures PolynomialV(x) <= PolynomialV(y)
  {
    var x', y' := if x > X_CAP then X_CAP else x, if y > X_CAP then X_CAP else y;
    CurveMonotone(x', y');
    Scale(Curve(x'), Curve(y'));
  }

  /** The factor runs from one at age zero to thirty-one at the cap and stays there. */
  lemma VRange(x: int)
    ensures PolynomialV(x) >= DENOMINATOR
    ensures x >= 0 ==> PolynomialV(x) <= DENOMINATOR + HEIGHT
    ensures x >= X_CAP ==> PolynomialV(x) == DENOMINATOR + HEIGHT
  {
    Ends();
    if x >= 0 {
      VMonotone(0, x);
      VMonotone(x, if x > X_CAP then x else X_CAP);
    } else {
      NegativeCube(x);
      DivMonotone(2 * (x * x * x), 0, X_CAP);
      Scale(0, Curve(x));
    }
  }

  /** The ideal curve HEIGHT * (3x^2 c - 2x^3) / c^3, times c^3. */
  function Ideal(x: int): int {
    HEIGHT * (3 * (x * x) * X_CAP - 2 * (x * x * x))
  }

  lemma CurveIdeal(x: int)
    ensures 3 * (x * x) * X_CAP - 2 * (x * x * x) <= Curve(x) * X_CAP < 3 * (x * x) * X_CAP - 2 * (x * x * x) + X_CAP
  {
    var q, r := Division(2 * (x * x * x), X_CAP);
  }

  /** Both divisions together stay within one of the ideal curve, at every age up to the cap and at
      negative ages. */
  lemma VIdeal(x: int)
    requires x <= X_CAP
    ensures var c3 := X_CAP * X_CAP * X_CAP;
            Ideal(x) - c3 < c3 * (PolynomialV(x) - DENOMINATOR) < Ideal(x) + HEIGHT * X_CAP
  {
    CurveIdeal(x);
    var n, c2 := Curve(x) * HEIGHT, X_CAP * X_CAP;
    var q, r := Division(n, c2);
    assert PolynomialV(x) - DENOMINATOR == q;
    assert X_CAP * n == HEIGHT * (Curve(x) * X_CAP);
    assert c2 * X_CAP * q == X_CAP * n - X_CAP * r;
  }

  /** Halfway to the cap the curve is halfway up, and it is symmetric about that point up to one. */
  lemma VSymmetric(x: int)
    requires 0 <= x <= X_CAP
    ensures PolynomialV(X_CAP / 2) == DENOMINATOR + HEIGHT / 2
    ensures 2 * DENOMINATOR + HEIGHT - 1 <= PolynomialV(x) + PolynomialV(X_CAP - x) <= 2 * DENOMINATOR + HEIGHT
  {
    hide PolynomialV;
    VIdeal(X_CAP / 2);
    VIdeal(x);
    VIdeal(X_CAP - x);
    Mirror(x);
  }

  lemma Mirror(x: int)
    ensures Ideal(x) + Ideal(X_CAP - x) == HEIGHT * (X_CAP * X_CAP * X_CAP)
  {
    var y := X_CAP - x;
    assert y * y == X_CAP * X_CAP - 2 * X_CAP * x + x * x;
    assert y * y * y == X_CAP * (X_CAP * X_CAP) - 3 * (X_CAP * X_CAP) * x + 3 * X_CAP * (x * x) - x * x * x;
  }

  lemma NegativeCube(x: int)
    requires x < 0
    ensures x * x > 0 && x * x * x < 0
  {
  }

  /** Whether the branch is heavy enough: subchain difficulties are measured from the fork block. */
  predicate Accepts(age: int, localTd: int, proposedTd: int) {
    proposedTd * DENOMINATOR >= PolynomialV(age) * localTd
  }

  /** An accepted branch is at least as heavy as the local one; one thirty-one times as heavy is
      accepted at any age; past the cap exactly those are; at age zero any as heavy branch is, and
      halfway to the cap any sixteen times as heavy. */
  lemma AcceptanceBounds(age: int, localTd: nat, proposedTd: int)
    ensures Accepts(age, localTd, proposedTd) ==> proposedTd >= localTd
    ensures age >= 0 && proposedTd >= 31 * localTd ==> Accepts(age, localTd, proposedTd)
    ensures age >= X_CAP ==> (Accepts(age, localTd, proposedTd) <==> proposedTd >= 31 * localTd)
    ensures age == 0 ==> (Accepts(age, localTd, proposedTd) <==> proposedTd >= localTd)
    ensures age == X_CAP / 2 ==> (Accepts(age, localTd, proposedTd) <==> proposedTd >= 16 * localTd)
  {
    hide PolynomialV;
    VRange(age);
    VSymmetric(0);
    Ends();
    MulMonotone(DENOMINATOR, PolynomialV(age), localTd);
    if age >= 0 {
      MulMonotone(PolynomialV(age), DENOMINATOR + HEIGHT, localTd);
    }
  }

  lemma MulMonotone(a: int, b: int, k: nat)
    requires a <= b
    ensures a * k <= b * k
  {
  }

  /** More weight, a younger fork or a lighter local branch never turns acceptance into rejection. */
  lemma AcceptanceMonotone(age: nat, age': nat, localTd: nat, localTd': nat, proposedTd: int, proposedTd': int)
    requires age' <= age && localTd' <= localTd && proposedTd <= proposedTd' && Accepts(age, localTd, proposedTd)
    ensures Accepts(age', localTd', proposedTd')
  {
    hide PolynomialV;
    VMonotone(age', age);
    VRange(age');
    MulMonotone(PolynomialV(age'), PolynomialV(age), localTd);
    MulMonotone(localTd', localTd, PolynomialV(age'));
  }
}
