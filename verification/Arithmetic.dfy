/** Facts about products and quotients that the solver is better told. */
module Arithmetic {
  lemma MulMono(a: int, b: int, d: int)
    requires d >= 0
    ensures a <= b ==> a * d <= b * d
  {}

  lemma QuotientNotNegative(n: nat, d: nat)
    requires d > 0
    ensures n / d >= 0
  {}

  /** A place in a table of rows of `stride` entries tells the row and the place in it. */
  lemma IndexIsInjective(stride: nat, c1: nat, r1: nat, c2: nat, r2: nat)
    requires c1 < stride && c2 < stride && c1 + r1 * stride == c2 + r2 * stride
    ensures c1 == c2 && r1 == r2
  {
    MulMono(r1 + 1, r2, stride);
    MulMono(r2 + 1, r1, stride);
  }

  lemma QuotientIs(n: int, d: int, k: int)
    requires d > 0 && k * d <= n < k * d + d
    ensures n / d == k
  {
    MulMono(n / d + 1, k, d);
    MulMono(k + 1, n / d, d);
  }

  lemma ProductPositive(a: int, b: int)
    requires a > 0 && b > 0
    ensures a * b > 0
  {}

  lemma NextMultiple(n: int, d: int)
    ensures (n + 1) * d == n * d + d
  {}

  lemma SquareMono(a: int, b: int)
    requires 0 <= a
    ensures a <= b ==> a * a <= b * b
  {
    MulMono(a, b, a);
    if a <= b {
      MulMono(a, b, b);
    }
  }

  /** v * v - v grows with v >= 1. */
  lemma PronicMono(a: int, b: int)
    requires 1 <= a
    ensures a <= b ==> a * a - a <= b * b - b
  {
    if a <= b {
      MulMono(a, b, a - 1);
      MulMono(a - 1, b - 1, b);
      assert a * (a - 1) == a * a - a && b * (b - 1) == b * b - b;
    }
  }

  /** The C++ quotient: truncated toward zero. */
  function Quot(n: int, d: int): int
    requires d > 0
  {
    if n >= 0 then n / d else -((-n) / d)
  }

  lemma DivisionRest(n: int, d: int)
    requires d > 0
    ensures n / d * d <= n < n / d * d + d
  {}

  lemma QuotBounds(n: int, d: int)
    requires d > 0
    ensures n >= 0 ==> 0 <= Quot(n, d) && Quot(n, d) * d <= n < Quot(n, d) * d + d
    ensures n < 0 ==> Quot(n, d) <= 0 && Quot(n, d) * d - d < n <= Quot(n, d) * d
  {
    hide Quot;
    if n >= 0 {
      QuotOfPositive(n, d);
    } else {
      QuotOfNegative(n, d);
    }
  }

  lemma QuotOfPositive(n: nat, d: int)
    requires d > 0
    ensures 0 <= Quot(n, d) && Quot(n, d) * d <= n < Quot(n, d) * d + d
  {
    DivisionRest(n, d);
  }

  lemma QuotOfNegative(n: int, d: int)
    requires d > 0 && n < 0
    ensures Quot(n, d) <= 0 && Quot(n, d) * d - d < n <= Quot(n, d) * d
  {
    var k := (-n) / d;
    DivisionRest(-n, d);
    Negated(k, d);
    assert Quot(n, d) == -k;
  }

  lemma ProductOrder(a: int, b: int, d: int)
    requires d > 0 && a * d < b * d
    ensures a < b
  {
    MulMono(b, a, d);
  }

  lemma QuotMirrored(n: int, d: int)
    requires d > 0
    ensures Quot(-n, d) == -Quot(n, d)
  {}

  lemma Negated(a: int, b: int)
    ensures (-a) * b == -(a * b)
  {}

  /** The part t of d of a distance e. */
  lemma QuotOfFraction(e: nat, t: int, d: int)
    requires 0 <= t <= d && d > 0
    ensures 0 <= Quot(e * t, d) <= e
    ensures t == 0 ==> Quot(e * t, d) == 0
    ensures t == d ==> Quot(e * t, d) == e
  {
    MulMono(0, e, t);
    MulMono(t, d, e);
    assert e * t == t * e && e * d == d * e;
    QuotBounds(e * t, d);
    ProductOrder(Quot(e * t, d), e + 1, d);
    if t == d {
      QuotientIs(e * t, d, e);
    }
  }

  lemma QuotOfSignedFraction(e: int, t: int, d: int)
    requires 0 <= t <= d && d > 0
    ensures if e >= 0 then 0 <= Quot(e * t, d) <= e else e <= Quot(e * t, d) <= 0
    ensures t == 0 ==> Quot(e * t, d) == 0
    ensures t == d ==> Quot(e * t, d) == e
  {
    if e >= 0 {
      QuotOfFraction(e, t, d);
    } else {
      QuotOfFraction(-e, t, d);
      Negated(e, t);
      QuotMirrored(e * t, d);
    }
  }
}
