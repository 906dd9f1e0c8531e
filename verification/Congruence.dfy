/** Congruence of integers modulo a positive number, each law proved from explicit quotients. */
module Congruence {

  ghost predicate Cong(a: int, b: int, m: int)
    requires m > 0
  {
    a % m == b % m
  }

  lemma DivModOf(x: int, m: int)
    requires m > 0
    ensures x == (x / m) * m + x % m && 0 <= x % m < m
  {
  }

  lemma MulMonotone(a: int, b: int, c: int)
    requires a <= b && 0 <= c
    ensures a * c <= b * c
  {
  }

  /** Quotient and remainder are determined by their defining equation. */
  lemma DivModUnique(x: int, m: int, q: int, r: int)
    requires m > 0 && x == q * m + r && 0 <= r < m
    ensures x / m == q && x % m == r
  {
    DivModOf(x, m);
    var q', r' := x / m, x % m;
    assert (q - q') * m == r' - r;
    if q > q' {
      MulMonotone(1, q - q', m);
    } else if q < q' {
      MulMonotone(q - q', -1, m);
    }
  }

  lemma CongIntro(a: int, b: int, k: int, m: int)
    requires m > 0 && a == b + k * m
    ensures Cong(a, b, m)
  {
    DivModOf(b, m);
    assert (b / m + k) * m == (b / m) * m + k * m;
    DivModUnique(a, m, b / m + k, b % m);
  }

  lemma CongQuotient(a: int, b: int, m: int) returns (k: int)
    requires m > 0 && Cong(a, b, m)
    ensures a == b + k * m
  {
    DivModOf(a, m);
    DivModOf(b, m);
    k := a / m - b / m;
    assert k * m == (a / m) * m - (b / m) * m;
  }

  lemma CongMod(a: int, m: int)
    requires m > 0
    ensures Cong(a % m, a, m)
  {
    DivModOf(a, m);
    CongIntro(a, a % m, a / m, m);
  }

  lemma CongSym(a: int, b: int, m: int)
    requires m > 0 && Cong(a, b, m)
    ensures Cong(b, a, m)
  {
  }

  lemma CongZero(a: int, m: int)
    requires m > 0
    ensures Cong(a, 0, m) <==> a % m == 0
  {
    DivModUnique(0, m, 0, 0);
  }

  lemma CongTrans(a: int, b: int, c: int, m: int)
    requires m > 0 && Cong(a, b, m) && Cong(b, c, m)
    ensures Cong(a, c, m)
  {
  }

  lemma CongAdd(a: int, a': int, b: int, b': int, m: int)
    requires m > 0 && Cong(a, a', m) && Cong(b, b', m)
    ensures Cong(a + b, a' + b', m)
  {
    var k := CongQuotient(a, a', m);
    var l := CongQuotient(b, b', m);
    assert (k + l) * m == k * m + l * m;
    CongIntro(a + b, a' + b', k + l, m);
  }

  lemma CongSub(a: int, a': int, b: int, b': int, m: int)
    requires m > 0 && Cong(a, a', m) && Cong(b, b', m)
    ensures Cong(a - b, a' - b', m)
  {
    var k := CongQuotient(a, a', m);
    var l := CongQuotient(b, b', m);
    assert (k - l) * m == k * m - l * m;
    CongIntro(a - b, a' - b', k - l, m);
  }

  /** A congruence also holds modulo a divisor of its modulus. */
  lemma CongDivisor(a: int, b: int, m: int, big: int)
    requires m > 0 && m * big > 0 && Cong(a, b, m * big)
    ensures Cong(a, b, m)
  {
    var k := CongQuotient(a, b, m * big);
    assert k * (m * big) == k * big * m;
    CongIntro(a, b, k * big, m);
  }

  lemma CongMul(a: int, a': int, b: int, b': int, m: int)
    requires m > 0 && Cong(a, a', m) && Cong(b, b', m)
    ensures Cong(a * b, a' * b', m)
  {
    var k := CongQuotient(a, a', m);
    var l := CongQuotient(b, b', m);
    ProductQuotient(a, a', k, b, b', l, m);
    CongIntro(a * b, a' * b', a' * l + k * b, m);
  }

  lemma ProductQuotient(a: int, a': int, k: int, b: int, b': int, l: int, m: int)
    requires a == a' + k * m && b == b' + l * m
    ensures a * b == a' * b' + (a' * l + k * b) * m
  {
    calc {
      a * b;
      (a' + k * m) * b;
      a' * b + (k * m) * b;
      { assert (k * m) * b == (k * b) * m; assert a' * (b' + l * m) == a' * b' + a' * (l * m); }
      a' * b' + a' * (l * m) + (k * b) * m;
      { assert a' * (l * m) == (a' * l) * m; assert (a' * l + k * b) * m == (a' * l) * m + (k * b) * m; }
      a' * b' + (a' * l + k * b) * m;
    }
  }

  /** A factor on both sides. */
  lemma CongScale(a: int, b: int, c: int, m: int)
    requires m > 0 && Cong(a, b, m)
    ensures Cong(c * a, c * b, m) && Cong(a * c, b * c, m)
  {
    CongMul(c, c, a, b, m);
    CongMul(a, b, c, c, m);
  }

  /** Congruent numbers in range are equal. */
  lemma CongSmall(a: int, b: int, m: int)
    requires m > 0 && Cong(a, b, m) && 0 <= a < m && 0 <= b < m
    ensures a == b
  {
    DivModUnique(a, m, 0, a);
    DivModUnique(b, m, 0, b);
  }

  /** A factor with an inverse can be cancelled. */
  lemma CongCancel(a: int, b: int, c: int, inverse: int, m: int)
    requires m > 0 && Cong(a * c, b * c, m) && Cong(c * inverse, 1, m)
    ensures Cong(a, b, m)
  {
    CongScale(a * c, b * c, inverse, m);
    CongScale(c * inverse, 1, a, m);
    CongScale(c * inverse, 1, b, m);
    assert a * c * inverse == a * (c * inverse) && b * c * inverse == b * (c * inverse);
  }

  ghost function Power(a: int, e: nat): int {
    if e == 0 then 1 else a * Power(a, e - 1)
  }

  lemma {:induction false} PowerAdd(a: int, d: nat, e: nat)
    ensures Power(a, d + e) == Power(a, d) * Power(a, e)
  {
    if d > 0 {
      PowerAdd(a, d - 1, e);
      assert Power(a, d + e) == a * Power(a, d - 1 + e);
      assert a * (Power(a, d - 1) * Power(a, e)) == a * Power(a, d - 1) * Power(a, e);
    }
  }

  lemma {:induction false} CongPower(a: int, b: int, e: nat, m: int)
    requires m > 0 && Cong(a, b, m)
    ensures Cong(Power(a, e), Power(b, e), m)
  {
    if e > 0 {
      CongPower(a, b, e - 1, m);
      CongMul(a, b, Power(a, e - 1), Power(b, e - 1), m);
    }
  }
}
