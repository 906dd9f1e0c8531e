/** Montgomery multiplication, bignum_core.c. */
module MpiMont {
  import opened Bits
  import opened Congruence
  import opened MpiLimbs
  import opened MpiCore

  // ---- the Montgomery constant by Newton's iteration ----

  /** mm is -1/n0 modulo BASE. */
  ghost predicate IsMontConstant(mm: Limb, n0: Limb) {
    (mm * n0 + 1) % BASE == 0
  }

  /** x is an inverse of n0 modulo 2^k. */
  ghost predicate InverseTo(x: int, n0: int, k: nat) {
    Cong(x * n0, 1, Pow2(k))
  }

  /** The lowest bits: n0 plus 8 times bit 2 of n0 + 2 inverts n0 modulo 16. */
  lemma FirstGuess(n0: Limb)
    requires n0 % 2 == 1
    ensures InverseTo(Guess(n0), n0, 4)
  {
    hide Wrap, Cong, Guess;
    Pow2Four();
    var lo, b := LowBits(n0);
    WrapLow(n0 as int + 8 * b, 4);
    GuessTable(lo, b);
    GuessInverts(n0, lo, b, Guess(n0));
  }

  lemma LowBits(n0: Limb) returns (lo: int, b: int)
    requires n0 % 2 == 1
    ensures lo in {1, 3, 5, 7, 9, 11, 13, 15} && b == ((lo + 2) / 4) % 2
    ensures Cong(n0, lo, 16) && Guess(n0) == Wrap(n0 as int + 8 * b)
  {
    hide Wrap, Cong, Pow2;
    var n: int := n0;
    lo := n % 16;
    b := ((lo + 2) / 4) % 2;
    OddResidue(n);
    CongMod(n, 16);
    CongSym(lo, n, 16);
    BitAsGuessed(n);
  }

  lemma OddResidue(n: int)
    requires n % 2 == 1
    ensures n % 16 in {1, 3, 5, 7, 9, 11, 13, 15}
  {
    var q, r := n / 16, n % 16;
    assert n == 2 * (8 * q) + r;
    assert r % 2 == 1;
  }

  lemma GuessInverts(n: int, lo: int, b: int, x: int)
    requires Cong(n, lo, 16) && Cong(x, n + 8 * b, 16) && Cong((lo + 8 * b) * lo, 1, 16)
    ensures Cong(x * n, 1, 16)
  {
    hide Cong;
    CongAdd(n, lo, 8 * b, 8 * b, 16);
    CongTrans(x, n + 8 * b, lo + 8 * b, 16);
    CongMul(x, lo + 8 * b, n, lo, 16);
    CongTrans(x * n, (lo + 8 * b) * lo, 1, 16);
  }

  lemma BitAsGuessed(n: int)
    ensures (Wrap(n + 2) / 4) % 2 == ((n % 16 + 2) / 4) % 2
  {
    hide Wrap;
    CongMod(n, 16);
    Pow2Four();
    CongSym(n % 16, n, 16);
    CongAdd(n, n % 16, 2, 2, 16);
    WrapLow(n + 2, 4);
    CongTrans(Wrap(n + 2), n + 2, n % 16 + 2, 16);
    BitTwo(Wrap(n + 2), n % 16 + 2);
  }

  function Guess(n0: Limb): Limb {
    Wrap(n0 as int + 8 * ((Wrap(n0 as int + 2) / 4) % 2))
  }

  lemma GuessTable(lo: int, b: int)
    requires lo in {1, 3, 5, 7, 9, 11, 13, 15} && b == ((lo + 2) / 4) % 2
    ensures Cong((lo + 8 * b) * lo, 1, 16)
  {
  }

  lemma BitTwo(x: int, y: int)
    requires Cong(x, y, 16)
    ensures (x / 4) % 2 == (y / 4) % 2
  {
    BitTwoOf(x);
    BitTwoOf(y);
  }

  lemma BitTwoOf(x: int)
    ensures (x / 4) % 2 == ((x % 16) / 4) % 2
  {
    var a, r := x / 16, x % 16;
    DivModUnique(x, 4, 4 * a + r / 4, r % 4);
    DivModUnique(4 * a + r / 4, 2, 2 * a + r / 8, (r / 4) % 2);
  }

  lemma Pow2Four()
    ensures Pow2(4) == 16
  {
    assert Pow2(2) == 4;
    Pow2Add(2, 2);
  }

  /** Wrapping keeps the low bits. */
  lemma WrapLow(x: int, k: nat)
    requires k <= biL
    ensures Cong(Wrap(x), x, Pow2(k))
  {
    hide Wrap, Cong;
    WrapCong(x);
    Pow2Add(k, biL - k);
    CongDivisor(Wrap(x), x, Pow2(k), Pow2(biL - k));
  }

  /** A Newton step doubles the number of bits for which x inverts n0. */
  lemma NewtonStep(x: Limb, n0: Limb, k: nat)
    requires InverseTo(x, n0, k) && 2 * k <= biL
    ensures InverseTo(Newton(x, n0), n0, 2 * k)
  {
    hide Wrap, Cong, Pow2;
    var m := Pow2(2 * k);
    var xi: int, n: int := x, n0;
    var y: int := Wrap(n * xi);
    var e: int := Wrap(2 - y);
    WrapLow(n * xi, 2 * k);
    CongSub(2, 2, y, n * xi, m);
    WrapLow(2 - y, 2 * k);
    CongTrans(e, 2 - y, 2 - n * xi, m);
    CongScale(e, 2 - n * xi, xi, m);
    WrapLow(xi * e, 2 * k);
    CongTrans(Newton(x, n0), xi * e, xi * (2 - n * xi), m);
    CongScale(Newton(x, n0), xi * (2 - n * xi), n, m);
    Defect(xi, n, k);
    CongTrans(Newton(x, n0) as int * n, xi * (2 - n * xi) * n, 1, m);
  }

  function Newton(x: Limb, n0: Limb): Limb {
    Wrap(x as int * Wrap(2 - Wrap(n0 as int * x)))
  }

  /** What is missing from 1 is squared. */
  lemma Defect(x: int, n: int, k: nat)
    requires Cong(x * n, 1, Pow2(k))
    ensures Cong(x * (2 - n * x) * n, 1, Pow2(2 * k))
  {
    hide Cong, Pow2;
    var q := CongQuotient(x * n, 1, Pow2(k));
    Pow2Add(k, k);
    SquareDefect(x, n, q, Pow2(k));
    CongIntro(x * (2 - n * x) * n, 1, -q * q, Pow2(2 * k));
  }

  lemma SquareDefect(x: int, n: int, q: int, p: int)
    requires x * n == 1 + q * p
    ensures x * (2 - n * x) * n == 1 + (-q * q) * (p * p)
  {
    var y := x * n;
    assert x * (2 - n * x) * n == y * (2 - y);
    var d := q * p;
    assert (1 + d) * (1 - d) == 1 - d * d;
    assert d * d == q * q * (p * p);
  }

  /** The Montgomery constant of an odd modulus, from its lowest limb. */
  method MontMulInit(N: Span) returns (mm: Limb)
    requires N.Valid() && N.len > 0 && N.Limbs()[0] % 2 == 1
    ensures IsMontConstant(mm, N.Limbs()[0])
  {
    hide InverseTo, Pow2, IsMontConstant, Guess, Newton;
    var n0 := N.buf[N.off];
    assert n0 == N.Limbs()[0];
    var x: Limb := Guess(n0);
    FirstGuess(n0);
    ghost var k: nat := 4;
    var i: nat := biL;
    while i >= 8
      invariant i * k == 4 * biL && i in {4, 8, 16, 32, 64}
      invariant InverseTo(x, n0, k)
    {
      NewtonStep(x, n0, k);
      x, k, i := Newton(x, n0), 2 * k, i / 2;
    }
    mm := Wrap(-(x as int));
    NegatedInverse(x, n0, mm);
  }

  lemma NegatedInverse(x: Limb, n0: Limb, mm: Limb)
    requires InverseTo(x, n0, biL) && mm == Wrap(-(x as int))
    ensures IsMontConstant(mm, n0)
  {
    hide Wrap, Cong, Pow2;
    var y: int, n: int, m: int := x, n0, mm;
    assert Cong(m, -y, BASE) by { WrapCong(-y); }
    CongScale(m, -y, n, BASE);
    NegatedProduct(y, n);
    NegatedOne(m * n, y * n);
    CongZero(m * n + 1, BASE);
  }

  lemma NegatedProduct(y: int, n: int)
    ensures -y * n == -(y * n)
  {
  }

  lemma NegatedOne(q: int, p: int)
    requires Cong(q, -p, BASE) && Cong(p, 1, BASE)
    ensures Cong(q + 1, 0, BASE)
  {
    hide Cong, Pow2;
    CongAdd(q, -p, 1, 1, BASE);
    CongSub(1, 1, p, 1, BASE);
    CongTrans(q + 1, -p + 1, 0, BASE);
  }

  // ---- Montgomery multiplication ----

  /** r is the Montgomery product of a and b: reduced below n, and r * R is a * b modulo n. */
  ghost predicate IsMontProduct(r: int, a: int, b: int, n: int, R: int)
    requires n > 0
  {
    0 <= r < n && Cong(r * R, a * b, n)
  }

  /** The multiplier that makes the lowest limb of t + u0 * b + u1 * n vanish. */
  function Multiplier(t0: Limb, u0: Limb, b0: Limb, mm: Limb): Limb {
    Wrap(Wrap(t0 as int + Wrap(u0 as int * b0)) as int * mm)
  }

  lemma MultiplierClears(t: int, t0: Limb, u0: Limb, b: int, b0: Limb, n: int, n0: Limb, mm: Limb)
    requires IsMontConstant(mm, n0)
    requires Cong(t, t0, BASE) && Cong(b, b0, BASE) && Cong(n, n0, BASE)
    ensures Cong(t + u0 * b + Multiplier(t0, u0, b0, mm) * n, 0, BASE)
  {
    hide Wrap, Cong;
    var u1: int := Multiplier(t0, u0, b0, mm);
    var s := t + u0 * b;
    var inner: int := Wrap(t0 as int + Wrap(u0 as int * b0));
    assert Cong(inner, s, BASE) by {
      CongScale(b0, b, u0, BASE) by { CongSym(b, b0, BASE); }
      CongSym(t, t0, BASE);
      WrapCong(u0 as int * b0);
      CongTrans(Wrap(u0 as int * b0), u0 as int * b0, u0 as int * b, BASE);
      CongAdd(t0, t, Wrap(u0 as int * b0), u0 as int * b, BASE);
      WrapCong(t0 as int + Wrap(u0 as int * b0));
      CongTrans(inner, t0 as int + Wrap(u0 as int * b0), s, BASE);
    }
    assert Cong(u1, s * mm, BASE) by {
      WrapCong(inner * mm);
      CongScale(inner, s, mm, BASE);
      CongTrans(u1, inner * mm, s * mm, BASE);
    }
    Clears(s, u1, n, n0, mm);
  }

  lemma Gathered(s: int, mm: int, n0: int)
    ensures s + s * mm * n0 == s * (mm * n0 + 1)
  {
  }

  lemma Clears(s: int, u1: int, n: int, n0: Limb, mm: Limb)
    requires IsMontConstant(mm, n0)
    requires Cong(u1, s * mm, BASE) && Cong(n, n0, BASE)
    ensures Cong(s + u1 * n, 0, BASE)
  {
    hide Cong;
    CongMul(u1, s * mm, n, n0, BASE);
    CongAdd(s, s, u1 * n, s * mm * n0, BASE);
    CongZero(mm * n0 + 1, BASE);
    CongScale(mm * n0 + 1, 0, s, BASE);
    Gathered(s, mm, n0);
    CongTrans(s + u1 * n, s * (mm * n0 + 1), s * 0, BASE);
  }

  lemma LowLimbCong(s: seq<Limb>)
    requires |s| > 0
    ensures Cong(Value(s), s[0], BASE)
  {
    hide Cong, Value;
    ValueLow(s);
    CongIntro(Value(s), s[0], Value(s[1..]), BASE);
  }

  /** Both products fit: no carry leaves the accumulator. */
  lemma NoCarryOut(t: nat, u0: Limb, b: nat, u1: Limb, n: nat, limbs: nat)
    requires t < n + b && n < Radix(limbs) && b < Radix(limbs)
    ensures 0 <= t + u0 * b <= t + u0 * b + u1 * n < (n + b) * BASE
    ensures t + u0 * b + u1 * n < Radix(limbs + 2)
  {
    hide Radix;
    StepShrinks(t, u0, b, u1, n);
    TwoLimbsSpare(limbs);
    Bounded(n + b, 2 * Radix(limbs));
  }

  lemma Bounded(x: int, y: int)
    requires x <= y
    ensures x * BASE <= y * BASE
  {
    BaseBig();
  }

  lemma StepShrinks(t: nat, u0: int, b: nat, u1: int, n: nat)
    requires t < n + b && 0 <= u0 < BASE && 0 <= u1 < BASE
    ensures 0 <= t + u0 * b <= t + u0 * b + u1 * n < (n + b) * BASE
  {
    MulMonotone(u0, BASE - 1, b);
    MulMonotone(u1, BASE - 1, n);
    MulNonneg(u0, b);
    MulNonneg(u1, n);
    MulDistrib(BASE, -1, b);
    MulDistrib(BASE, -1, n);
    Shared(n, b);
  }

  lemma Shared(n: int, b: int)
    ensures (n + b) * BASE == BASE * n + BASE * b
  {
  }

  lemma TwoLimbsSpare(limbs: nat)
    ensures 2 * Radix(limbs) * BASE <= Radix(limbs + 2)
  {
    BaseBig();
    RadixAdd(2, limbs);
    RadixTwo();
    TwiceFits(Radix(limbs), BASE);
  }

  lemma RadixTwo()
    ensures Radix(2) == BASE * BASE
  {
    assert Radix(1) == BASE * Radix(0);
  }

  lemma TwiceFits(r: int, base: int)
    requires r >= 1 && base >= 2
    ensures 2 * r * base <= base * base * r
  {
    MulMonotone(2, base, r * base);
    assert base * (r * base) == base * base * r;
  }

  lemma CarryZero(x: nat, c: int, total: nat, r: nat)
    requires x + c * r == total < r && c >= 0
    ensures c == 0
  {
    if c >= 1 {
      MulMonotone(1, c, r);
    }
  }

  /** D := D + u0 * B + u1 * N, which leaves the lowest limb of D zero and carries nothing out. */
  method Accumulate(D: Span, u0: Limb, B: Span, N: Span, mm: Limb) returns (u1: Limb)
    requires D.Valid() && B.Valid() && N.Valid()
    requires 0 < B.len <= N.len && D.len == N.len + 2
    requires D.Apart(B) && D.Apart(N)
    requires IsMontConstant(mm, N.Limbs()[0])
    requires D.Num() < N.Num() + B.Num()
    modifies D.buf
    ensures D.Num() == old(D.Num()) + u0 * old(B.Num()) + u1 * old(N.Num())
    ensures D.Num() < (old(N.Num()) + old(B.Num())) * BASE
    ensures D.Limbs()[0] == 0
    ensures OnlyChanges(D)
  {
    hide Value, Radix, Multiplier, IsMontConstant, Pow2, Cong, Min;
    ghost var d, b, n := D.Limbs(), B.Limbs(), N.Limbs();
    u1 := Multiplier(D.buf[D.off], u0, B.buf[B.off], mm);
    ShorterFits(b, n);
    NoCarryOut(Value(d), u0, Value(b), u1, Value(n), N.len);
    MinTakesAll(b, D.len);
    MinTakesAll(n, D.len);
    var c := MulAdd(D, B, u0);
    CarryZero(D.Num(), c, Value(d) + u0 * Value(b), Radix(D.len));
    assert N.Limbs() == n;
    c := MulAdd(D, N, u1);
    CarryZero(D.Num(), c, Value(d) + u0 * Value(b) + u1 * Value(n), Radix(D.len));
    LowLimbCleared(d, u0, b, n, mm, D.Limbs());
  }

  lemma MinTakesAll(s: seq<Limb>, len: nat)
    requires |s| <= len
    ensures Min(|s|, len) == |s| && s[..Min(|s|, len)] == s
  {
  }

  lemma LowLimbCleared(d: seq<Limb>, u0: Limb, b: seq<Limb>, n: seq<Limb>, mm: Limb, x: seq<Limb>)
    requires |d| > 0 && |b| > 0 && |n| > 0 && |x| > 0
    requires IsMontConstant(mm, n[0])
    requires Value(x) == Value(d) + u0 * Value(b) + Multiplier(d[0], u0, b[0], mm) * Value(n)
    ensures x[0] == 0
  {
    hide Cong, Value, IsMontConstant, Multiplier;
    LowLimbCong(d);
    LowLimbCong(b);
    LowLimbCong(n);
    MultiplierClears(Value(d), d[0], u0, Value(b), b[0], Value(n), n[0], mm);
    LowLimbZero(x);
  }

  lemma ShorterFits(b: seq<Limb>, n: seq<Limb>)
    requires |b| <= |n|
    ensures Value(b) < Radix(|n|) && Value(n) < Radix(|n|)
  {
    hide Radix, Value;
    ValueBound(b);
    ValueBound(n);
    RadixAdd(|b|, |n| - |b|);
    MulMonotone(1, Radix(|n| - |b|), Radix(|b|));
  }

  lemma LowLimbZero(s: seq<Limb>)
    requires |s| > 0 && Cong(Value(s), 0, BASE)
    ensures s[0] == 0
  {
    LowLimbCong(s);
    CongSmall(s[0], 0, BASE);
  }

  /** After i steps the accumulator, which starts at limb i of t, times BASE^i is the product of the
      low i limbs of a with b, up to q times the modulus n. */
  ghost predicate Reduced(t: seq<Limb>, i: nat, a: seq<Limb>, b: nat, n: nat, q: int) {
    && |t| == 2 * |a| + 1 && i <= |a|
    && Value(t[i..]) < n + b
    && Radix(i) * Value(t[i..]) == Value(a[..i]) * b + q * n
    && (forall k | i + |a| + 1 <= k < |t| :: t[k] == 0)
  }

  lemma ReducedStart(t: seq<Limb>, a: seq<Limb>, b: nat, n: nat)
    requires |t| == 2 * |a| + 1 && n > 0
    requires forall k | 0 <= k < |t| :: t[k] == 0
    ensures Reduced(t, 0, a, b, n, 0)
  {
    assert t[0..] == t && a[..0] == [];
    ValueZeros(t);
  }

  /** High limbs that are zero do not count. */
  lemma {:induction false} ValueHighZeros(s: seq<Limb>, len: nat)
    requires len <= |s| && forall k | len <= k < |s| :: s[k] == 0
    ensures Value(s) == Value(s[..len])
  {
    ValueSplit(s, len);
    ValueZeros(s[len..]);
  }

  lemma WindowValue(t: seq<Limb>, i: nat, len: nat)
    requires i + len <= |t| && forall k | i + len <= k < |t| :: t[k] == 0
    ensures Value(t[i..i + len]) == Value(t[i..])
  {
    ValueHighZeros(t[i..], len);
    assert t[i..][..len] == t[i..i + len];
  }

  /** t with its limbs from i on replaced by d. */
  function Spliced(t: seq<Limb>, i: nat, d: seq<Limb>): (s: seq<Limb>)
    requires i + |d| <= |t|
    ensures |s| == |t| && s[i..i + |d|] == d
  {
    t[..i] + d + t[i + |d|..]
  }

  lemma SplicedParts(w: seq<Limb>, w': seq<Limb>, off: nat, d: seq<Limb>)
    requires |w| == |w'| && off + |d| <= |w| && w'[off..off + |d|] == d
    requires forall k | 0 <= k < |w| && !(off <= k < off + |d|) :: w'[k] == w[k]
    ensures w' == Spliced(w, off, d)
  {
    assert w' == w'[..off] + d + w'[off + |d|..];
  }

  lemma ReducedStep(t: seq<Limb>, d: seq<Limb>, i: nat, a: seq<Limb>, b: nat, n: nat, q: int, u1: Limb)
    requires i < |a| && Reduced(t, i, a, b, n, q) && |d| == |a| + 2
    requires Value(d) == Value(t[i..]) + a[i] * b + u1 * n
    requires Value(d) < (n + b) * BASE
    requires d[0] == 0
    ensures Reduced(Spliced(t, i, d), i + 1, a, b, n, q + Radix(i) * u1)
  {
    hide Radix, Value;
    var t' := Spliced(t, i, d);
    assert t'[i] == 0;
    WindowValue(t', i, |a| + 2);
    ValueLow(t'[i..]);
    assert t'[i..][1..] == t'[i + 1..];
    var v, v' := Value(t[i..]), Value(t'[i + 1..]);
    StillSmall(v', n + b);
    RadixStep(i);
    ValueSnoc(a, i);
    StepAlgebra(v, v', Value(a[..i]), Value(a[..i + 1]), a[i], b, n, q, u1, q + Radix(i) * u1, Radix(i), Radix(i + 1));
  }

  lemma StillSmall(v: nat, bound: nat)
    requires BASE * v < bound * BASE
    ensures v < bound
  {
    BaseBig();
    if v >= bound {
      MulMonotone(bound, v, BASE);
    }
  }

  lemma StepAlgebra(v: int, v': int, low: int, low': int, u0: int, b: int, n: int, q: int, u1: int, q': int, r: int,
                    r': int)
    requires BASE * v' == v + u0 * b + u1 * n
    requires r * v == low * b + q * n
    requires low' == low + u0 * r && q' == q + r * u1 && r' == BASE * r
    ensures r' * v' == low' * b + q' * n
  {
    calc {
      r' * v';
      { MulAssoc(r, BASE, v'); }
      r * (BASE * v');
      { Distribute3(r, v, u0, b, u1, n); }
      r * v + (u0 * r) * b + (r * u1) * n;
      low * b + q * n + (u0 * r) * b + (r * u1) * n;
      { MulDistrib(low, u0 * r, b); MulDistrib(q, r * u1, n); }
      low' * b + q' * n;
    }
  }

  lemma Distribute3(r: int, v: int, u0: int, b: int, u1: int, n: int)
    ensures r * (v + u0 * b + u1 * n) == r * v + (u0 * r) * b + (r * u1) * n
  {
  }

  /** The final subtraction. Of the four combinations of carry and borrow, (1, 0) cannot happen, and
      the difference is wanted exactly when the two agree. */
  lemma FinalSubtraction(t: seq<Limb>, n: nat, b: nat, len: nat, low: nat, dif: int, carry: Limb, borrow: Limb)
    requires |t| == len + 1 && Value(t) < n + b && b <= n < Radix(len)
    requires low == Value(t[..len]) && carry == t[len]
    requires borrow == if low < n then 1 else 0
    requires dif == low - n + borrow * Radix(len)
    ensures carry <= 1 && !(carry == 1 && borrow == 0)
    ensures carry != borrow ==> low == Value(t) < n
    ensures carry == borrow ==> dif == Value(t) - n && 0 <= Value(t) - n < n
  {
    hide Value, Radix, Pow2;
    ValueBound(t[..len]);
    ValueTop(t);
    CarryFits(low, carry, Radix(len), n + b);
  }

  lemma CarryFits(low: nat, c: nat, r: nat, bound: nat)
    requires low + c * r < bound < 2 * r
    ensures c <= 1 && low + c * r == if c == 0 then low else low + r
  {
    if c >= 2 {
      MulMonotone(2, c, r);
    }
  }

  lemma Finished(t: int, r: int, R: int, a: int, b: int, n: int, q: int)
    requires n > 0 && R * t == a * b + q * n
    requires r == t < n || r == t - n
    requires 0 <= r < n
    ensures IsMontProduct(r, a, b, n, R)
  {
    hide Cong;
    if r == t {
      CongIntro(r * R, a * b, q, n);
    } else {
      assert r * R == R * t - R * n;
      MulDistrib(q, -R, n);
      CongIntro(r * R, a * b, q - R, n);
    }
  }

  method Clear(T: Span)
    requires T.Valid()
    modifies T.buf
    ensures forall k | 0 <= k < T.len :: T.Limbs()[k] == 0
    ensures OnlyChanges(T)
  {
    for i := 0 to T.len
      invariant forall k | T.off <= k < T.off + i :: T.buf[k] == 0
      invariant OnlyChanges(T)
    {
      T.buf[T.off + i] := 0;
    }
  }

  /** T[n..] holds A * B * R^-1 modulo N, not yet reduced below N. */
  method MontLoop(A: Span, B: Span, N: Span, mm: Limb, T: Span) returns (ghost q: int)
    requires A.Valid() && B.Valid() && N.Valid() && T.Valid()
    requires 0 < B.len <= N.len == A.len && T.len == 2 * N.len + 1
    requires T.Apart(A) && T.Apart(B) && T.Apart(N)
    requires IsMontConstant(mm, N.Limbs()[0]) && N.Num() > 0
    modifies T.buf
    ensures Reduced(T.Limbs(), N.len, old(A.Limbs()), old(B.Num()), old(N.Num()), q)
    ensures N.Limbs() == old(N.Limbs())
    ensures OnlyChanges(T)
  {
    hide Value, Radix, IsMontConstant, Pow2, Reduced;
    ghost var a, b, n := A.Limbs(), B.Limbs(), N.Limbs();
    Clear(T);
    q := 0;
    ReducedStart(T.Limbs(), a, Value(b), Value(n));
    for i := 0 to N.len
      invariant A.Limbs() == a && B.Limbs() == b && N.Limbs() == n
      invariant Reduced(T.Limbs(), i, a, Value(b), Value(n), q)
      invariant OnlyChanges(T)
    {
      var u1 := MontStep(T, i, A, B, N, mm, q);
      q := q + Radix(i) * u1;
    }
  }

  /** Step i of the loop: the accumulator at limb i becomes one at limb i + 1. */
  method MontStep(T: Span, i: nat, A: Span, B: Span, N: Span, mm: Limb, ghost q: int) returns (u1: Limb)
    requires A.Valid() && B.Valid() && N.Valid() && T.Valid()
    requires 0 < B.len <= N.len == A.len && T.len == 2 * N.len + 1 && i < N.len
    requires T.Apart(A) && T.Apart(B) && T.Apart(N)
    requires IsMontConstant(mm, N.Limbs()[0])
    requires Reduced(T.Limbs(), i, A.Limbs(), B.Num(), N.Num(), q)
    modifies T.buf
    ensures Reduced(T.Limbs(), i + 1, old(A.Limbs()), old(B.Num()), old(N.Num()), q + Radix(i) * u1)
    ensures A.Limbs() == old(A.Limbs())
    ensures B.Limbs() == old(B.Limbs())
    ensures N.Limbs() == old(N.Limbs())
    ensures OnlyChanges(T)
  {
    hide Value, Radix, IsMontConstant, Pow2, Reduced, Spliced;
    ghost var t, a, b, n := T.Limbs(), A.Limbs(), B.Num(), N.Num();
    AccumulatorWindow(t, i, a, b, n, q);
    assert A.buf[A.off + i] == a[i];
    ghost var d;
    u1, d := AccumulateAt(T, i, A.buf[A.off + i], B, N, mm);
    ReducedStep(t, d, i, a, b, n, q, u1);
  }

  /** The accumulation step on the part of T that starts at limb i. */
  method AccumulateAt(T: Span, i: nat, u0: Limb, B: Span, N: Span, mm: Limb) returns (u1: Limb, ghost d: seq<Limb>)
    requires B.Valid() && N.Valid() && T.Valid()
    requires 0 < B.len <= N.len && i + N.len + 2 <= T.len
    requires T.Apart(B) && T.Apart(N)
    requires IsMontConstant(mm, N.Limbs()[0])
    requires Value(T.Limbs()[i..i + N.len + 2]) < N.Num() + B.Num()
    modifies T.buf
    ensures |d| == N.len + 2 && T.Limbs() == Spliced(old(T.Limbs()), i, d)
    ensures Value(d) == old(Value(T.Limbs()[i..i + N.len + 2])) + u0 * old(B.Num()) + u1 * old(N.Num())
    ensures Value(d) < (old(N.Num()) + old(B.Num())) * BASE && d[0] == 0
    ensures OnlyChanges(T)
  {
    hide Value, Radix, IsMontConstant, Pow2, Spliced;
    ghost var t := T.Limbs();
    var D := T.From(i).Take(N.len + 2);
    PartLimbs(T, i, N.len + 2);
    u1 := Accumulate(D, u0, B, N, mm);
    d := D.Limbs();
    PartLimbs(T, i, N.len + 2);
    assert forall k {:trigger T.buf[k]} | T.off <= k < T.off + T.len && !D.Has(T.buf, k) :: T.buf[k] == old(T.buf[k]);
    SplicedParts(t, T.Limbs(), i, d);
  }

  lemma AccumulatorWindow(t: seq<Limb>, i: nat, a: seq<Limb>, b: nat, n: nat, q: int)
    requires i < |a| && Reduced(t, i, a, b, n, q)
    ensures Value(t[i..i + |a| + 2]) == Value(t[i..]) < n + b
  {
    WindowValue(t, i, |a| + 2);
  }

  /** X := A * B * R^-1 modulo N, where R is BASE to the number of limbs of N. */
  method MontMul(X: Span, A: Span, B: Span, N: Span, mm: Limb, T: Span)
    requires X.Valid() && A.Valid() && B.Valid() && N.Valid() && T.Valid()
    requires 0 < B.len <= N.len == A.len == X.len && T.len >= 2 * N.len + 1
    requires X.AliasOrApart(A) && X.AliasOrApart(B) && X.AliasOrApart(N)
    requires T.Apart(X) && T.Apart(A) && T.Apart(B) && T.Apart(N)
    requires IsMontConstant(mm, N.Limbs()[0])
    requires B.Num() <= N.Num() && N.Num() > 0
    modifies X.buf, T.buf
    ensures IsMontProduct(X.Num(), old(A.Num()), old(B.Num()), old(N.Num()), Radix(N.len))
    ensures OnlyChangesBoth(X, T)
  {
    hide Value, Radix, IsMontConstant, Pow2, Reduced, IsMontProduct;
    ghost var a, b, n := A.Limbs(), B.Limbs(), N.Limbs();
    var W := T.Take(2 * N.len + 1);
    ghost var q := MontLoop(A, B, N, mm, W);
    assert N.Limbs() == n;
    var L := W.From(N.len).Take(N.len);
    ghost var w := W.Limbs();
    PartLimbs(W, N.len, N.len);
    var carry := W.buf[W.off + 2 * N.len];
    assert carry == w[2 * N.len];
    var borrow := SubtractUnlessSmaller(X, L, N, carry);
    Outcome(w, a, Value(b), n, q, X.Num(), carry, borrow);
  }

  /** X := L - N, or L itself when the carry into L and the borrow of that difference disagree. */
  method SubtractUnlessSmaller(X: Span, L: Span, N: Span, carry: Limb) returns (borrow: Limb)
    requires X.Valid() && L.Valid() && N.Valid() && X.len == L.len == N.len
    requires X.Apart(L) && X.AliasOrApart(N)
    modifies X.buf
    ensures borrow == if old(L.Num()) < old(N.Num()) then 1 else 0
    ensures X.Num() == if carry != borrow then old(L.Num()) else old(L.Num()) - old(N.Num()) + borrow * Radix(N.len)
    ensures OnlyChanges(X)
  {
    hide Value, Radix, Pow2;
    ghost var l := L.Limbs();
    borrow := Sub(X, L, N);
    assert L.Limbs() == l;
    CondAssign(X, L, carry != borrow);
  }

  lemma ReducedAll(w: seq<Limb>, a: seq<Limb>, b: nat, n: nat, q: int)
    requires Reduced(w, |a|, a, b, n, q)
    ensures |w| == 2 * |a| + 1 && Value(w[|a|..]) < n + b
    ensures Radix(|a|) * Value(w[|a|..]) == Value(a) * b + q * n
  {
    assert a[..|a|] == a;
  }

  /** Whichever of the difference and the accumulator is kept is the Montgomery product. */
  lemma Outcome(w: seq<Limb>, a: seq<Limb>, b: nat, n: seq<Limb>, q: int, x: int, carry: Limb, borrow: Limb)
    requires |a| == |n| && |w| == 2 * |n| + 1
    requires Reduced(w, |n|, a, b, Value(n), q) && b <= Value(n) && Value(n) > 0
    requires carry == w[2 * |n|]
    requires borrow == if Value(w[|n|..2 * |n|]) < Value(n) then 1 else 0
    requires x == if carry != borrow then Value(w[|n|..2 * |n|])
                  else Value(w[|n|..2 * |n|]) - Value(n) + borrow * Radix(|n|)
    ensures IsMontProduct(x, Value(a), b, Value(n), Radix(|n|))
  {
    hide Value, Radix, IsMontProduct, Reduced;
    var t := w[|n|..];
    assert t[..|n|] == w[|n|..2 * |n|];
    ValueBound(n);
    ReducedAll(w, a, b, Value(n), q);
    var low := Value(t[..|n|]);
    FinalSubtraction(t, Value(n), b, |n|, low, low - Value(n) + borrow * Radix(|n|), carry, borrow);
    Finished(Value(t), x, Radix(|n|), Value(a), b, Value(n), q);
  }
}
