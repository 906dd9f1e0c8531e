/** Fixed-window exponentiation in Montgomery form, bignum_core.c. */
module MpiExp {
  import opened Bits
  import opened Congruence
  import opened MpiLimbs
  import opened MpiCore
  import opened MpiMont

  /** x is the Montgomery representative of v: the reduced value of v * R. */
  ghost predicate Rep(x: int, v: int, n: int, R: int)
    requires n > 0
  {
    0 <= x < n && Cong(x, v * R, n)
  }

  ghost predicate HasInverse(R: int, n: int)
    requires n > 0
  {
    exists inverse: int :: Cong(R * inverse, 1, n)
  }

  /** The Montgomery constant witnesses that BASE, and so R, is invertible modulo the modulus. */
  lemma RadixInvertible(n: seq<Limb>, mm: Limb)
    requires |n| > 0 && Value(n) > 0 && IsMontConstant(mm, n[0])
    ensures HasInverse(Radix(|n|), Value(n))
  {
    hide Cong, Value, Radix;
    var m := Value(n);
    var k := BaseInverse(n, mm);
    PowerOfInverse(k, |n|, m);
    assert Cong(Radix(|n|) * Power(k, |n|), 1, m);
  }

  lemma BaseInverse(n: seq<Limb>, mm: Limb) returns (k: int)
    requires |n| > 0 && Value(n) > 0 && IsMontConstant(mm, n[0])
    ensures Cong(BASE * k, 1, Value(n))
  {
    hide Cong, Value;
    var m := Value(n);
    LowLimbCong(n);
    CongScale(m, n[0], mm, BASE);
    CongAdd(mm * m, mm * n[0], 1, 1, BASE);
    CongZero(mm * n[0] + 1, BASE);
    CongTrans(mm * m + 1, mm * n[0] + 1, 0, BASE);
    k := CongQuotient(mm * m + 1, 0, BASE);
    assert BASE * k == 1 + mm * m;
    CongIntro(BASE * k, 1, mm, m);
  }

  lemma {:induction false} PowerOfInverse(k: int, e: nat, m: int)
    requires m > 0 && Cong(BASE * k, 1, m)
    ensures Cong(Radix(e) * Power(k, e), 1, m)
  {
    hide Cong;
    if e > 0 {
      PowerOfInverse(k, e - 1, m);
      CongMul(BASE * k, 1, Radix(e - 1) * Power(k, e - 1), 1, m);
      Interleave(BASE, k, Radix(e - 1), Power(k, e - 1));
    } else {
      assert Radix(0) * Power(k, 0) == 1;
      CongIntro(1, 1, 0, m);
    }
  }

  lemma Interleave(a: int, b: int, c: int, d: int)
    ensures (a * b) * (c * d) == (a * c) * (b * d)
  {
  }

  /** The Montgomery product of representatives represents the product. */
  lemma RepProduct(r: int, x: int, y: int, v: int, w: int, n: int, R: int)
    requires n > 0 && HasInverse(R, n)
    requires IsMontProduct(r, x, y, n, R) && Rep(x, v, n, R) && Rep(y, w, n, R)
    ensures Rep(r, v * w, n, R)
  {
    hide Cong;
    var inverse: int :| Cong(R * inverse, 1, n);
    CongMul(x, v * R, y, w * R, n);
    Interleave(v, R, w, R);
    MulAssoc(v * w, R, R);
    CongTrans(r * R, x * y, v * w * R * R, n);
    CongCancel(r, v * w * R, R, inverse, n);
  }

  /** Entering Montgomery form: a Montgomery product with R * R represents the other factor. */
  lemma RepTimesSquare(r: int, v: int, rr: int, n: int, R: int)
    requires n > 0 && HasInverse(R, n)
    requires IsMontProduct(r, v, rr, n, R) && Cong(rr, R * R, n)
    ensures Rep(r, v, n, R)
  {
    hide Cong;
    var inverse: int :| Cong(R * inverse, 1, n);
    CongScale(rr, R * R, v, n);
    MulAssoc(v, R, R);
    CongTrans(r * R, v * rr, v * R * R, n);
    CongCancel(r, v * R, R, inverse, n);
  }

  /** Representatives are unique. */
  lemma RepUnique(x: int, y: int, v: int, n: int, R: int)
    requires n > 0 && Rep(x, v, n, R) && Rep(y, v, n, R)
    ensures x == y
  {
    CongSmall(x, y, n);
  }

  /** X := A * B in Montgomery form, for the values v and w that A and B represent. */
  method MulRep(X: Span, A: Span, B: Span, N: Span, mm: Limb, T: Span, ghost v: int, ghost w: int)
    requires X.Valid() && A.Valid() && B.Valid() && N.Valid() && T.Valid()
    requires 0 < B.len == N.len == A.len == X.len && T.len >= 2 * N.len + 1
    requires X.AliasOrApart(A) && X.AliasOrApart(B) && X.Apart(N)
    requires T.Apart(X) && T.Apart(A) && T.Apart(B) && T.Apart(N)
    requires IsMontConstant(mm, N.Limbs()[0]) && N.Num() > 0
    requires Rep(A.Num(), v, N.Num(), Radix(N.len)) && Rep(B.Num(), w, N.Num(), Radix(N.len))
    modifies X.buf, T.buf
    ensures N.Limbs() == old(N.Limbs())
    ensures Rep(X.Num(), v * w, N.Num(), Radix(N.len))
    ensures OnlyChangesBoth(X, T)
  {
    hide Value, Radix, IsMontConstant, Pow2, IsMontProduct, Cong;
    ghost var a, b, n := A.Num(), B.Num(), N.Limbs();
    MontMul(X, A, B, N, mm, T);
    assert N.Limbs() == n;
    RadixInvertible(n, mm);
    RepProduct(X.Num(), a, b, v, w, Value(n), Radix(N.len));
  }

  // ---- the exponent, bit by bit ----

  /** The number formed by the bits of e above bit b of limb l. */
  ghost function Prefix(e: seq<Limb>, l: nat, b: nat): int
    requires l <= |e| && b <= biL
  {
    if l == |e| then 0 else Value(e[l + 1..]) * Pow2(biL - b) + e[l] / Pow2(b)
  }

  function Bit(x: Limb, b: nat): nat {
    (x / Pow2(b)) % 2
  }

  lemma HalvePow2(x: int, b: nat)
    requires x >= 0
    ensures x / Pow2(b) == 2 * (x / Pow2(b + 1)) + (x / Pow2(b)) % 2
  {
    var m, q, r := Pow2(b), x / Pow2(b + 1), x % Pow2(b + 1);
    DivModOf(x, 2 * m);
    if r < m {
      assert q * (2 * m) == (2 * q) * m;
      DivModUnique(x, m, 2 * q, r);
      DivModUnique(2 * q, 2, q, 0);
    } else {
      assert q * (2 * m) + m == (2 * q + 1) * m;
      DivModUnique(x, m, 2 * q + 1, r - m);
      DivModUnique(2 * q + 1, 2, q, 1);
    }
  }

  /** Moving one bit down within a limb. */
  lemma PrefixNextBit(e: seq<Limb>, l: nat, b: nat)
    requires l < |e| && b < biL
    ensures Prefix(e, l, b) == 2 * Prefix(e, l, b + 1) + Bit(e[l], b)
  {
    HalvePow2(e[l], b);
    assert Pow2(biL - b) == 2 * Pow2(biL - (b + 1));
    Doubled(Value(e[l + 1..]), Pow2(biL - (b + 1)));
  }

  lemma Doubled(v: int, p: int)
    ensures v * (2 * p) == 2 * (v * p)
  {
  }

  /** Moving to the next limb leaves the number formed so far alone. */
  lemma PrefixNextLimb(e: seq<Limb>, l: nat)
    requires 0 < l <= |e|
    ensures Prefix(e, l - 1, biL) == Prefix(e, l, 0)
  {
    hide Value, Pow2;
    var x: int := e[l - 1];
    DivModUnique(x, BASE, 0, x);
    PowZero();
    if l < |e| {
      ValueLow(e[l..]);
      assert e[l..][1..] == e[l + 1..];
      DivModUnique(e[l], 1, e[l], 0);
      assert Value(e[l + 1..]) * BASE == BASE * Value(e[l + 1..]);
    } else {
      EmptyValue(e[l..]);
      assert Value(e[l..]) * 1 == 0;
    }
  }

  lemma EmptyValue(s: seq<Limb>)
    requires |s| == 0
    ensures Value(s) == 0
  {
  }

  lemma PowZero()
    ensures Pow2(0) == 1
  {
  }

  lemma PrefixAll(e: seq<Limb>)
    requires |e| > 0
    ensures Prefix(e, 0, 0) == Value(e)
  {
    hide Value, Pow2;
    PowZero();
    ValueLow(e);
    DivModUnique(e[0], 1, e[0], 0);
    assert Value(e[1..]) * BASE == BASE * Value(e[1..]);
  }

  // ---- the window table ----

  /** Row j of a table of numbers of len limbs. */
  function Row(w: seq<Limb>, len: nat, j: nat): (r: seq<Limb>)
    requires (j + 1) * len <= |w|
    ensures |r| == len
  {
    MulDistrib(j, 1, len);
    MulNonneg(j, len);
    w[j * len..j * len + len]
  }

  /** The first count rows represent the powers of a from 0 up. */
  ghost predicate TableOk(w: seq<Limb>, len: nat, count: nat, a: int, n: int, R: int)
    requires n > 0
  {
    forall j | 0 <= j < count :: (j + 1) * len <= |w| && Rep(Value(Row(w, len, j)), Power(a, j), n, R)
  }

  lemma RowOfEntry(W: Span, len: nat, j: nat)
    requires W.Valid() && (j + 1) * len <= W.len
    ensures Entry(W, len, j).Valid() && Entry(W, len, j).Limbs() == Row(W.Limbs(), len, j)
  {
    RowsBefore(len, j, j + 1);
    MulNonneg(j, len);
    PartLimbs(W, j * len, len);
  }

  lemma RowsBefore(len: nat, j: nat, i: nat)
    requires j < i
    ensures j * len + len <= i * len && (j + 1) * len <= i * len
  {
    MulMonotone(j + 1, i, len);
    MulDistrib(j, 1, len);
  }

  lemma TableExtend(w: seq<Limb>, d: seq<Limb>, i: nat, a: int, n: int, R: int)
    requires n > 0 && (i + 1) * |d| <= |w|
    requires TableOk(w, |d|, i, a, n, R) && Rep(Value(d), Power(a, i), n, R)
    ensures i * |d| + |d| <= |w| && i * |d| >= 0
    ensures TableOk(Spliced(w, i * |d|, d), |d|, i + 1, a, n, R)
  {
    hide Value, Rep, Row, Spliced;
    var len := |d|;
    RowsBefore(len, i, i + 1);
    MulNonneg(i, len);
    var w' := Spliced(w, i * len, d);
    forall j | 0 <= j < i + 1
      ensures (j + 1) * len <= |w'| && Rep(Value(Row(w', len, j)), Power(a, j), n, R)
    {
      SplicedRow(w, d, i, j);
    }
  }

  lemma SplicedRow(w: seq<Limb>, d: seq<Limb>, i: nat, j: nat)
    requires j <= i && (i + 1) * |d| <= |w|
    ensures i * |d| + |d| <= |w| && i * |d| >= 0 && (j + 1) * |d| <= |w|
    ensures Row(Spliced(w, i * |d|, d), |d|, j) == if j < i then Row(w, |d|, j) else d
  {
    var len := |d|;
    RowsBefore(len, i, i + 1);
    MulNonneg(i, len);
    if j < i {
      RowsBefore(len, j, i);
      MulNonneg(j, len);
    }
  }

  /** X := A. */
  method Copy(X: Span, A: Span)
    requires X.Valid() && A.Valid() && X.len == A.len && X.Apart(A)
    modifies X.buf
    ensures X.Limbs() == old(A.Limbs())
    ensures OnlyChanges(X)
  {
    CondAssign(X, A, true);
  }

  /** X := 1. */
  method SetOne(X: Span)
    requires X.Valid() && X.len > 0
    modifies X.buf
    ensures X.Num() == 1
    ensures OnlyChanges(X)
  {
    hide Value, Radix;
    Clear(X);
    BaseBig();
    ghost var zeros := X.Limbs();
    X.buf[X.off] := 1;
    assert X.Limbs() == zeros[0 := 1];
    ValueLow(X.Limbs());
    ValueZeros(X.Limbs()[1..]);
  }

  /** X := 1, away from three others. */
  method SetOneKeeping(X: Span, ghost N: Span, ghost RR: Span, ghost A: Span)
    requires X.Valid() && N.Valid() && RR.Valid() && A.Valid() && X.len > 0
    requires X.Apart(N) && X.Apart(RR) && X.Apart(A)
    modifies X.buf
    ensures X.Num() == 1
    ensures N.Limbs() == old(N.Limbs()) && RR.Limbs() == old(RR.Limbs()) && A.Limbs() == old(A.Limbs())
    ensures OnlyChanges(X)
  {
    SetOne(X);
  }

  /** X := X * B * R^-1 modulo N, away from A and N. */
  method MontMulKeeping(X: Span, B: Span, N: Span, mm: Limb, T: Span, ghost A: Span)
    requires X.Valid() && B.Valid() && N.Valid() && T.Valid() && A.Valid()
    requires 0 < B.len == N.len == X.len && T.len >= 2 * N.len + 1
    requires X.Apart(B) && X.Apart(N) && X.Apart(A)
    requires T.Apart(X) && T.Apart(B) && T.Apart(N) && T.Apart(A)
    requires IsMontConstant(mm, N.Limbs()[0]) && B.Num() <= N.Num() && N.Num() > 0
    modifies X.buf, T.buf
    ensures IsMontProduct(X.Num(), old(X.Num()), old(B.Num()), old(N.Num()), Radix(N.len))
    ensures N.Limbs() == old(N.Limbs()) && A.Limbs() == old(A.Limbs())
    ensures OnlyChangesBoth(X, T)
  {
    hide Value, Radix, IsMontConstant, Pow2, IsMontProduct;
    MontMul(X, X, B, N, mm, T);
  }

  /** W0 := 1 in Montgomery form, away from A. */
  method FirstRow(W0: Span, N: Span, mm: Limb, RR: Span, T: Span, ghost A: Span)
    requires W0.Valid() && N.Valid() && RR.Valid() && T.Valid() && A.Valid()
    requires 0 < N.len == RR.len == W0.len && T.len >= 2 * N.len + 1
    requires W0.Apart(A) && T.Apart(A)
    requires W0.Apart(N) && W0.Apart(RR) && T.Apart(W0) && T.Apart(N) && T.Apart(RR)
    requires IsMontConstant(mm, N.Limbs()[0]) && RR.Num() < N.Num()
    requires Cong(RR.Num(), Radix(N.len) * Radix(N.len), N.Num())
    modifies W0.buf, T.buf
    ensures N.Limbs() == old(N.Limbs())
    ensures A.Limbs() == old(A.Limbs())
    ensures Rep(W0.Num(), 1, N.Num(), Radix(N.len))
    ensures OnlyChangesBoth(W0, T)
  {
    hide Value, Radix, IsMontConstant, Pow2, IsMontProduct, Cong;
    ghost var n, rr := N.Limbs(), RR.Num();
    SetOneKeeping(W0, N, RR, A);
    MontMulKeeping(W0, RR, N, mm, T, A);
    RadixInvertible(n, mm);
    RepTimesSquare(W0.Num(), 1, rr, Value(n), Radix(N.len));
  }

  /** A part X of W := A * B in Montgomery form, for two other parts A and B. */
  method MulWithin(W: Span, X: Span, A: Span, B: Span, N: Span, mm: Limb, T: Span, ghost v: int, ghost w: int)
    requires W.Valid() && X.Valid() && A.Valid() && B.Valid() && N.Valid() && T.Valid()
    requires 0 < B.len == N.len == A.len == X.len && T.len >= 2 * N.len + 1
    requires X.Within(W) && A.Within(W) && B.Within(W) && X.Apart(A) && X.Apart(B)
    requires W.Apart(N) && T.Apart(W) && T.Apart(N)
    requires IsMontConstant(mm, N.Limbs()[0]) && N.Num() > 0
    requires Rep(A.Num(), v, N.Num(), Radix(N.len)) && Rep(B.Num(), w, N.Num(), Radix(N.len))
    modifies W.buf, T.buf
    ensures N.Limbs() == old(N.Limbs())
    ensures Rep(X.Num(), v * w, N.Num(), Radix(N.len))
    ensures forall k {:trigger W.buf[k]} | W.off <= k < W.off + W.len && !X.Has(W.buf, k) :: W.buf[k] == old(W.buf[k])
    ensures OnlyChangesBoth(W, T)
  {
    hide Value, Radix, IsMontConstant, Pow2, Rep;
    MulRep(X, A, B, N, mm, T, v, w);
  }

  /** The part of W at offset off := A * B in Montgomery form, for parts A and B of W. */
  method MulPart(W: Span, off: nat, aoff: nat, boff: nat, N: Span, mm: Limb, T: Span, ghost v: int, ghost w: int)
      returns (ghost d: seq<Limb>)
    requires W.Valid() && N.Valid() && T.Valid()
    requires 0 < N.len && T.len >= 2 * N.len + 1
    requires aoff + N.len <= off && boff + N.len <= off && off + N.len <= W.len
    requires W.Apart(N) && T.Apart(W) && T.Apart(N)
    requires IsMontConstant(mm, N.Limbs()[0]) && N.Num() > 0
    requires Rep(Value(W.Limbs()[aoff..aoff + N.len]), v, N.Num(), Radix(N.len))
    requires Rep(Value(W.Limbs()[boff..boff + N.len]), w, N.Num(), Radix(N.len))
    modifies W.buf, T.buf
    ensures N.Limbs() == old(N.Limbs())
    ensures |d| == N.len && W.Limbs() == Spliced(old(W.Limbs()), off, d)
    ensures Rep(Value(d), v * w, N.Num(), Radix(N.len))
    ensures OnlyChangesBoth(W, T)
  {
    hide Value, Radix, IsMontConstant, Pow2, Rep;
    var X, A, B := W.From(off).Take(N.len), W.From(aoff).Take(N.len), W.From(boff).Take(N.len);
    PartLimbs(W, aoff, N.len);
    PartLimbs(W, boff, N.len);
    MulWithin(W, X, A, B, N, mm, T, v, w);
    d := X.Limbs();
    PartLimbs(W, off, N.len);
    forall k | 0 <= k < W.len && !(off <= k < off + N.len)
      ensures W.Limbs()[k] == old(W.Limbs())[k]
    {
      assert W.buf[W.off + k] == old(W.buf[W.off + k]);
    }
    SplicedParts(old(W.Limbs()), W.Limbs(), off, d);
  }

  /** Row i := row i - 1 times row 1, in Montgomery form. */
  method NextRow(W: Span, i: nat, N: Span, mm: Limb, T: Span, ghost a: int)
    requires W.Valid() && N.Valid() && T.Valid()
    requires 0 < N.len && (i + 1) * N.len <= W.len && i >= 2 && T.len >= 2 * N.len + 1
    requires W.Apart(N) && T.Apart(W) && T.Apart(N)
    requires IsMontConstant(mm, N.Limbs()[0]) && N.Num() > 0
    requires TableOk(W.Limbs(), N.len, i, a, N.Num(), Radix(N.len))
    modifies W.buf, T.buf
    ensures N.Limbs() == old(N.Limbs())
    ensures TableOk(W.Limbs(), N.len, i + 1, a, N.Num(), Radix(N.len))
    ensures OnlyChangesBoth(W, T)
  {
    hide Value, Radix, IsMontConstant, Pow2, Rep, Spliced;
    ghost var w, n := W.Limbs(), N.Num();
    var len := N.len;
    RowsBefore(len, i - 1, i);
    RowsBefore(len, 1, i);
    RowsBefore(len, i, i + 1);
    MulNonneg(i - 1, len);
    ghost var d := MulPart(W, i * len, (i - 1) * len, len, N, mm, T, Power(a, i - 1), Power(a, 1));
    NextPower(a, i);
    TableExtend(w, d, i, a, n, Radix(len));
  }

  lemma NextPower(a: int, i: nat)
    requires i >= 1
    ensures Power(a, i - 1) * Power(a, 1) == Power(a, i)
  {
    PowerAdd(a, i - 1, 1);
  }

  /** W := the powers of A from 0 to welem - 1, in Montgomery form. */
  method PrecomputeWindow(A: Span, N: Span, mm: Limb, RR: Span, welem: nat, W: Span, T: Span, ghost a: int)
    requires W.Valid() && A.Valid() && N.Valid() && RR.Valid() && T.Valid()
    requires 0 < N.len == A.len == RR.len && W.len == welem * N.len && welem >= 2 && T.len >= 2 * N.len + 1
    requires W.Apart(A) && W.Apart(N) && W.Apart(RR)
    requires T.Apart(W) && T.Apart(A) && T.Apart(N) && T.Apart(RR)
    requires IsMontConstant(mm, N.Limbs()[0]) && RR.Num() < N.Num()
    requires Cong(RR.Num(), Radix(N.len) * Radix(N.len), N.Num())
    requires Rep(A.Num(), a, N.Num(), Radix(N.len))
    modifies W.buf, T.buf
    ensures N.Limbs() == old(N.Limbs())
    ensures TableOk(W.Limbs(), N.len, welem, a, N.Num(), Radix(N.len))
    ensures OnlyChangesBoth(W, T)
  {
    hide Value, Radix, IsMontConstant, Pow2, Rep, TableOk, Cong;
    ghost var n := N.Limbs();
    FirstRows(A, N, mm, RR, W, T, welem, a);
    for i := 2 to welem
      invariant N.Limbs() == n
      invariant TableOk(W.Limbs(), N.len, i, a, Value(n), Radix(N.len))
      invariant OnlyChangesBoth(W, T)
    {
      RowsBefore(N.len, i, welem);
      NextRow(W, i, N, mm, T, a);
    }
  }

  /** Rows 0 and 1 of the table: 1, and A itself. */
  method FirstRows(A: Span, N: Span, mm: Limb, RR: Span, W: Span, T: Span, ghost welem: nat, ghost a: int)
    requires W.Valid() && A.Valid() && N.Valid() && RR.Valid() && T.Valid()
    requires 0 < N.len == A.len == RR.len && W.len == welem * N.len && welem >= 2 && T.len >= 2 * N.len + 1
    requires W.Apart(A) && W.Apart(N) && W.Apart(RR)
    requires T.Apart(W) && T.Apart(A) && T.Apart(N) && T.Apart(RR)
    requires IsMontConstant(mm, N.Limbs()[0]) && RR.Num() < N.Num()
    requires Cong(RR.Num(), Radix(N.len) * Radix(N.len), N.Num())
    requires Rep(A.Num(), a, N.Num(), Radix(N.len))
    modifies W.buf, T.buf
    ensures N.Limbs() == old(N.Limbs())
    ensures TableOk(W.Limbs(), N.len, 2, a, N.Num(), Radix(N.len))
    ensures OnlyChangesBoth(W, T)
  {
    hide Value, Radix, IsMontConstant, Pow2, Rep, TableOk, Cong;
    ghost var n := N.Limbs();
    RowsBefore(N.len, 1, welem);
    FirstRow(W.From(0).Take(N.len), N, mm, RR, T, A);
    PartLimbs(W, 0, N.len);
    SecondRow(W, A, N);
    TwoRows(W.Limbs(), N.len, a, Value(n), Radix(N.len));
  }

  /** X := A, away from three others. */
  method CopyKeeping(X: Span, A: Span, ghost N: Span, ghost E: Span, ghost W: Span)
    requires X.Valid() && A.Valid() && N.Valid() && E.Valid() && W.Valid()
    requires X.len == A.len && X.Apart(A) && X.Apart(N) && X.Apart(E) && X.Apart(W)
    modifies X.buf
    ensures X.Limbs() == old(A.Limbs())
    ensures N.Limbs() == old(N.Limbs()) && E.Limbs() == old(E.Limbs()) && W.Limbs() == old(W.Limbs())
    ensures OnlyChanges(X)
  {
    Copy(X, A);
  }

  /** Row 1 := A, away from N. */
  method SecondRow(W: Span, A: Span, ghost N: Span)
    requires W.Valid() && A.Valid() && N.Valid() && W.Apart(A) && W.Apart(N) && 2 * A.len <= W.len
    modifies W.buf
    ensures N.Limbs() == old(N.Limbs())
    ensures W.Limbs()[0..A.len] == old(W.Limbs()[0..A.len])
    ensures W.Limbs()[A.len..A.len + A.len] == old(A.Limbs())
    ensures OnlyChanges(W)
  {
    PartLimbs(W, 0, A.len);
    CopyKeeping(W.From(A.len).Take(A.len), A, N, W.From(0).Take(A.len), A);
    PartLimbs(W, A.len, A.len);
    PartLimbs(W, 0, A.len);
  }

  lemma TwoRows(w: seq<Limb>, len: nat, a: int, n: int, R: int)
    requires n > 0 && 2 * len <= |w|
    requires Rep(Value(w[0..len]), 1, n, R) && Rep(Value(w[len..len + len]), a, n, R)
    ensures TableOk(w, len, 2, a, n, R)
  {
    hide Value, Rep;
    assert Row(w, len, 0) == w[0..len];
    assert Row(w, len, 1) == w[len..len + len];
    assert Power(a, 0) == 1 && Power(a, 1) == a * Power(a, 0);
  }

  // ---- exponentiation ----

  /** MBEDTLS_MPI_WINDOW_SIZE, the configured limit on the window. */
  type WindowLimit = w: nat | 1 <= w <= 6 witness 2
  const MPI_WINDOW_SIZE: WindowLimit

  function WindowSize(ebits: nat): (w: nat)
    ensures 1 <= w <= 6 && w <= MPI_WINDOW_SIZE
  {
    var wsize := if ebits > 671 then 6 else if ebits > 239 then 5 else if ebits > 79 then 4 else 1;
    if wsize > MPI_WINDOW_SIZE then MPI_WINDOW_SIZE else wsize
  }

  /** How much working memory the exponentiation needs: the table, a selected row, and the
      accumulator of the multiplication. */
  function ExpModWorkingLimbs(limbs: nat, elimbs: nat): (r: nat)
    ensures r == Pow2(WindowSize(elimbs * biL)) * limbs + 3 * limbs + 1
  {
    MulNonneg(Pow2(WindowSize(elimbs * biL)), limbs);
    Pow2(WindowSize(elimbs * biL)) * limbs + limbs + (2 * limbs + 1)
  }

  /** One bit of the exponent: X is squared and, when the window is full, multiplied by its power.
      U holds the selected row, then the accumulator. */
  method ExpStep(X: Span, N: Span, mm: Limb, W: Span, welem: nat, U: Span, full: bool, window: nat, ghost a: int,
                 ghost v: int)
    requires X.Valid() && N.Valid() && W.Valid() && U.Valid()
    requires 0 < N.len == X.len && W.len == welem * N.len && U.len >= 3 * N.len + 1 && window < welem
    requires X.Apart(N) && X.Apart(W) && X.Apart(U) && U.Apart(N) && U.Apart(W)
    requires IsMontConstant(mm, N.Limbs()[0]) && N.Num() > 0
    requires TableOk(W.Limbs(), N.len, welem, a, N.Num(), Radix(N.len))
    requires Rep(X.Num(), v, N.Num(), Radix(N.len))
    modifies X.buf, U.buf
    ensures N.Limbs() == old(N.Limbs())
    ensures Rep(X.Num(), v * v * if full then Power(a, window) else 1, N.Num(), Radix(N.len))
    ensures OnlyChangesBoth(X, U)
  {
    hide Value, Radix, IsMontConstant, Pow2, Rep, TableOk;
    ghost var w := W.Limbs();
    MulRep(X, X, X, N, mm, U.From(N.len), v, v);
    if full {
      assert W.Limbs() == w;
      MultiplySelected(X, N, mm, W, welem, U, window, a, v * v);
    }
  }

  /** The same, away from the exponent E. */
  method ExpStepKeeping(X: Span, N: Span, mm: Limb, W: Span, welem: nat, U: Span, full: bool, window: nat,
                        ghost E: Span, ghost a: int, ghost v: int)
    requires X.Valid() && N.Valid() && W.Valid() && U.Valid() && E.Valid()
    requires 0 < N.len == X.len && W.len == welem * N.len && U.len >= 3 * N.len + 1 && window < welem
    requires X.Apart(N) && X.Apart(W) && X.Apart(U) && X.Apart(E) && U.Apart(N) && U.Apart(W) && U.Apart(E)
    requires IsMontConstant(mm, N.Limbs()[0]) && N.Num() > 0
    requires TableOk(W.Limbs(), N.len, welem, a, N.Num(), Radix(N.len))
    requires Rep(X.Num(), v, N.Num(), Radix(N.len))
    modifies X.buf, U.buf
    ensures N.Limbs() == old(N.Limbs()) && E.Limbs() == old(E.Limbs()) && W.Limbs() == old(W.Limbs())
    ensures Rep(X.Num(), v * v * if full then Power(a, window) else 1, N.Num(), Radix(N.len))
    ensures OnlyChangesBoth(X, U)
  {
    hide Value, Radix, IsMontConstant, Pow2, Rep, TableOk;
    ExpStep(X, N, mm, W, welem, U, full, window, a, v);
  }

  /** X := X times row window of the table. */
  method MultiplySelected(X: Span, N: Span, mm: Limb, W: Span, welem: nat, U: Span, window: nat, ghost a: int,
                          ghost v: int)
    requires X.Valid() && N.Valid() && W.Valid() && U.Valid()
    requires 0 < N.len == X.len && W.len == welem * N.len && U.len >= 3 * N.len + 1 && window < welem
    requires X.Apart(N) && X.Apart(U) && U.Apart(N) && U.Apart(W)
    requires IsMontConstant(mm, N.Limbs()[0]) && N.Num() > 0
    requires TableOk(W.Limbs(), N.len, welem, a, N.Num(), Radix(N.len))
    requires Rep(X.Num(), v, N.Num(), Radix(N.len))
    modifies X.buf, U.buf
    ensures N.Limbs() == old(N.Limbs())
    ensures Rep(X.Num(), v * Power(a, window), N.Num(), Radix(N.len))
    ensures OnlyChangesBoth(X, U)
  {
    hide Value, Radix, IsMontConstant, Pow2, Rep, TableOk;
    var select, temp := U.Take(N.len), U.From(N.len);
    SelectRow(select, W, welem, window, X, N, a);
    MulRep(X, X, select, N, mm, temp, v, Power(a, window));
  }

  /** S := row window of the table, away from X and N. */
  method SelectRow(S: Span, W: Span, welem: nat, window: nat, ghost X: Span, ghost N: Span, ghost a: int)
    requires S.Valid() && W.Valid() && X.Valid() && N.Valid()
    requires W.len == welem * S.len && S.len == N.len && window < welem && N.Num() > 0
    requires S.Apart(W) && S.Apart(X) && S.Apart(N)
    requires TableOk(W.Limbs(), S.len, welem, a, N.Num(), Radix(N.len))
    modifies S.buf
    ensures N.Limbs() == old(N.Limbs())
    ensures X.Limbs() == old(X.Limbs())
    ensures Rep(S.Num(), Power(a, window), N.Num(), Radix(N.len))
    ensures OnlyChanges(S)
  {
    hide Value, Radix, Pow2, Rep, TableOk;
    ghost var n := N.Num();
    RowsBefore(S.len, window, welem);
    RowOfEntry(W, S.len, window);
    TableEntry(W.Limbs(), S.len, welem, a, n, Radix(N.len), window);
    TableLookup(S, W, welem, window);
  }

  lemma TableEntry(w: seq<Limb>, len: nat, count: nat, a: int, n: int, R: int, j: nat)
    requires n > 0 && TableOk(w, len, count, a, n, R) && j < count && (j + 1) * len <= |w|
    ensures Rep(Value(Row(w, len, j)), Power(a, j), n, R)
  {
  }

  /** The state between two bits: X stands for a to the power of the exponent bits taken so far,
      except for those still in the window. */
  ghost predicate Progress(x: int, e: seq<Limb>, l: nat, b: nat, window: nat, a: int, n: int, R: int)
    requires n > 0
  {
    && l <= |e| && b <= biL && window <= Prefix(e, l, b)
    && Rep(x, Power(a, Prefix(e, l, b) - window), n, R)
  }

  /** Taking one more bit: the exponent doubles, and what enters the window is held back. */
  lemma ProgressBit(x: int, x': int, e: seq<Limb>, l: nat, b: nat, window: nat, full: bool, a: int, n: int, R: int)
    requires n > 0 && l < |e| && b < biL && Progress(x, e, l, b + 1, window, a, n, R)
    requires window <= Prefix(e, l, b + 1)
    requires var v := Power(a, Prefix(e, l, b + 1) - window);
             var window' := 2 * window + Bit(e[l], b);
             Rep(x', v * v * if full then Power(a, window') else 1, n, R)
    ensures Progress(x', e, l, b, if full then 0 else 2 * window + Bit(e[l], b), a, n, R)
  {
    hide Prefix, Rep, Bit;
    var p, window' := Prefix(e, l, b + 1), 2 * window + Bit(e[l], b);
    PrefixNextBit(e, l, b);
    PowerAdd(a, p - window, p - window);
    assert 2 * (p - window) == Prefix(e, l, b) - window';
    PowerAdd(a, 2 * (p - window), window');
  }

  lemma ProgressLimb(x: int, e: seq<Limb>, l: nat, window: nat, a: int, n: int, R: int)
    requires n > 0 && l > 0 && Progress(x, e, l, 0, window, a, n, R)
    ensures Progress(x, e, l - 1, biL, window, a, n, R)
  {
    hide Prefix, Rep;
    PrefixNextLimb(e, l);
  }

  lemma ProgressStart(x: int, e: seq<Limb>, a: int, n: int, R: int)
    requires n > 0 && Rep(x, 1, n, R)
    ensures Progress(x, e, |e|, 0, 0, a, n, R)
  {
  }

  lemma ProgressEnd(x: int, e: seq<Limb>, a: int, n: int, R: int)
    requires n > 0 && |e| > 0 && Progress(x, e, 0, 0, 0, a, n, R)
    ensures Rep(x, Power(a, Value(e)), n, R)
  {
    PrefixAll(e);
  }

  /** The table of powers of A at the start of T, for an exponent E that shares no memory with it. */
  method BuildTable(A: Span, N: Span, mm: Limb, RR: Span, welem: nat, T: Span, ghost E: Span, ghost a: int)
    requires A.Valid() && N.Valid() && RR.Valid() && T.Valid() && E.Valid()
    requires 0 < N.len == A.len == RR.len && welem >= 2 && T.len >= welem * N.len + 3 * N.len + 1
    requires T.Apart(A) && T.Apart(N) && T.Apart(RR) && T.Apart(E)
    requires IsMontConstant(mm, N.Limbs()[0]) && RR.Num() < N.Num()
    requires Cong(RR.Num(), Radix(N.len) * Radix(N.len), N.Num())
    requires Rep(A.Num(), a, N.Num(), Radix(N.len))
    modifies T.buf
    ensures N.Limbs() == old(N.Limbs())
    ensures E.Limbs() == old(E.Limbs())
    ensures welem * N.len >= 0 && TableOk(T.Take(welem * N.len).Limbs(), N.len, welem, a, N.Num(), Radix(N.len))
    ensures OnlyChanges(T)
  {
    hide Value, Radix, IsMontConstant, Pow2, Rep, TableOk, Cong;
    var tableLimbs := welem * N.len;
    MulNonneg(welem, N.len);
    PrecomputeWindow(A, N, mm, RR, welem, T.Take(tableLimbs), T.From(tableLimbs).From(N.len), a);
  }

  /** X := A^E in Montgomery form, for the value a that A represents. */
  method ExpMod(X: Span, A: Span, N: Span, E: Span, RR: Span, T: Span, ghost a: int)
    requires X.Valid() && A.Valid() && N.Valid() && E.Valid() && RR.Valid() && T.Valid()
    requires 0 < N.len == X.len == A.len == RR.len && E.len > 0
    requires T.len >= ExpModWorkingLimbs(N.len, E.len)
    requires X.AliasOrApart(A) && X.Apart(N) && X.Apart(E) && X.Apart(RR)
    requires T.Apart(X) && T.Apart(A) && T.Apart(N) && T.Apart(E) && T.Apart(RR)
    requires N.Limbs()[0] % 2 == 1 && RR.Num() < N.Num()
    requires Cong(RR.Num(), Radix(N.len) * Radix(N.len), N.Num())
    requires Rep(A.Num(), a, N.Num(), Radix(N.len))
    modifies X.buf, T.buf
    ensures N.Limbs() == old(N.Limbs())
    ensures Rep(X.Num(), Power(a, old(E.Num())), N.Num(), Radix(N.len))
    ensures OnlyChangesBoth(X, T)
  {
    hide Value, Radix, IsMontConstant, Pow2, Rep, TableOk, Cong, WindowSize;
    var wsize := WindowSize(E.len * biL);
    var welem := Pow2(wsize);
    var tableLimbs := welem * N.len;
    MulNonneg(welem, N.len);
    var mm := MontMulInit(N);
    TwoOrMore(wsize);
    BuildTable(A, N, mm, RR, welem, T, E, a);
    ExpLoop(X, N, mm, E, T.Take(tableLimbs), wsize, T.From(tableLimbs), a);
  }

  lemma TwoOrMore(w: nat)
    requires w >= 1
    ensures Pow2(w) >= 2
  {
  }

  /** X := row 0 of the table, which is 1 in Montgomery form, away from N, E and W. */
  method StartAtOne(X: Span, W: Span, welem: nat, ghost N: Span, ghost E: Span, ghost a: int)
    requires X.Valid() && W.Valid() && N.Valid() && E.Valid()
    requires W.len == welem * X.len && X.len == N.len && welem > 0 && N.Num() > 0
    requires X.Apart(W) && X.Apart(N) && X.Apart(E)
    requires TableOk(W.Limbs(), X.len, welem, a, N.Num(), Radix(N.len))
    modifies X.buf
    ensures N.Limbs() == old(N.Limbs())
    ensures E.Limbs() == old(E.Limbs())
    ensures W.Limbs() == old(W.Limbs())
    ensures Rep(X.Num(), 1, N.Num(), Radix(N.len))
    ensures OnlyChanges(X)
  {
    hide Value, Radix, Pow2, Rep, TableOk;
    ghost var n := N.Num();
    RowsBefore(X.len, 0, welem);
    RowOfEntry(W, X.len, 0);
    TableEntry(W.Limbs(), X.len, welem, a, n, Radix(N.len), 0);
    CopyKeeping(X, Entry(W, X.len, 0), N, E, W);
  }

  /** The bits of E from the highest limb and bit down to the lowest, starting from X = 1. */
  method ExpLoop(X: Span, N: Span, mm: Limb, E: Span, W: Span, wsize: nat, U: Span, ghost a: int)
    requires X.Valid() && N.Valid() && E.Valid() && W.Valid() && U.Valid()
    requires 0 < N.len == X.len && 0 < E.len && W.len == Pow2(wsize) * N.len && U.len >= 3 * N.len + 1 && wsize >= 1
    requires X.Apart(N) && X.Apart(E) && X.Apart(W) && X.Apart(U)
    requires U.Apart(N) && U.Apart(E) && U.Apart(W)
    requires IsMontConstant(mm, N.Limbs()[0]) && N.Num() > 0
    requires TableOk(W.Limbs(), N.len, Pow2(wsize), a, N.Num(), Radix(N.len))
    modifies X.buf, U.buf
    ensures N.Limbs() == old(N.Limbs())
    ensures Rep(X.Num(), Power(a, old(E.Num())), N.Num(), Radix(N.len))
    ensures OnlyChangesBoth(X, U)
  {
    hide Value, Radix, IsMontConstant, Pow2, Rep, TableOk, Progress;
    ghost var n, e, w := N.Limbs(), E.Limbs(), W.Limbs();
    StartAtOne(X, W, Pow2(wsize), N, E, a);
    var limbIndex: nat, bitIndex: nat := E.len, 0;
    var window: nat, windowBits: nat := 0, 0;
    ProgressStart(X.Num(), e, a, Value(n), Radix(N.len));
    WindowRoom(0, 0, wsize);
    while true
      invariant N.Limbs() == n && E.Limbs() == e && W.Limbs() == w
      invariant limbIndex <= E.len && bitIndex < biL && !(limbIndex == 0 && bitIndex == 0)
      invariant limbIndex == E.len ==> bitIndex == 0
      invariant windowBits < wsize && window < Pow2(windowBits)
      invariant Progress(X.Num(), e, limbIndex, bitIndex, window, a, Value(n), Radix(N.len))
      invariant OnlyChangesBoth(X, U)
      decreases limbIndex, bitIndex
    {
      limbIndex, bitIndex, window, windowBits :=
        ExpBit(X, N, mm, E, W, wsize, U, limbIndex, bitIndex, window, windowBits, a);
      if bitIndex == 0 && limbIndex == 0 {
        break;
      }
    }
    ProgressEnd(X.Num(), e, a, Value(n), Radix(N.len));
  }

  /** One round: the next bit of E goes into the window, and a full window into X. */
  method ExpBit(X: Span, N: Span, mm: Limb, E: Span, W: Span, wsize: nat, U: Span, l: nat, b: nat, window: nat,
                windowBits: nat, ghost a: int)
      returns (limbIndex: nat, bitIndex: nat, window': nat, windowBits': nat)
    requires X.Valid() && N.Valid() && E.Valid() && W.Valid() && U.Valid()
    requires 0 < N.len == X.len && W.len == Pow2(wsize) * N.len && U.len >= 3 * N.len + 1
    requires X.Apart(N) && X.Apart(E) && X.Apart(W) && X.Apart(U)
    requires U.Apart(N) && U.Apart(E) && U.Apart(W)
    requires IsMontConstant(mm, N.Limbs()[0]) && N.Num() > 0
    requires TableOk(W.Limbs(), N.len, Pow2(wsize), a, N.Num(), Radix(N.len))
    requires l <= E.len && b < biL && !(l == 0 && b == 0) && (l == E.len ==> b == 0)
    requires windowBits < wsize && window < Pow2(windowBits)
    requires Progress(X.Num(), E.Limbs(), l, b, window, a, N.Num(), Radix(N.len))
    modifies X.buf, U.buf
    ensures N.Limbs() == old(N.Limbs())
    ensures E.Limbs() == old(E.Limbs())
    ensures W.Limbs() == old(W.Limbs())
    ensures limbIndex < E.len && bitIndex < biL
    ensures limbIndex < l || (limbIndex == l && bitIndex < b)
    ensures limbIndex == 0 && bitIndex == 0 ==> window' == 0
    ensures windowBits' < wsize && window' < Pow2(windowBits')
    ensures Progress(X.Num(), E.Limbs(), limbIndex, bitIndex, window', a, N.Num(), Radix(N.len))
    ensures OnlyChangesBoth(X, U)
  {
    hide Value, Radix, IsMontConstant, Pow2, Rep, TableOk, Progress, Bit;
    ghost var n, e, x := N.Num(), E.Limbs(), X.Num();
    if b == 0 {
      ProgressLimb(x, e, l, window, a, n, Radix(N.len));
      limbIndex, bitIndex := l - 1, biL - 1;
    } else {
      limbIndex, bitIndex := l, b - 1;
    }
    assert E.buf[E.off + limbIndex] == e[limbIndex];
    windowBits' := windowBits + 1;
    WindowGrows(window, windowBits, e[limbIndex], bitIndex);
    window' := 2 * window + Bit(E.buf[E.off + limbIndex], bitIndex);
    WindowRoom(window', windowBits', wsize);
    ghost var v := ProgressRep(x, e, limbIndex, bitIndex + 1, window, a, n, Radix(N.len));
    var full := windowBits' == wsize || (bitIndex == 0 && limbIndex == 0);
    ExpStepKeeping(X, N, mm, W, Pow2(wsize), U, full, window', E, a, v);
    ProgressBit(x, X.Num(), e, limbIndex, bitIndex, window, full, a, n, Radix(N.len));
    if full {
      window', windowBits' := 0, 0;
      WindowRoom(0, 0, 0);
    }
  }

  lemma ProgressRep(x: int, e: seq<Limb>, l: nat, b: nat, window: nat, a: int, n: int, R: int) returns (v: int)
    requires n > 0 && Progress(x, e, l, b, window, a, n, R)
    ensures l <= |e| && b <= biL && window <= Prefix(e, l, b)
    ensures v == Power(a, Prefix(e, l, b) - window) && Rep(x, v, n, R)
  {
    v := Power(a, Prefix(e, l, b) - window);
  }

  lemma WindowGrows(window: nat, bits: nat, x: Limb, b: nat)
    requires window < Pow2(bits)
    ensures 0 <= 2 * window + Bit(x, b) < Pow2(bits + 1)
  {
  }

  lemma WindowRoom(window: nat, bits: nat, wsize: nat)
    requires bits <= wsize && (window < Pow2(bits) || window == 0)
    ensures window < Pow2(wsize)
  {
    Pow2Mono(bits, wsize);
  }
}
