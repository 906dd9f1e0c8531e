/** Modular arithmetic on reduced numbers, bignum_mod_raw.c. */
module MpiModRaw {
  import opened Bits
  import opened Congruence
  import opened Fermat
  import opened MpiLimbs
  import opened MpiCore
  import opened MpiMont
  import opened MpiExp

  /** x is v reduced modulo n. */
  ghost predicate Reduces(x: int, v: int, n: int) {
    n > 0 && x == v % n
  }

  lemma OneOrZero(c: int, R: int)
    requires 0 <= c <= 1
    ensures c * R == if c == 1 then R else 0
  {
    if c == 0 {
      assert 0 * R == 0;
    } else {
      assert 1 * R == R;
    }
  }

  /** X := A + B with a carry, away from N. */
  method AddKeeping(X: Span, A: Span, B: Span, ghost N: Span) returns (c: Limb)
    requires X.Valid() && A.Valid() && B.Valid() && N.Valid() && X.len == A.len == B.len
    requires X.AliasOrApart(A) && X.AliasOrApart(B) && X.Apart(N)
    modifies X.buf
    ensures c <= 1 && X.Num() + c * Radix(X.len) == old(A.Num()) + old(B.Num())
    ensures N.Limbs() == old(N.Limbs())
    ensures OnlyChanges(X)
  {
    hide Value, Radix, Pow2;
    c := Add(X, A, B);
  }

  /** X := A - B with a borrow, away from N unless N is subtracted from. */
  method SubKeeping(X: Span, A: Span, B: Span, ghost N: Span) returns (c: Limb)
    requires X.Valid() && A.Valid() && B.Valid() && N.Valid() && X.len == A.len == B.len
    requires X.AliasOrApart(A) && X.AliasOrApart(B) && X.Apart(N)
    modifies X.buf
    ensures c == if old(A.Num()) < old(B.Num()) then 1 else 0
    ensures X.Num() == old(A.Num()) - old(B.Num()) + c * Radix(X.len)
    ensures N.Limbs() == old(N.Limbs())
    ensures OnlyChanges(X)
  {
    hide Value, Radix, Pow2;
    c := Sub(X, A, B);
  }

  /** X := A - B modulo N. */
  method RawSub(X: Span, A: Span, B: Span, N: Span)
    requires X.Valid() && A.Valid() && B.Valid() && N.Valid() && X.len == A.len == B.len == N.len
    requires X.AliasOrApart(A) && X.AliasOrApart(B) && X.Apart(N)
    requires A.Num() < N.Num() && B.Num() < N.Num()
    modifies X.buf
    ensures Reduces(X.Num(), old(A.Num()) - old(B.Num()), old(N.Num()))
    ensures OnlyChanges(X)
  {
    hide Value, Radix, Pow2;
    ghost var a, b, n := A.Num(), B.Num(), N.Limbs();
    ValueBound(n);
    var c := SubKeeping(X, A, B, N);
    ghost var x := X.Num();
    var c' := AddIf(X, N, c != 0);
    ValueBound(X.Limbs());
    SubReduced(a, b, Value(n), x, c, X.Num(), c', Radix(X.len));
  }

  /** The difference, and the modulus added back after a borrow. */
  lemma SubReduced(a: nat, b: nat, n: nat, x: int, c: int, x': nat, c': int, R: nat)
    requires a < n && b < n && n <= R && x' < R && 0 <= c' <= 1
    requires c == (if a < b then 1 else 0) && x == a - b + c * R
    requires x' + c' * R == x + if c != 0 then n else 0
    ensures Reduces(x', a - b, n)
  {
    OneOrZero(c', R);
    OneOrZero(c, R);
    if a < b {
      DivModUnique(a - b, n, -1, a - b + n);
    } else {
      DivModUnique(a - b, n, 0, a - b);
    }
  }

  /** X := A + B modulo N. */
  method RawAdd(X: Span, A: Span, B: Span, N: Span)
    requires X.Valid() && A.Valid() && B.Valid() && N.Valid() && X.len == A.len == B.len == N.len
    requires X.AliasOrApart(A) && X.AliasOrApart(B) && X.Apart(N)
    requires A.Num() < N.Num() && B.Num() < N.Num()
    modifies X.buf
    ensures Reduces(X.Num(), old(A.Num()) + old(B.Num()), old(N.Num()))
    ensures OnlyChanges(X)
  {
    hide Value, Radix, Pow2;
    ghost var a, b, n := A.Num(), B.Num(), N.Limbs();
    ValueBound(n);
    var carry := AddKeeping(X, A, B, N);
    ghost var x1 := X.Num();
    ValueBound(X.Limbs());
    var borrow := SubKeeping(X, X, N, N);
    ghost var x2 := X.Num();
    ValueBound(X.Limbs());
    var c := AddIf(X, N, carry != borrow);
    ValueBound(X.Limbs());
    AddReduced(a, b, Value(n), x1, carry, x2, borrow, X.Num(), c, Radix(X.len));
  }

  /** The sum less the modulus, unless that borrows from a sum that did not carry. A carry without a
      borrow cannot happen. */
  lemma AddReduced(a: nat, b: nat, n: nat, x1: nat, carry: int, x2: nat, borrow: int, x': nat, c: int, R: nat)
    requires a < n && b < n && n < R && x1 < R && x2 < R && x' < R
    requires 0 <= carry <= 1 && 0 <= c <= 1
    requires x1 + carry * R == a + b
    requires borrow == (if x1 < n then 1 else 0) && x2 == x1 - n + borrow * R
    requires x' + c * R == x2 + if carry != borrow then n else 0
    ensures !(carry == 1 && borrow == 0)
    ensures Reduces(x', a + b, n)
  {
    OneOrZero(c, R);
    OneOrZero(carry, R);
    OneOrZero(borrow, R);
    if a + b < n {
      DivModUnique(a + b, n, 0, a + b);
    } else {
      DivModUnique(a + b, n, 1, a + b - n);
    }
  }

  /** X := -A modulo N. */
  method RawNeg(X: Span, A: Span, N: Span)
    requires X.Valid() && A.Valid() && N.Valid() && X.len == A.len == N.len
    requires X.AliasOrApart(A) && X.Apart(N)
    requires A.Num() < N.Num()
    modifies X.buf
    ensures Reduces(X.Num(), -(old(A.Num()) as int), old(N.Num()))
    ensures OnlyChanges(X)
  {
    hide Value, Radix, Pow2;
    ghost var a, n := A.Num(), N.Limbs();
    ValueBound(n);
    var unused := SubKeeping(X, N, A, N);
    var borrow := SubKeeping(X, X, N, N);
    ghost var x2 := X.Num();
    var c := AddIf(X, N, borrow != 0);
    ValueBound(X.Limbs());
    NegReduced(a, Value(n), x2, borrow, X.Num(), c, Radix(X.len));
  }

  /** N - A, which is N itself, and so one modulus too many, exactly when A is zero. */
  lemma NegReduced(a: nat, n: nat, x2: int, borrow: int, x': nat, c: int, R: nat)
    requires a < n < R && x' < R && 0 <= c <= 1
    requires borrow == (if n - a < n then 1 else 0) && x2 == n - a - n + borrow * R
    requires x' + c * R == x2 + if borrow != 0 then n else 0
    ensures Reduces(x', -(a as int), n)
  {
    OneOrZero(c, R);
    OneOrZero(borrow, R);
    if a == 0 {
      DivModUnique(0, n, 0, 0);
    } else {
      DivModUnique(-(a as int), n, -1, n - a);
    }
  }

  // ---- inversion by Fermat's little theorem ----

  /** A prime above 2 does not divide R, so R is invertible modulo it. */
  lemma RadixInvertiblePrime(p: nat, limbs: nat)
    requires Prime(p) && p > 2
    ensures HasInverse(Radix(limbs), p)
  {
    hide Cong;
    RadixIsPow2(limbs);
    PowersNonZero(p, limbs * biL);
    var R := Radix(limbs);
    LittleTheorem(p, R);
    assert Power(R, p - 1) == R * Power(R, p - 2);
    assert Cong(R * Power(R, p - 2), 1, p);
  }

  lemma {:induction false} PowersNonZero(p: nat, k: nat)
    requires Prime(p) && p > 2
    ensures !Cong(Pow2(k), 0, p)
  {
    hide Cong;
    if k == 0 {
      OneNotZero(p);
    } else {
      PowersNonZero(p, k - 1);
      if Cong(2, 0, p) {
        CongSmall(2, 0, p);
      }
      if Cong(Pow2(k), 0, p) {
        Euclid(p, 2, Pow2(k - 1));
      }
    }
  }

  /** Every reduced number represents some value. */
  lemma Represents(x: int, n: int, R: int) returns (v: int)
    requires n > 0 && HasInverse(R, n) && 0 <= x < n
    ensures Rep(x, v, n, R)
  {
    hide Cong;
    var inverse: int :| Cong(R * inverse, 1, n);
    v := x * inverse;
    CongScale(R * inverse, 1, x, n);
    assert x * (R * inverse) == v * R && x * 1 == x;
    CongSym(v * R, x, n);
  }

  /** The power p - 2 of a is the inverse of a. */
  lemma FermatInverse(p: nat, a: int)
    requires Prime(p) && !Cong(a, 0, p)
    ensures Cong(a * Power(a, p - 2), 1, p)
  {
    LittleTheorem(p, a);
  }

  /** x is the representative of an inverse of the value y represents: the product of the two is the
      representative of one, once more multiplied by R. */
  ghost predicate MontInverse(x: int, y: int, n: int, R: int)
    requires n > 0
  {
    0 <= x < n && Cong(x * y, R * R, n)
  }

  lemma InverseRepresents(x: int, y: int, a: int, p: nat, R: int)
    requires Prime(p) && y != 0
    requires Rep(y, a, p, R) && Rep(x, Power(a, p - 2), p, R)
    ensures MontInverse(x, y, p, R)
  {
    hide Cong, Power;
    if Cong(a, 0, p) {
      CongScale(a, 0, R, p);
      CongTrans(y, a * R, 0 * R, p);
      CongSmall(y, 0, p);
    }
    FermatInverse(p, a);
    var w := Power(a, p - 2);
    CongMul(x, w * R, y, a * R, p);
    Interleave(w, R, a, R);
    assert a * w == w * a;
    CongScale(a * w, 1, R * R, p);
    CongTrans(x * y, w * a * (R * R), R * R, p);
  }

  /** X := the inverse of A in Montgomery form, for a prime N. */
  method RawInvPrime(X: Span, A: Span, N: Span, RR: Span, T: Span)
    requires X.Valid() && A.Valid() && N.Valid() && RR.Valid() && T.Valid()
    requires 0 < N.len == X.len == A.len == RR.len
    requires T.len >= N.len + ExpModWorkingLimbs(N.len, N.len)
    requires X.AliasOrApart(A) && X.Apart(N) && X.Apart(RR)
    requires T.Apart(X) && T.Apart(A) && T.Apart(N) && T.Apart(RR)
    requires N.Limbs()[0] % 2 == 1 && RR.Num() < N.Num()
    requires Cong(RR.Num(), Radix(N.len) * Radix(N.len), N.Num())
    requires Prime(N.Num()) && 0 < A.Num() < N.Num()
    modifies X.buf, T.buf
    ensures N.Limbs() == old(N.Limbs())
    ensures MontInverse(X.Num(), old(A.Num()), N.Num(), Radix(N.len))
    ensures OnlyChangesBoth(X, T)
  {
    hide Value, Radix, Pow2, Rep, Cong, Prime, MontInverse, ExpModWorkingLimbs, Power;
    ghost var n, a, rr := N.Limbs(), A.Num(), RR.Num();
    OddPrime(n);
    var E := T.Take(N.len);
    InvSubtract(E, N, A, RR);
    RadixInvertiblePrime(Value(n), N.len);
    ghost var v := Represents(a, Value(n), Radix(N.len));
    ExpMod(X, A, N, E, RR, T.From(N.len), v);
    InverseRepresents(X.Num(), a, v, Value(n), Radix(N.len));
  }

  lemma OddPrime(n: seq<Limb>)
    requires |n| > 0 && n[0] % 2 == 1 && Prime(Value(n))
    ensures Value(n) > 2
  {
    ValueLow(n);
    BaseBig();
    if Value(n) == 2 {
      EvenMultiple(BASE, Value(n[1..]));
    }
  }

  lemma EvenMultiple(b: int, v: int)
    requires b % 2 == 0
    ensures (b * v) % 2 == 0
  {
    CongZero(b, 2);
    CongScale(b, 0, v, 2);
    CongZero(b * v, 2);
  }

  /** E := N - 2, away from N, A and RR. */
  method InvSubtract(E: Span, N: Span, ghost A: Span, ghost RR: Span)
    requires E.Valid() && N.Valid() && A.Valid() && RR.Valid() && E.len == N.len > 0 && N.Num() > 2
    requires E.Apart(N) && E.Apart(A) && E.Apart(RR)
    modifies E.buf
    ensures N.Limbs() == old(N.Limbs())
    ensures A.Limbs() == old(A.Limbs())
    ensures RR.Limbs() == old(RR.Limbs())
    ensures E.Num() == N.Num() - 2
    ensures OnlyChanges(E)
  {
    hide Value, Radix, Pow2;
    BaseBig();
    var borrow := SubInt(E, N, 2);
  }
}
