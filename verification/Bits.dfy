/** Counting bits of unsigned numbers, lfs_util.h. */
module Bits {
  function Pow2(n: nat): (r: nat)
    ensures r >= 1
  {
    if n == 0 then 1 else 2 * Pow2(n - 1)
  }

  /** The number of ones. */
  function Popc(n: nat): nat {
    if n == 0 then 0 else n % 2 + Popc(n / 2)
  }

  /** The number of trailing zeros. */
  function Ctz(n: nat): nat
    requires n > 0
  {
    if n % 2 == 1 then 0 else 1 + Ctz(n / 2)
  }

  /** The number of bits up to the highest one. */
  function BitLen(n: nat): nat {
    if n == 0 then 0 else 1 + BitLen(n / 2)
  }

  /** The lowest k bits are zero. */
  predicate DivBy(n: nat, k: nat) {
    k == 0 || (n % 2 == 0 && DivBy(n / 2, k - 1))
  }

  lemma {:induction false} Pow2Add(m: nat, n: nat)
    ensures Pow2(m + n) == Pow2(m) * Pow2(n)
  {
    if m > 0 {
      Pow2Add(m - 1, n);
      Twice(Pow2(m - 1), Pow2(n));
    }
  }

  lemma Twice(a: int, b: int)
    ensures 2 * (a * b) == 2 * a * b
  {
  }

  lemma {:induction false} Pow2Mono(m: nat, n: nat)
    requires m <= n
    ensures Pow2(m) <= Pow2(n)
  {
    if m < n {
      Pow2Mono(m, n - 1);
    }
  }

  /** Exactly the numbers of k bits are below the k-th power of two. */
  lemma {:induction false} BitLenBound(n: nat, k: nat)
    ensures n < Pow2(k) <==> BitLen(n) <= k
  {
    if n > 0 {
      if k > 0 {
        BitLenBound(n / 2, k - 1);
      }
    }
  }

  lemma {:induction false} BitLenMono(m: nat, n: nat)
    requires m <= n
    ensures BitLen(m) <= BitLen(n)
  {
    if m > 0 {
      BitLenMono(m / 2, n / 2);
    }
  }

  lemma {:induction false} PopcBitLen(n: nat)
    ensures Popc(n) <= BitLen(n)
  {
    if n > 0 {
      PopcBitLen(n / 2);
    }
  }

  /** A number with so many ones is at least that large. */
  lemma {:induction false} PopcBound(n: nat)
    ensures n + 1 >= Pow2(Popc(n))
  {
    if n > 0 {
      PopcBound(n / 2);
    }
  }

  /** Borrowing: one less turns the lowest one into ones below it. */
  lemma {:induction false} PopcPred(n: nat)
    requires n > 0
    ensures Popc(n - 1) + 1 == Popc(n) + Ctz(n)
  {
    if n % 2 == 1 {
      assert (n - 1) / 2 == n / 2;
    } else {
      PopcPred(n / 2);
      assert (n - 1) / 2 == n / 2 - 1 && (n - 1) % 2 == 1;
    }
  }

  lemma {:induction false} CtzDivBy(n: nat, k: nat)
    requires n > 0
    ensures k <= Ctz(n) <==> DivBy(n, k)
  {
    if k > 0 && n % 2 == 0 {
      CtzDivBy(n / 2, k - 1);
    }
  }

  /** Going back by a power of two that divides the position, short of the start. */
  lemma {:induction false} DivByMinus(n: nat, k: nat)
    requires DivBy(n, k) && n > 0
    ensures n >= Pow2(k) && DivBy(n - Pow2(k), k)
  {
    if k > 0 {
      DivByMinus(n / 2, k - 1);
      assert (n - Pow2(k)) / 2 == n / 2 - Pow2(k - 1);
    }
  }

  lemma {:induction false} DivByLess(n: nat, k: nat, j: nat)
    requires DivBy(n, k) && j <= k
    ensures DivBy(n, j)
  {
    if j > 0 {
      DivByLess(n / 2, k - 1, j - 1);
    }
  }

  /** Half of the step is exactly what the new position is divisible by. */
  lemma {:induction false} HalfStep(n: nat, k: nat)
    requires DivBy(n, k + 1) && n > 0
    ensures n > Pow2(k) && DivBy(n - Pow2(k), k) && Ctz(n - Pow2(k)) == k
    ensures n >= 2 * Pow2(k)
  {
    if k > 0 {
      HalfStep(n / 2, k - 1);
      assert (n - Pow2(k)) / 2 == n / 2 - Pow2(k - 1);
    }
  }

  /** Clearing the lowest one. */
  lemma {:induction false} ClearLowest(n: nat)
    requires n > 0
    ensures n >= Pow2(Ctz(n)) && Popc(n - Pow2(Ctz(n))) == Popc(n) - 1
  {
    if n % 2 == 1 {
      assert (n - 1) / 2 == n / 2;
    } else {
      ClearLowest(n / 2);
      assert (n - Pow2(Ctz(n))) / 2 == n / 2 - Pow2(Ctz(n / 2));
    }
  }

  // ---- lfs_npw2 without intrinsics ----

  lemma ShiftBy2(x: nat)
    requires x >= 4
    ensures BitLen(x) == 2 + BitLen(x / 4)
  {
    assert x / 4 == x / 2 / 2;
  }

  lemma ShiftBy4(x: nat)
    requires x >= 0x10
    ensures BitLen(x) == 4 + BitLen(x / 0x10)
  {
    hide BitLen;
    ShiftBy2(x);
    ShiftBy2(x / 4);
    assert x / 0x10 == x / 4 / 4;
  }

  lemma ShiftBy8(x: nat)
    requires x >= 0x100
    ensures BitLen(x) == 8 + BitLen(x / 0x100)
  {
    hide BitLen;
    ShiftBy4(x);
    ShiftBy4(x / 0x10);
    assert x / 0x100 == x / 0x10 / 0x10;
  }

  lemma ShiftBy16(x: nat)
    requires x >= 0x10000
    ensures BitLen(x) == 16 + BitLen(x / 0x10000)
  {
    hide BitLen;
    ShiftBy8(x);
    ShiftBy8(x / 0x100);
    assert x / 0x10000 == x / 0x100 / 0x100;
  }

  /** Shifts x right by that many bits if more than these are in use. */
  method ShiftIf(x: nat, bits: nat) returns (y: nat, s: nat)
    requires bits in {2, 4, 8, 16} && x < Pow2(2 * bits)
    ensures y < Pow2(bits) && s + BitLen(y) == BitLen(x) && (x == 0 ==> s == 0 && y == 0) && (x > 0 ==> y > 0)
  {
    hide BitLen;
    SmallPowers();
    if x >= Pow2(bits) {
      if bits == 16 { ShiftBy16(x); }
      if bits == 8 { ShiftBy8(x); }
      if bits == 4 { ShiftBy4(x); }
      if bits == 2 { ShiftBy2(x); }
      y, s := x / Pow2(bits), bits;
    } else {
      y, s := x, 0;
    }
  }

  lemma SmallPowers()
    ensures Pow2(2) == 4 && Pow2(4) == 0x10 && Pow2(8) == 0x100 && Pow2(16) == 0x10000 && Pow2(32) == 0x1_0000_0000
  {
    assert Pow2(2) == 2 * Pow2(1) == 4;
    Pow2Add(2, 2);
    Pow2Add(4, 4);
    Pow2Add(8, 8);
    Pow2Add(16, 16);
  }

  /** The smallest exponent of a power of two that is not below a, except that 1 gives 1, and 0 gives 32. */
  method Npw2(a: nat) returns (r: nat)
    requires a < 0x1_0000_0000
    ensures a >= 2 ==> r == BitLen(a - 1) >= 1 && Pow2(r - 1) < a <= Pow2(r)
    ensures a == 1 ==> r == 1
    ensures a == 0 ==> r == 32
  {
    hide BitLen, Pow2;
    SmallPowers();
    var x := (a + 0xffff_ffff) % 0x1_0000_0000;
    ghost var all := x;
    var s;
    x, s := ShiftIf(x, 16);
    r := s;
    x, s := ShiftIf(x, 8);
    r := r + s;
    x, s := ShiftIf(x, 4);
    r := r + s;
    x, s := ShiftIf(x, 2);
    r := r + s;
    SmallBitLen(x);
    r := r + x / 2 + 1;
    if a != 1 {
      BitLenBound(all, r);
      BitLenBound(all, r - 1);
      Top();
    }
  }

  lemma Top()
    ensures BitLen(0xffff_ffff) == 32
  {
    hide BitLen;
    SmallPowers();
    ShiftBy16(0xffff_ffff);
    ShiftBy8(0xffff);
    ShiftBy4(0xff);
    ShiftBy2(0xf);
    SmallBitLen(3);
  }

  lemma SmallBitLen(x: nat)
    requires x <= 3
    ensures BitLen(x) == if x == 0 then 0 else x / 2 + 1
  {
    assert BitLen(1) == 1 + BitLen(0);
  }
}
