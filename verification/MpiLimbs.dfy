/** Multi-limb little-endian numbers: limbs, spans of limbs in a buffer, and the value they stand for. */
module MpiLimbs {
  import opened Bits
  import opened Congruence

  /** biL, the number of bits of a limb. Everything below holds for both widths mbedTLS supports. */
  type LimbWidth = w: nat | w == 32 || w == 64 witness 32
  const biL: LimbWidth

  /** The base in which numbers are written: one more than the largest limb. */
  const BASE: int := Pow2(biL)

  type Limb = x: int | 0 <= x < Pow2(biL) witness 0

  /** BASE to the power n: one more than the largest number of n limbs. */
  function Radix(n: nat): (r: nat)
    ensures r >= 1
  {
    if n == 0 then 1 else MulPos(BASE, Radix(n - 1)); BASE * Radix(n - 1)
  }

  lemma MulPos(a: nat, b: nat)
    requires a >= 1 && b >= 1
    ensures a * b >= 1
  {
  }

  lemma MulNonneg(a: int, b: int)
    requires a >= 0 && b >= 0
    ensures a * b >= 0
  {
  }

  /** The number a little-endian sequence of limbs stands for. */
  function Value(s: seq<Limb>): nat
  {
    if |s| == 0 then 0
    else
      MulNonneg(s[|s| - 1], Radix(|s| - 1));
      Value(s[..|s| - 1]) + s[|s| - 1] * Radix(|s| - 1)
  }

  /** A pointer to limbs together with how many of them belong to the number. */
  datatype Span = Span(buf: array<Limb>, off: nat, len: nat) {
    ghost predicate Valid() {
      off + len <= buf.Length
    }

    ghost function Limbs(): (s: seq<Limb>)
      reads buf
      requires Valid()
      ensures |s| == len
    {
      buf[off..off + len]
    }

    /** The number stored in the span. */
    ghost function Num(): nat
      reads buf
      requires Valid()
    {
      Value(Limbs())
    }

    /** Element k of a buffer belongs to the span. */
    ghost predicate Has(b: array<Limb>, k: int) {
      buf == b && off <= k < off + len
    }

    /** The two spans share no limb. */
    ghost predicate Apart(other: Span) {
      buf != other.buf || off + len <= other.off || other.off + other.len <= off
    }

    /** The span is part of the other one. */
    ghost predicate Within(other: Span) {
      buf == other.buf && other.off <= off && off + len <= other.off + other.len
    }

    /** The two spans start at the same limb, or share none. */
    ghost predicate AliasOrApart(other: Span) {
      Apart(other) || (buf == other.buf && off == other.off)
    }

    /** The span without its first limbs: pointer arithmetic on the limb pointer. */
    function From(i: nat): (s: Span)
      requires i <= len
      ensures s.buf == buf && s.off == off + i && s.len == len - i
    {
      Span(buf, off + i, len - i)
    }

    /** The first limbs of the span. */
    function Take(n: nat): (s: Span)
      requires n <= len
      ensures s.buf == buf && s.off == off && s.len == n
    {
      Span(buf, off, n)
    }
  }

  /** Nothing outside the span has changed in its buffer. */
  twostate predicate OnlyChanges(x: Span)
    requires x.Valid()
    reads x.buf
  {
    forall k | 0 <= k < x.buf.Length && !(x.off <= k < x.off + x.len) :: x.buf[k] == old(x.buf[k])
  }

  /** A part of a span holds the corresponding part of its limbs. */
  lemma PartLimbs(s: Span, i: nat, n: nat)
    requires s.Valid() && i + n <= s.len
    ensures s.From(i).Take(n).Limbs() == s.Limbs()[i..i + n]
  {
  }

  /** Nothing outside the two spans has changed in their buffers. */
  twostate predicate OnlyChangesBoth(x: Span, t: Span)
    requires x.Valid() && t.Valid()
    reads x.buf, t.buf
  {
    && (forall k | 0 <= k < x.buf.Length && !x.Has(x.buf, k) && !t.Has(x.buf, k) :: x.buf[k] == old(x.buf[k]))
    && (forall k | 0 <= k < t.buf.Length && !x.Has(t.buf, k) && !t.Has(t.buf, k) :: t.buf[k] == old(t.buf[k]))
  }

  // ---- facts about powers and values ----

  lemma {:induction false} RadixAdd(m: nat, n: nat)
    ensures Radix(m + n) == Radix(m) * Radix(n)
  {
    if m == 0 {
    } else {
      RadixAdd(m - 1, n);
      assert Radix(m) == BASE * Radix(m - 1);
      assert Radix(m + n) == BASE * Radix(m - 1 + n);
      MulAssoc(BASE, Radix(m - 1), Radix(n));
    }
  }

  lemma MulAssoc(a: int, b: int, c: int)
    ensures (a * b) * c == a * (b * c)
  {
  }

  lemma BaseBig()
    ensures BASE >= 0x1_0000_0000 && BASE % 2 == 0
  {
    hide Pow2;
    Pow2At32();
    Pow2Mono(32, biL);
    Pow2Double(biL - 1);
  }

  lemma Pow2Double(n: nat)
    ensures Pow2(n + 1) == 2 * Pow2(n)
  {
  }

  lemma Pow2At32()
    ensures Pow2(32) == 0x1_0000_0000
  {
    assert Pow2(2) == 2 * Pow2(1) == 4;
    Pow2Add(2, 2);
    Pow2Add(4, 4);
    Pow2Add(8, 8);
    Pow2Add(16, 16);
  }

  lemma {:induction false} RadixIsPow2(n: nat)
    ensures Radix(n) == Pow2(n * biL)
  {
    if n == 0 {
      assert 0 * biL == 0;
    } else {
      hide Pow2, Radix;
      RadixIsPow2(n - 1);
      MulDistrib(n - 1, 1, biL);
      Pow2Add(biL, (n - 1) * biL);
      RadixStep(n - 1);
    }
  }

  lemma RadixStep(n: nat)
    ensures Radix(n + 1) == BASE * Radix(n)
  {
  }

  lemma MulDistrib(a: int, b: int, c: int)
    ensures (a + b) * c == a * c + b * c
  {
  }

  lemma {:induction false} ValueBound(s: seq<Limb>)
    ensures Value(s) < Radix(|s|)
  {
    if |s| == 0 {
    } else {
      var n := |s| - 1;
      ValueBound(s[..n]);
      var top: int := s[n];
      assert top + 1 <= BASE;
      MulMonotone(top + 1, BASE, Radix(n));
      MulDistrib(top, 1, Radix(n));
    }
  }

  /** Splitting a number into its low i limbs and the rest. */
  lemma {:induction false} ValueSplit(s: seq<Limb>, i: nat)
    requires i <= |s|
    ensures Value(s) == Value(s[..i]) + Radix(i) * Value(s[i..])
  {
    if i == |s| {
      assert s[..i] == s;
    } else {
      var n := |s| - 1;
      var low := s[..n];
      ValueSplit(low, i);
      assert low[..i] == s[..i];
      assert s[i..][..n - i] == low[i..];
      assert s[i..][n - i] == s[n];
      var hi := Value(low[i..]);
      var top: int := s[n];
      assert Value(s[i..]) == hi + top * Radix(n - i);
      RadixAdd(i, n - i);
      calc {
        Value(s);
        Value(s[..i]) + Radix(i) * hi + top * Radix(n);
        { MulAssoc(top, Radix(i), Radix(n - i)); }
        Value(s[..i]) + Radix(i) * hi + top * Radix(i) * Radix(n - i);
        { Rearrange(Radix(i), hi, top, Radix(n - i)); }
        Value(s[..i]) + Radix(i) * (hi + top * Radix(n - i));
      }
    }
  }

  lemma Rearrange(r: int, h: int, t: int, q: int)
    ensures r * h + t * r * q == r * (h + t * q)
  {
  }

  /** The lowest limb and the number the others stand for. */
  lemma ValueLow(s: seq<Limb>)
    requires |s| > 0
    ensures Value(s) == s[0] + BASE * Value(s[1..])
  {
    ValueSplit(s, 1);
    assert s[..1] == [s[0]];
    ValueOne(s[0]);
    assert Radix(1) == BASE * Radix(0);
  }

  lemma ValueOne(x: Limb)
    ensures Value([x]) == x
  {
    assert [x][..0] == [];
  }

  lemma {:induction false} ValueZeros(s: seq<Limb>)
    requires forall k | 0 <= k < |s| :: s[k] == 0
    ensures Value(s) == 0
  {
    if |s| > 0 {
      ValueZeros(s[..|s| - 1]);
    }
  }

  /** A number is zero only when all its limbs are. */
  lemma {:induction false} ValueZeroLimbs(s: seq<Limb>)
    requires Value(s) == 0
    ensures forall k | 0 <= k < |s| :: s[k] == 0
  {
    if |s| > 0 {
      hide Value, Radix;
      var n := |s| - 1;
      ValueTop(s);
      BothZero(Value(s[..n]), s[n], Radix(n));
      ValueZeroLimbs(s[..n]);
    }
  }

  /** The highest limb and the number the others stand for. */
  lemma ValueTop(s: seq<Limb>)
    requires |s| > 0
    ensures Value(s) == Value(s[..|s| - 1]) + s[|s| - 1] * Radix(|s| - 1)
  {
  }

  lemma BothZero(low: nat, top: nat, r: nat)
    requires low + top * r == 0 && r >= 1
    ensures low == 0 && top == 0
  {
    if top > 0 {
      MulMonotone(1, top, r);
    }
  }

  /** Numbers of equal length are equal only when their limbs are. */
  lemma {:induction false} ValueInjective(s: seq<Limb>, t: seq<Limb>)
    requires |s| == |t| && Value(s) == Value(t)
    ensures s == t
  {
    if |s| > 0 {
      var n := |s| - 1;
      ValueBound(s[..n]);
      ValueBound(t[..n]);
      DivModUnique(Value(s), Radix(n), s[n], Value(s[..n]));
      DivModUnique(Value(s), Radix(n), t[n], Value(t[..n]));
      ValueInjective(s[..n], t[..n]);
      assert s == s[..n] + [s[n]];
      assert t == t[..n] + [t[n]];
    }
  }

  /** One more limb of a number. */
  lemma ValueSnoc(s: seq<Limb>, i: nat)
    requires i < |s|
    ensures Value(s[..i + 1]) == Value(s[..i]) + s[i] * Radix(i)
  {
    assert s[..i + 1][..i] == s[..i];
  }
}
