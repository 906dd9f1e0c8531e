/** Numbers as strings of bytes, bignum_core.c. */
module MpiBytes {
  import opened Bits
  import opened Congruence
  import opened MpiLimbs

  newtype Byte = x: int | 0 <= x < 256

  const ERR_BUFFER_TOO_SMALL := -8

  /** ciL, the number of bytes of a limb. */
  function LimbBytes(): (c: nat)
    ensures c >= 4 && 8 * c == biL
  {
    biL / 8
  }

  /** Byte i of a number, counted from the lowest. */
  function GetByte(a: seq<Limb>, i: nat): Byte
    requires i < |a| * LimbBytes()
  {
    LimbIndex(i, |a|);
    (a[i / LimbBytes()] as int / Pow2(8 * (i % LimbBytes())) % 256) as Byte
  }

  lemma LimbIndex(i: nat, len: nat)
    requires i < len * LimbBytes()
    ensures i / LimbBytes() < len && 8 * i == i / LimbBytes() * biL + 8 * (i % LimbBytes())
    ensures 8 * (i % LimbBytes()) + 8 <= biL
  {
    var c := LimbBytes();
    DivModOf(i, c);
    if i / c >= len {
      MulMonotone(len, i / c, c);
    }
    assert 8 * (i / c * c) == i / c * (8 * c);
  }

  /** The number a little-endian string of bytes stands for. */
  function LeNum(s: seq<Byte>): nat {
    if |s| == 0 then 0
    else
      MulNonneg(s[|s| - 1] as int, Pow2(8 * (|s| - 1)));
      LeNum(s[..|s| - 1]) + s[|s| - 1] as int * Pow2(8 * (|s| - 1))
  }

  /** The number a big-endian string of bytes stands for. */
  function BeNum(s: seq<Byte>): nat {
    if |s| == 0 then 0 else BeNum(s[..|s| - 1]) * 256 + s[|s| - 1] as int
  }

  function Reversed(s: seq<Byte>): (r: seq<Byte>)
    ensures |r| == |s| && forall k | 0 <= k < |s| :: r[k] == s[|s| - 1 - k]
  {
    seq(|s|, k requires 0 <= k < |s| => s[|s| - 1 - k])
  }

  /** Reading a string backwards in the other byte order gives the same number. */
  lemma {:induction false} BeOfReversed(s: seq<Byte>)
    ensures BeNum(Reversed(s)) == LeNum(s)
  {
    if |s| > 0 {
      BeOfReversed(s[1..]);
      assert Reversed(s)[..|s| - 1] == Reversed(s[1..]);
      LeNumLow(s);
    }
  }

  /** The lowest byte, and the number the others stand for. */
  lemma {:induction false} LeNumLow(s: seq<Byte>)
    requires |s| > 0
    ensures LeNum(s) == s[0] as int + 256 * LeNum(s[1..])
  {
    var n := |s| - 1;
    if n == 0 {
      assert s[..0] == [] && s[1..] == [];
    } else {
      LeNumLow(s[..n]);
      assert s[..n][1..] == s[1..][..n - 1];
      Pow2Byte(8 * (n - 1));
      TopByte(s[n] as int, Pow2(8 * (n - 1)), LeNum(s[1..][..n - 1]));
    }
  }

  lemma Pow2Byte(k: nat)
    ensures Pow2(k + 8) == 256 * Pow2(k)
  {
    Pow2Add(k, 8);
    assert Pow2(4) == 16;
    Pow2Add(4, 4);
  }

  lemma TopByte(t: int, p: int, low: int)
    ensures 256 * low + t * (256 * p) == 256 * (low + t * p)
  {
  }

  // ---- the bytes of a number are its base-256 digits ----

  lemma ByteIsDigit(a: seq<Limb>, i: nat)
    requires i < |a| * LimbBytes()
    ensures GetByte(a, i) as int == Value(a) / Pow2(8 * i) % 256
  {
    hide Value, Pow2, Radix;
    LimbIndex(i, |a|);
    LimbDigit(a, i / LimbBytes(), 8 * (i % LimbBytes()));
  }

  /** Eight bits of limb l, from bit b of the limb on. */
  lemma LimbDigit(a: seq<Limb>, l: nat, b: nat)
    requires l < |a| && b + 8 <= biL
    ensures (a[l] as int) / Pow2(b) % 256 == Value(a) / Pow2(l * biL + b) % 256
  {
    hide Value, Pow2, Radix;
    var m, p, r := Pow2(l * biL), Pow2(b), Pow2(biL - (b + 8));
    Pow2Add(l * biL, b);
    Pow2Byte(b);
    Pow2Add(b + 8, biL - (b + 8));
    assert BASE == 256 * p * r;
    ValueBound(a[..l]);
    RadixIsPow2(l);
    LimbAt(a, l);
    DigitOf(Value(a[..l]), m, a[l], Value(a[l + 1..]), p, r);
  }

  /** Limb l of a number, between the limbs below it and those above it. */
  lemma LimbAt(a: seq<Limb>, l: nat)
    requires l < |a|
    ensures Value(a) == Value(a[..l]) + Radix(l) * (a[l] + BASE * Value(a[l + 1..]))
  {
    hide Value, Radix;
    ValueSplit(a, l);
    ValueLow(a[l..]);
    assert a[l..][1..] == a[l + 1..];
  }

  /** low + m * (x + p * 256 * r * hi), divided by m * p, is x / p up to a multiple of 256. */
  lemma DigitOf(low: int, m: int, x: int, hi: int, p: int, r: int)
    requires 0 <= low < m && 0 <= x && p > 0 && m > 0 && m * p > 0
    ensures (low + m * (x + 256 * p * r * hi)) / (m * p) % 256 == x / p % 256
  {
    var q, s := x / p, x % p;
    DivModOf(x, p);
    var k := r * hi;
    var v := low + m * (x + 256 * p * r * hi);
    DigitSplit(low, m, x, k, p, q, s);
    assert 256 * p * r * hi == 256 * p * k;
    RestBelow(low, m, s, p);
    DivModUnique(v, m * p, q + 256 * k, low + m * s);
    assert q + 256 * k == q + k * 256;
    CongIntro(q + 256 * k, q, k, 256);
  }

  lemma DigitSplit(low: int, m: int, x: int, k: int, p: int, q: int, s: int)
    requires x == q * p + s
    ensures low + m * (x + 256 * p * k) == (q + 256 * k) * (m * p) + (low + m * s)
  {
    assert m * (q * p + s + 256 * p * k) == m * (q * p) + m * s + m * (256 * p * k);
    assert (q + 256 * k) * (m * p) == q * (m * p) + 256 * k * (m * p);
    assert m * (q * p) == q * (m * p);
    assert m * (256 * p * k) == 256 * k * (m * p);
  }

  lemma RestBelow(low: int, m: int, s: int, p: int)
    requires 0 <= low < m && 0 <= s < p
    ensures 0 <= low + m * s < m * p
  {
    MulNonneg(m, s);
    MulMonotone(s + 1, p, m);
    assert (s + 1) * m == m * s + m && p * m == m * p;
  }

  function FirstBytes(a: seq<Limb>, i: nat): (s: seq<Byte>)
    requires i <= |a| * LimbBytes()
    ensures |s| == i
  {
    seq(i, k requires 0 <= k < i => GetByte(a, k))
  }

  /** The low i bytes of a number stand for its remainder modulo 256 to the power i. */
  lemma {:induction false} FirstBytesNum(a: seq<Limb>, i: nat)
    requires i <= |a| * LimbBytes()
    ensures LeNum(FirstBytes(a, i)) == Value(a) % Pow2(8 * i)
  {
    hide Value, GetByte;
    if i == 0 {
      DivModUnique(Value(a), 1, Value(a), 0);
    } else {
      FirstBytesNum(a, i - 1);
      assert FirstBytes(a, i)[..i - 1] == FirstBytes(a, i - 1);
      ByteIsDigit(a, i - 1);
      Pow2Byte(8 * (i - 1));
      NextDigit(Value(a), Pow2(8 * (i - 1)));
    }
  }

  lemma NextDigit(v: int, m: int)
    requires m > 0
    ensures v % (256 * m) == v % m + v / m % 256 * m
  {
    var q, r := v / m, v % m;
    DivModOf(v, m);
    DivModOf(q, 256);
    var d := q % 256;
    assert (q / 256 * 256 + d) * m == q / 256 * (256 * m) + d * m;
    MulMonotone(d, 255, m);
    MulNonneg(d, m);
    DivModUnique(v, 256 * m, q / 256, r + d * m);
  }

  lemma AllBytes(a: seq<Limb>)
    ensures LeNum(FirstBytes(a, |a| * LimbBytes())) == Value(a)
  {
    hide Value, Pow2, Radix, LeNum, FirstBytes;
    FirstBytesNum(a, |a| * LimbBytes());
    ValueBound(a);
    RadixIsPow2(|a|);
    BytesOfLimbs(|a|);
    DivModUnique(Value(a), Radix(|a|), 0, Value(a));
  }

  lemma BytesOfLimbs(n: nat)
    ensures 8 * (n * LimbBytes()) == n * biL
  {
  }

  /** High bytes that are zero do not count. */
  lemma {:induction false} HighZeros(s: seq<Byte>, n: nat)
    requires n <= |s| && forall k | n <= k < |s| :: s[k] == 0
    ensures LeNum(s) == LeNum(s[..n])
    decreases |s| - n
  {
    if n < |s| {
      HighZeros(s[..|s| - 1], n);
      assert s[..|s| - 1][..n] == s[..n];
    } else {
      assert s[..n] == s;
    }
  }

  /** A number fits into n bytes exactly when its bytes from n on are zero. */
  lemma FitsWhenHighZero(a: seq<Limb>, n: nat)
    requires n <= |a| * LimbBytes()
    ensures Value(a) < Pow2(8 * n) <==> forall i | n <= i < |a| * LimbBytes() :: GetByte(a, i) == 0
    ensures Value(a) < Pow2(8 * n) ==> LeNum(FirstBytes(a, n)) == Value(a)
  {
    hide Value, Pow2, GetByte;
    var total := |a| * LimbBytes();
    FirstBytesNum(a, n);
    if Value(a) < Pow2(8 * n) {
      DivModUnique(Value(a), Pow2(8 * n), 0, Value(a));
      forall i | n <= i < total
        ensures GetByte(a, i) == 0
      {
        ByteIsDigit(a, i);
        Pow2Mono(8 * n, 8 * i);
        DivModUnique(Value(a), Pow2(8 * i), 0, Value(a));
      }
    }
    if forall i | n <= i < total :: GetByte(a, i) == 0 {
      AllBytes(a);
      HighZeros(FirstBytes(a, total), n);
      assert FirstBytes(a, total)[..n] == FirstBytes(a, n);
      DivModOf(Value(a), Pow2(8 * n));
    }
  }

  // ---- writing ----

  method HighBytesZero(A: Span, n: nat) returns (zero: bool)
    requires A.Valid() && n <= A.len * LimbBytes()
    ensures zero <==> A.Num() < Pow2(8 * n)
  {
    hide Value, Pow2, GetByte;
    FitsWhenHighZero(A.Limbs(), n);
    for i := n to A.len * LimbBytes()
      invariant forall k | n <= k < i :: GetByte(A.Limbs(), k) == 0
    {
      if GetByte(A.buf[A.off..A.off + A.len], i) != 0 {
        return false;
      }
    }
    return true;
  }

  /** Stores the n lowest bytes of A into output, lowest first, from its start. */
  method CopyBytesLe(A: Span, output: array<Byte>, n: nat)
    requires A.Valid() && n <= A.len * LimbBytes() && n <= output.Length
    modifies output
    ensures output[..n] == FirstBytes(A.Limbs(), n)
    ensures output[n..] == old(output[n..])
    ensures A.Limbs() == old(A.Limbs())
  {
    hide Value, Pow2, GetByte;
    for i := 0 to n
      invariant A.Limbs() == old(A.Limbs())
      invariant forall k | 0 <= k < i :: output[k] == GetByte(A.Limbs(), k)
      invariant forall k | i <= k < output.Length :: output[k] == old(output[k])
    {
      output[i] := GetByte(A.buf[A.off..A.off + A.len], i);
    }
  }

  /** Stores the n lowest bytes of A into output, lowest last, from position p on. */
  method CopyBytesBe(A: Span, output: array<Byte>, p: nat, n: nat)
    requires A.Valid() && n <= A.len * LimbBytes() && p + n == output.Length
    modifies output
    ensures output[p..] == Reversed(FirstBytes(A.Limbs(), n))
    ensures output[..p] == old(output[..p])
    ensures A.Limbs() == old(A.Limbs())
  {
    hide Value, Pow2, GetByte;
    for i := 0 to n
      invariant A.Limbs() == old(A.Limbs())
      invariant forall q | p + n - i <= q < p + n :: output[q] == GetByte(A.Limbs(), p + n - 1 - q)
      invariant forall q | 0 <= q < p + n - i :: output[q] == old(output[q])
    {
      output[p + (n - i - 1)] := GetByte(A.buf[A.off..A.off + A.len], i);
    }
  }

  /** Writes A little-endian, with zeros behind it. It fails exactly when A does not fit, and then
      leaves the output alone. */
  method WriteLe(A: Span, output: array<Byte>) returns (ret: int)
    requires A.Valid()
    modifies output
    ensures ret == if A.Num() < Pow2(8 * output.Length) then 0 else ERR_BUFFER_TOO_SMALL
    ensures ret == 0 ==> LeNum(output[..]) == A.Num()
    ensures ret != 0 ==> output[..] == old(output[..])
    ensures A.Limbs() == old(A.Limbs())
  {
    hide Value, Pow2, GetByte, LeNum, FirstBytes;
    ghost var a := A.Limbs();
    var stored := A.len * LimbBytes();
    if stored < output.Length {
      FitsAll(a, output.Length);
      CopyBytesLe(A, output, stored);
      for i := stored to output.Length
        invariant A.Limbs() == a && output[..stored] == FirstBytes(a, stored)
        invariant forall k | stored <= k < i :: output[k] == 0
      {
        output[i] := 0;
      }
      HighZeros(output[..], stored);
      assert output[..][..stored] == output[..stored];
    } else {
      var zero := HighBytesZero(A, output.Length);
      if !zero {
        return ERR_BUFFER_TOO_SMALL;
      }
      FitsWhenHighZero(a, output.Length);
      CopyBytesLe(A, output, output.Length);
      assert output[..output.Length] == output[..];
    }
    return 0;
  }

  lemma FitsAll(a: seq<Limb>, n: nat)
    requires |a| * LimbBytes() <= n
    ensures Value(a) < Pow2(8 * n)
    ensures LeNum(FirstBytes(a, |a| * LimbBytes())) == Value(a)
  {
    hide Value, Pow2, Radix, LeNum, FirstBytes;
    AllBytes(a);
    ValueBound(a);
    RadixIsPow2(|a|);
    BytesOfLimbs(|a|);
    Pow2Mono(8 * (|a| * LimbBytes()), 8 * n);
  }

  /** Writes A big-endian, with zeros before it. It fails exactly when A does not fit, and then
      leaves the output alone. */
  method WriteBe(A: Span, output: array<Byte>) returns (ret: int)
    requires A.Valid()
    modifies output
    ensures ret == if A.Num() < Pow2(8 * output.Length) then 0 else ERR_BUFFER_TOO_SMALL
    ensures ret == 0 ==> BeNum(output[..]) == A.Num()
    ensures ret != 0 ==> output[..] == old(output[..])
    ensures A.Limbs() == old(A.Limbs())
  {
    hide Value, Pow2, GetByte, LeNum, BeNum, FirstBytes;
    ghost var a := A.Limbs();
    var stored := A.len * LimbBytes();
    if stored < output.Length {
      FitsAll(a, output.Length);
      var p := output.Length - stored;
      for i := 0 to p
        invariant A.Limbs() == a
        invariant forall k | 0 <= k < i :: output[k] == 0
      {
        output[i] := 0;
      }
      CopyBytesBe(A, output, p, stored);
      ghost var low := FirstBytes(a, stored);
      HighZeros(Reversed(output[..]), stored);
      assert forall k | 0 <= k < p :: output[..p][k] == 0;
      BackwardsTail(output[..], low, p);
      BeOfReversed(Reversed(output[..]));
    } else {
      var zero := HighBytesZero(A, output.Length);
      if !zero {
        return ERR_BUFFER_TOO_SMALL;
      }
      FitsWhenHighZero(a, output.Length);
      CopyBytesBe(A, output, 0, output.Length);
      BeOfReversed(FirstBytes(a, output.Length));
      assert output[0..] == output[..];
    }
    return 0;
  }

  lemma BackwardsTail(s: seq<Byte>, low: seq<Byte>, p: nat)
    requires p <= |s| && s[p..] == Reversed(low)
    ensures Reversed(s)[..|s| - p] == low && Reversed(Reversed(s)) == s
  {
    forall k | 0 <= k < |s| - p
      ensures Reversed(s)[k] == low[k]
    {
      assert s[|s| - 1 - k] == s[p..][|s| - 1 - k - p];
    }
  }
}
