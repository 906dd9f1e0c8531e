/** Reading numbers and residues from strings of bytes, bignum_core.c, bignum_mod_raw.c and bignum_mod.c. */
module MpiInput {
  import opened Bits
  import opened Congruence
  import opened MpiLimbs
  import opened MpiBytes
  import opened MpiCore
  import opened MpiMont
  import opened MpiExp
  import opened MpiMod

  /** CHARS_TO_LIMBS: the fewest limbs that hold so many bytes. */
  function CharsToLimbs(n: nat): (l: nat)
    ensures n <= l * LimbBytes() < n + LimbBytes()
  {
    var c := LimbBytes();
    DivModOf(n, c);
    MulDistrib(n / c, 1, c);
    n / c + if n % c != 0 then 1 else 0
  }

  lemma FitsLimbs(n: nat, limbs: nat)
    ensures CharsToLimbs(n) <= limbs <==> n <= limbs * LimbBytes()
  {
    hide CharsToLimbs;
    var l, c := CharsToLimbs(n), LimbBytes();
    if l <= limbs {
      MulMonotone(l, limbs, c);
    } else {
      MulMonotone(limbs + 1, l, c);
      MulDistrib(limbs, 1, c);
    }
  }

  // ---- little-endian ----

  lemma {:induction false} LeNumBound(s: seq<Byte>)
    ensures LeNum(s) < Pow2(8 * |s|)
  {
    if |s| > 0 {
      var n := |s| - 1;
      LeNumBound(s[..n]);
      Pow2Byte(8 * n);
      var top := s[n] as int;
      MulMonotone(top + 1, 256, Pow2(8 * n));
      MulDistrib(top, 1, Pow2(8 * n));
    }
  }

  /** A limb with a byte or-ed into bits that are still zero. */
  function OrByte(x: Limb, b: Byte, off: nat): (r: Limb)
    requires off + 8 <= biL && x < Pow2(off)
    ensures r == x + b as int * Pow2(off)
  {
    ByteFits(x, b as int, off);
    x + b as int * Pow2(off)
  }

  lemma ByteFits(x: int, b: int, off: nat)
    requires off + 8 <= biL && 0 <= x < Pow2(off) && 0 <= b < 256
    ensures 0 <= x + b * Pow2(off) < Pow2(biL)
  {
    hide Pow2;
    Pow2Byte(off);
    Pow2Mono(off + 8, biL);
    MulMonotone(b + 1, 256, Pow2(off));
    MulDistrib(b, 1, Pow2(off));
    MulNonneg(b, Pow2(off));
  }

  /** Bits above the value of a number are zero. */
  lemma BitsFree(x: seq<Limb>, l: nat, off: nat)
    requires l < |x| && Value(x) < Pow2(l * biL + off)
    ensures x[l] < Pow2(off)
  {
    hide Value, Pow2, Radix;
    LimbAt(x, l);
    RadixIsPow2(l);
    Pow2Add(l * biL, off);
    var R, top: int := Radix(l), x[l] + BASE * Value(x[l + 1..]);
    BaseBig();
    MulNonneg(BASE, Value(x[l + 1..]));
    if x[l] >= Pow2(off) {
      MulMonotone(Pow2(off), top, R);
    }
  }

  lemma UpdatedValue(x: seq<Limb>, l: nat, v: Limb)
    requires l < |x|
    ensures Value(x[l := v]) == Value(x) + (v - x[l]) * Radix(l)
  {
    hide Value, Pow2, Radix;
    var y := x[l := v];
    LimbAt(x, l);
    LimbAt(y, l);
    assert y[..l] == x[..l] && y[l + 1..] == x[l + 1..];
    var h, R := BASE * Value(x[l + 1..]), Radix(l);
    assert R * (v + h) == R * (x[l] + h) + (v - x[l]) * R;
  }

  /** Byte i, or-ed into its place in the number the bytes before it stand for. */
  lemma ByteStored(x: seq<Limb>, input: seq<Byte>, i: nat, l: nat, off: nat)
    requires i < |input| && l < |x| && 8 * i == l * biL + off && off + 8 <= biL
    requires Value(x) == LeNum(input[..i])
    ensures x[l] < Pow2(off)
    ensures Value(x[l := OrByte(x[l], input[i], off)]) == LeNum(input[..i + 1])
  {
    hide Value, Pow2, Radix, OrByte;
    LeNumBound(input[..i]);
    BitsFree(x, l, off);
    UpdatedValue(x, l, OrByte(x[l], input[i], off));
    LeNumNext(input, i);
    RadixIsPow2(l);
    Pow2Add(l * biL, off);
    Placed(input[i] as int, Pow2(off), Radix(l));
  }

  lemma Placed(b: int, p: int, R: int)
    ensures b * p * R == b * (R * p)
  {
  }

  lemma LeNumNext(s: seq<Byte>, i: nat)
    requires i < |s|
    ensures LeNum(s[..i + 1]) == LeNum(s[..i]) + s[i] as int * Pow2(8 * i)
  {
    assert s[..i + 1][..i] == s[..i];
  }

  /** mbedtls_mpi_core_read_le. It fails exactly when the string, leading zeros included, is longer
      than the limbs, and then leaves them alone. */
  method ReadLe(X: Span, input: seq<Byte>) returns (ret: int)
    requires X.Valid()
    modifies X.buf
    ensures ret == if |input| <= X.len * LimbBytes() then 0 else ERR_BUFFER_TOO_SMALL
    ensures ret == 0 ==> X.Num() == LeNum(input)
    ensures ret != 0 ==> X.Limbs() == old(X.Limbs())
    ensures OnlyChanges(X)
  {
    hide Value, Pow2, OrByte, CharsToLimbs, LeNum;
    FitsLimbs(|input|, X.len);
    if X.len < CharsToLimbs(|input|) {
      return ERR_BUFFER_TOO_SMALL;
    }
    Clear(X);
    StartsAtZero(X.Limbs(), input);
    for i := 0 to |input|
      invariant X.Num() == LeNum(input[..i])
      invariant OnlyChanges(X)
    {
      LimbIndex(i, X.len);
      var l, off := i / LimbBytes(), 8 * (i % LimbBytes());
      ghost var x := X.Limbs();
      ByteStored(x, input, i, l, off);
      X.buf[X.off + l] := OrByte(X.buf[X.off + l], input[i], off);
      assert X.Limbs() == x[l := OrByte(x[l], input[i], off)];
    }
    assert input[..|input|] == input;
    return 0;
  }

  lemma StartsAtZero(x: seq<Limb>, input: seq<Byte>)
    requires forall k | 0 <= k < |x| :: x[k] == 0
    ensures Value(x) == LeNum(input[..0])
  {
    ValueZeros(x);
  }

  // ---- big-endian ----

  /** The bytes of one limb in memory, on a little-endian host. */
  function Stored(a: Limb): (s: seq<Byte>)
    ensures |s| == LimbBytes()
  {
    FirstBytes([a], LimbBytes())
  }

  /** A limb with its bytes in the opposite order. */
  function Swapped(a: Limb): (r: Limb)
  {
    LimbOfBytes(Reversed(Stored(a)));
    LeNum(Reversed(Stored(a)))
  }

  lemma LimbOfBytes(s: seq<Byte>)
    requires |s| == LimbBytes()
    ensures LeNum(s) < Pow2(biL) && BeNum(s) < Pow2(biL)
  {
    hide LeNum, BeNum, Pow2;
    LeNumBound(s);
    LeNumBound(Reversed(s));
    BeIsLeReversed(s);
  }

  lemma BeIsLeReversed(s: seq<Byte>)
    ensures BeNum(s) == LeNum(Reversed(s))
  {
    hide LeNum, BeNum;
    BeOfReversed(Reversed(s));
    assert Reversed(Reversed(s)) == s;
  }

  /** Strings of equal length are equal when they stand for the same number. */
  lemma {:induction false} LeNumInjective(s: seq<Byte>, t: seq<Byte>)
    requires |s| == |t| && LeNum(s) == LeNum(t)
    ensures s == t
  {
    if |s| > 0 {
      hide LeNum;
      LeNumLow(s);
      LeNumLow(t);
      LowByte(s[0] as int, LeNum(s[1..]), t[0] as int, LeNum(t[1..]));
      LeNumInjective(s[1..], t[1..]);
      assert s == [s[0]] + s[1..] && t == [t[0]] + t[1..];
    }
  }

  lemma LowByte(a: int, x: int, b: int, y: int)
    requires a + 256 * x == b + 256 * y && 0 <= a < 256 && 0 <= b < 256
    ensures a == b && x == y
  {
  }

  /** Swapping the limb that a piece of memory holds reads that memory in big-endian order. */
  lemma SwappedLoad(s: seq<Byte>)
    requires |s| == LimbBytes()
    ensures 0 <= LeNum(s) < Pow2(biL) && Swapped(LeNum(s)) == BeNum(s)
  {
    hide LeNum, BeNum, Pow2, FirstBytes, Value, Reversed;
    LimbOfBytes(s);
    var a: Limb := LeNum(s);
    OneLimb(a);
    LeNumInjective(Stored(a), s);
    BeIsLeReversed(s);
  }

  lemma OneLimb(a: Limb)
    ensures LeNum(Stored(a)) == a
  {
    hide LeNum, Pow2, Value, FirstBytes;
    AllBytes([a]);
    ValueOne(a);
    assert |[a]| * LimbBytes() == LimbBytes();
  }

  /** mpi_bigendian_to_host on a little-endian host, byte by byte. */
  method BigEndianLimb(a: Limb) returns (tmp: Limb)
    ensures tmp == Swapped(a)
  {
    hide Pow2, LeNum, Stored;
    var bytes := Stored(a);
    BaseBig();
    tmp := 0;
    for i := 0 to LimbBytes()
      invariant tmp == BeNum(bytes[..i])
    {
      assert bytes[..i + 1][..i] == bytes[..i];
      BePrefixFits(bytes, i + 1);
      tmp := tmp * 256 + bytes[i] as int;
    }
    assert bytes[..LimbBytes()] == bytes;
    BeIsLeReversed(bytes);
  }

  lemma BePrefixFits(s: seq<Byte>, i: nat)
    requires |s| == LimbBytes() && i <= |s|
    ensures BeNum(s[..i]) < Pow2(biL)
  {
    hide LeNum, BeNum, Pow2;
    BeIsLeReversed(s[..i]);
    LeNumBound(Reversed(s[..i]));
    Pow2Mono(8 * i, biL);
  }

  /** The limbs in opposite order, and the bytes within each. */
  function SwappedLimbs(s: seq<Limb>): (r: seq<Limb>)
    ensures |r| == |s|
  {
    if |s| == 0 then [] else SwappedLimbs(s[1..]) + [Swapped(s[0])]
  }

  lemma {:induction false} SwappedAt(s: seq<Limb>, k: nat)
    requires k < |s|
    ensures SwappedLimbs(s)[k] == Swapped(s[|s| - 1 - k])
  {
    hide Swapped;
    if k < |s| - 1 {
      SwappedAt(s[1..], k);
    }
  }

  /** The limbs outside left..right are those of target already, and the others still those of a. */
  ghost predicate Partly(x: seq<Limb>, a: seq<Limb>, target: seq<Limb>, left: int, right: int) {
    && |x| == |a| == |target|
    && forall k | 0 <= k < |x| :: x[k] == if left <= k <= right then a[k] else target[k]
  }

  /** mbedtls_mpi_core_bigendian_to_host: in place, from both ends at once. */
  method BigEndianToHost(A: Span)
    requires A.Valid()
    modifies A.buf
    ensures A.Limbs() == SwappedLimbs(old(A.Limbs()))
    ensures OnlyChanges(A)
  {
    hide Swapped, Pow2, Partly, Exchanged, SwappedLimbs;
    if A.len == 0 {
      return;
    }
    ghost var a := A.Limbs();
    var left, right := 0, A.len - 1;
    NotYet(a, SwappedLimbs(a));
    while left <= right
      invariant left + right == A.len - 1 && 0 <= left <= A.len
      invariant Partly(A.Limbs(), a, SwappedLimbs(a), left, right)
      invariant OnlyChanges(A)
      decreases right - left
    {
      OneRound(A.Limbs(), a, left, right);
      SwapEnds(A, left, right);
      left, right := left + 1, right - 1;
    }
    AllSwapped(A.Limbs(), a, SwappedLimbs(a), left, right);
  }

  lemma NotYet(a: seq<Limb>, target: seq<Limb>)
    requires |target| == |a|
    ensures Partly(a, a, target, 0, |a| - 1)
  {
  }

  lemma AllSwapped(x: seq<Limb>, a: seq<Limb>, target: seq<Limb>, left: int, right: int)
    requires Partly(x, a, target, left, right) && left > right
    ensures x == target
  {
  }

  /** The two limbs, which may be the same one, trade places with their bytes swapped. */
  method SwapEnds(A: Span, left: nat, right: nat)
    requires A.Valid() && left < A.len && right < A.len
    modifies A.buf
    ensures A.Limbs() == Exchanged(old(A.Limbs()), left, right)
    ensures OnlyChanges(A)
  {
    hide Swapped, Pow2;
    ghost var x := A.Limbs();
    var tmp := BigEndianLimb(A.buf[A.off + left]);
    var other := BigEndianLimb(A.buf[A.off + right]);
    assert tmp == Swapped(x[left]) && other == Swapped(x[right]);
    A.buf[A.off + left] := other;
    A.buf[A.off + right] := tmp;
    assert A.Limbs() == x[left := other][right := tmp];
  }

  ghost function Exchanged(x: seq<Limb>, left: nat, right: nat): seq<Limb>
    requires left < |x| && right < |x|
  {
    x[left := Swapped(x[right])][right := Swapped(x[left])]
  }

  lemma OneRound(x: seq<Limb>, a: seq<Limb>, left: nat, right: nat)
    requires Partly(x, a, SwappedLimbs(a), left, right)
    requires left <= right && left + right == |a| - 1
    ensures Partly(Exchanged(x, left, right), a, SwappedLimbs(a), left + 1, right - 1)
  {
    hide Swapped, SwappedLimbs, Pow2, Partly;
    SwappedAt(a, left);
    SwappedAt(a, right);
    EndsOf(x, a, SwappedLimbs(a), left, right);
    Narrowed(x, a, SwappedLimbs(a), left, right);
  }

  lemma EndsOf(x: seq<Limb>, a: seq<Limb>, target: seq<Limb>, left: nat, right: nat)
    requires Partly(x, a, target, left, right) && left <= right < |a|
    ensures |x| == |a| && x[left] == a[left] && x[right] == a[right]
  {
  }

  lemma Narrowed(x: seq<Limb>, a: seq<Limb>, target: seq<Limb>, left: nat, right: nat)
    requires Partly(x, a, target, left, right) && left <= right < |a|
    ensures |x| == |target| == |a|
    ensures Partly(x[left := target[left]][right := target[right]], a, target, left + 1, right - 1)
  {
  }

  /** Limb k of a piece of memory. */
  function Chunk(mem: seq<Byte>, k: nat): (s: seq<Byte>)
    requires (k + 1) * LimbBytes() <= |mem|
    ensures |s| == LimbBytes()
  {
    MulDistrib(k, 1, LimbBytes());
    MulNonneg(k, LimbBytes());
    mem[k * LimbBytes()..k * LimbBytes() + LimbBytes()]
  }

  /** The limbs hold the memory, on a little-endian host. */
  ghost predicate Holds(x: seq<Limb>, mem: seq<Byte>) {
    && |mem| == |x| * LimbBytes()
    && forall k | 0 <= k < |x| :: (k + 1) * LimbBytes() <= |mem| && x[k] == LeNum(Chunk(mem, k))
  }

  lemma ChunkWithin(n: nat, k: nat)
    requires k < n
    ensures (k + 1) * LimbBytes() <= n * LimbBytes()
  {
    MulMonotone(k + 1, n, LimbBytes());
  }

  /** Stores a string of bytes through a byte pointer into the limbs. */
  method StoreBytes(X: Span, mem: seq<Byte>)
    requires X.Valid() && |mem| == X.len * LimbBytes()
    modifies X.buf
    ensures Holds(X.Limbs(), mem)
    ensures OnlyChanges(X)
  {
    hide LeNum, Pow2, Chunk, LimbBytes;
    for i := 0 to X.len
      invariant forall k | 0 <= k < i :: (k + 1) * LimbBytes() <= |mem| && X.buf[X.off + k] == LeNum(Chunk(mem, k))
      invariant OnlyChanges(X)
    {
      ChunkWithin(X.len, i);
      LimbOfBytes(Chunk(mem, i));
      X.buf[X.off + i] := LeNum(Chunk(mem, i));
    }
  }

  lemma {:induction false} BeNumConcat(s: seq<Byte>, t: seq<Byte>)
    ensures BeNum(s + t) == BeNum(s) * Pow2(8 * |t|) + BeNum(t)
  {
    if |t| == 0 {
      assert s + t == s;
    } else {
      var n := |t| - 1;
      BeNumConcat(s, t[..n]);
      assert (s + t)[..|s + t| - 1] == s + t[..n];
      Pow2Byte(8 * n);
      Regroup(BeNum(s), Pow2(8 * n), BeNum(t[..n]), t[n] as int);
    }
  }

  lemma Regroup(s: int, p: int, t: int, b: int)
    ensures (s * p + t) * 256 + b == s * (256 * p) + (t * 256 + b)
  {
  }

  lemma {:induction false} BeNumZeros(s: seq<Byte>)
    requires forall k | 0 <= k < |s| :: s[k] == 0
    ensures BeNum(s) == 0
  {
    if |s| > 0 {
      BeNumZeros(s[..|s| - 1]);
    }
  }

  lemma FirstChunk(mem: seq<Byte>)
    requires LimbBytes() <= |mem|
    ensures (0 + 1) * LimbBytes() <= |mem| && Chunk(mem, 0) == mem[..LimbBytes()]
  {
    assert 0 * LimbBytes() == 0;
  }

  lemma HoldsRest(x: seq<Limb>, mem: seq<Byte>)
    requires |x| > 0 && Holds(x, mem)
    ensures LimbBytes() <= |mem| && x[0] == LeNum(mem[..LimbBytes()])
    ensures Holds(x[1..], mem[LimbBytes()..])
  {
    hide LeNum, Chunk, LimbBytes;
    var c, n := LimbBytes(), |x|;
    MulDistrib(n - 1, 1, c);
    FirstChunk(mem);
    forall k | 0 <= k < n - 1
      ensures (k + 1) * c <= |mem[c..]| && x[1..][k] == LeNum(Chunk(mem[c..], k))
    {
      NextChunk(mem, n, k);
    }
  }

  lemma NextChunk(mem: seq<Byte>, n: nat, k: nat)
    requires k + 1 < n && |mem| == n * LimbBytes()
    ensures LimbBytes() <= |mem| && (k + 1) * LimbBytes() <= |mem[LimbBytes()..]|
    ensures (k + 1 + 1) * LimbBytes() <= |mem| && Chunk(mem[LimbBytes()..], k) == Chunk(mem, k + 1)
  {
    var c := LimbBytes();
    ChunkWithin(n - 1, k);
    ChunkWithin(n, k + 1);
    MulDistrib(n - 1, 1, c);
    MulDistrib(k, 1, c);
    MulNonneg(k, c);
    var from := k * c;
    assert (k + 1) * c == from + c;
    ShiftedSlice(mem, from, c);
  }

  lemma ShiftedSlice(mem: seq<Byte>, from: nat, c: nat)
    requires from + c + c <= |mem|
    ensures mem[c..][from..from + c] == mem[from + c..from + c + c]
  {
  }

  /** Swapping all limbs makes them the number that the memory stands for in big-endian order. */
  lemma {:induction false} SwappedValue(x: seq<Limb>, mem: seq<Byte>)
    requires Holds(x, mem)
    ensures Value(SwappedLimbs(x)) == BeNum(mem)
    decreases |x|
  {
    hide Value, LeNum, BeNum, Pow2, Radix, Swapped, Holds;
    if |x| == 0 {
      EmptyHolds(x, mem);
    } else {
      var c, n := LimbBytes(), |x| - 1;
      HoldsRest(x, mem);
      var first, rest := mem[..c], mem[c..];
      SwappedValue(x[1..], rest);
      SwappedLoad(first);
      SwappedTop(x);
      BeNumConcat(first, rest);
      assert first + rest == mem;
      RestLength(x, mem);
      BytesOfLimbs(n);
      RadixIsPow2(n);
    }
  }

  lemma EmptyHolds(x: seq<Limb>, mem: seq<Byte>)
    requires Holds(x, mem) && |x| == 0
    ensures Value(SwappedLimbs(x)) == BeNum(mem)
  {
  }

  lemma RestLength(x: seq<Limb>, mem: seq<Byte>)
    requires Holds(x, mem) && |x| > 0
    ensures |mem| - LimbBytes() == (|x| - 1) * LimbBytes()
  {
    MulDistrib(|x| - 1, 1, LimbBytes());
  }

  lemma SwappedTop(x: seq<Limb>)
    requires |x| > 0
    ensures Value(SwappedLimbs(x)) == Value(SwappedLimbs(x[1..])) + Swapped(x[0]) * Radix(|x| - 1)
  {
    hide Swapped, Value, Radix, Pow2;
    var s, n := SwappedLimbs(x), |x| - 1;
    assert s[..n] == SwappedLimbs(x[1..]) && s[..n + 1] == s;
    ValueSnoc(s, n);
  }

  /** mbedtls_mpi_core_read_be, with the same failure. */
  method ReadBe(X: Span, input: seq<Byte>) returns (ret: int)
    requires X.Valid()
    modifies X.buf
    ensures ret == if |input| <= X.len * LimbBytes() then 0 else ERR_BUFFER_TOO_SMALL
    ensures ret == 0 ==> X.Num() == BeNum(input)
    ensures ret != 0 ==> X.Limbs() == old(X.Limbs())
    ensures OnlyChanges(X)
  {
    hide Value, Pow2, CharsToLimbs, BeNum, Holds, SwappedLimbs;
    FitsLimbs(|input|, X.len);
    if X.len < CharsToLimbs(|input|) {
      return ERR_BUFFER_TOO_SMALL;
    }
    var overhead := X.len * LimbBytes() - |input|;
    var zeros: seq<Byte> := seq(overhead, _ => 0);
    var mem := zeros + input;
    BeNumConcat(zeros, input);
    BeNumZeros(zeros);
    StoreBytes(X, mem);
    SwappedValue(X.Limbs(), mem);
    BigEndianToHost(X);
    return 0;
  }

  // ---- residues ----

  /** What reading a residue of the modulus with limbs n returns. A string with more bytes than the
      limbs have is refused even when the surplus is zero. */
  ghost function ReadStatus(s: seq<Byte>, order: ExtRep, n: seq<Limb>, rep: IntRep): int {
    if order == NoOrder then BAD_INPUT_DATA
    else if |s| > |n| * LimbBytes() then ERR_BUFFER_TOO_SMALL
    else if ExtNum(s, order) >= Value(n) || rep == Invalid then BAD_INPUT_DATA
    else 0
  }

  /** The representation matters only for a string that is otherwise accepted. */
  lemma StatusByRep(s: seq<Byte>, order: ExtRep, n: seq<Limb>, rep: IntRep)
    ensures var status := ReadStatus(s, order, n, OptRed);
            && ReadStatus(s, order, n, rep) == (if status == 0 && rep == Invalid then BAD_INPUT_DATA else status)
            && (status == 0 ==> order != NoOrder && |s| <= |n| * LimbBytes() && ExtNum(s, order) < Value(n))
  {
    hide ExtNum, Value, LimbBytes;
  }

  /** mbedtls_mpi_mod_raw_read: the number, if it is below the modulus. */
  method RawRead(X: Span, N: Span, input: seq<Byte>, order: ExtRep) returns (ret: int)
    requires X.Valid() && N.Valid() && X.len == N.len && X.Apart(N)
    modifies X.buf
    ensures N.Limbs() == old(N.Limbs())
    ensures ret == ReadStatus(input, order, N.Limbs(), OptRed)
    ensures order == NoOrder || |input| > X.len * LimbBytes() ==> X.Limbs() == old(X.Limbs())
    ensures order != NoOrder && |input| <= X.len * LimbBytes() ==> X.Num() == ExtNum(input, order)
    ensures OnlyChanges(X)
  {
    hide Value, Pow2, LeNum, BeNum;
    match order {
      case LittleEndian => ret := ReadLe(X, input);
      case BigEndian => ret := ReadBe(X, input);
      case NoOrder => return BAD_INPUT_DATA;
    }
    if ret != 0 {
      return;
    }
    var below := LessThan(X, N);
    if !below {
      ret := BAD_INPUT_DATA;
    }
  }

  /** mbedtls_mpi_mod_raw_canonical_to_modulus_rep. */
  method CanonicalToModulusRep(X: Span, N: Modulus) returns (ret: int)
    requires N.Valid() && X.Valid() && X.len == N.limbs && X.Apart(N.p) && X.buf != N.rr.buf
    requires X.Num() < N.p.Num()
    modifies X.buf
    ensures N.p.Limbs() == old(N.p.Limbs())
    ensures ret == if N.intRep == Invalid then BAD_INPUT_DATA else 0
    ensures ret == 0 ==> Canonical(old(X.Num()), X.Limbs(), old(N.p.Limbs()), N.intRep)
    ensures ret != 0 ==> X.Limbs() == old(X.Limbs())
    ensures OnlyChanges(X)
  {
    hide Value, Radix, Pow2, IsMontConstant, Cong, Rep;
    match N.intRep
    case Montgomery =>
      var T := new Limb[2 * X.len + 1](_ => 0);
      ToMontRep(X, X, N.p, N.mm, N.rr, Span(T, 0, T.Length));
      ret := 0;
    case OptRed => ret := 0;
    case Invalid => ret := BAD_INPUT_DATA;
  }

  /** mbedtls_mpi_mod_read: afterwards the residue stands for the number read. */
  method ModRead(r: Residue, N: Modulus, buf: seq<Byte>, order: ExtRep) returns (ret: int)
    requires r.Valid() && N.Valid() && r.p.Apart(N.p) && r.p.buf != N.rr.buf
    modifies r.p.buf
    ensures ret == if r.limbs == 0 || r.limbs != N.limbs then BAD_INPUT_DATA
                   else ReadStatus(buf, order, old(N.p.Limbs()), N.intRep)
    ensures ret == 0 ==> Canonical(ExtNum(buf, order), r.p.Limbs(), old(N.p.Limbs()), N.intRep)
    ensures r.limbs == 0 || r.limbs != N.limbs || order == NoOrder || |buf| > r.limbs * LimbBytes() ==>
      r.p.Limbs() == old(r.p.Limbs())
    ensures N.p.Limbs() == old(N.p.Limbs())
    ensures OnlyChanges(r.p)
  {
    hide Value, Radix, Pow2, IsMontConstant, Cong, Rep, ExtNum, Canonical, ReadStatus;
    StatusByRep(buf, order, N.p.Limbs(), N.intRep);
    if r.limbs == 0 || N.limbs == 0 || r.limbs != N.limbs {
      return BAD_INPUT_DATA;
    }
    ret := RawRead(r.p, N.p, buf, order);
    if ret != 0 {
      return;
    }
    ret := CanonicalToModulusRep(r.p, N);
  }

  /** Reading back what was written: it succeeds exactly when the string is no longer than the limbs,
      and only the limbs that were written stand for the number read. */
  lemma ReadsBack(x: seq<Limb>, n: seq<Limb>, rep: IntRep, c: int, s: seq<Byte>, order: ExtRep, y: seq<Limb>)
    requires |x| == |n| == |y| && rep != Invalid && order != NoOrder
    requires Value(x) < Value(n) && Canonical(c, x, n, rep) && ExtNum(s, order) == c
    ensures ReadStatus(s, order, n, rep) == if |s| <= |n| * LimbBytes() then 0 else ERR_BUFFER_TOO_SMALL
    ensures Canonical(ExtNum(s, order), y, n, rep) ==> y == x
  {
    hide Value, Radix, ExtNum, Rep;
    if Canonical(c, y, n, rep) {
      if rep == Montgomery {
        RepUnique(Value(x), Value(y), c, Value(n), Radix(|n|));
      }
      ValueInjective(x, y);
    }
  }
}
