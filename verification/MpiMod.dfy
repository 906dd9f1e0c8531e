/** Residues and moduli, bignum_mod.c: inversion and output in both representations. */
module MpiMod {
  import opened Bits
  import opened Congruence
  import opened Fermat
  import opened MpiLimbs
  import opened MpiBytes
  import opened MpiCore
  import opened MpiMont
  import opened MpiExp
  import opened MpiModRaw

  const BAD_INPUT_DATA := -4
  const CORRUPTION_DETECTED := -0x6E
  const MPI_MAX_LIMBS := 10000

  /** How the residues of a modulus are represented. */
  datatype IntRep = Invalid | Montgomery | OptRed
  /** How a residue is represented outside. */
  datatype ExtRep = NoOrder | LittleEndian | BigEndian

  class Residue {
    var p: Span
    var limbs: nat

    ghost predicate Valid()
      reads this
    {
      p.Valid() && p.len == limbs
    }
  }

  class Modulus {
    var p: Span
    var limbs: nat
    var intRep: IntRep
    var rr: Span
    var mm: Limb

    constructor ()
      ensures limbs == 0 && intRep == Invalid && Valid()
    {
      var none := new Limb[0];
      p, rr := Span(none, 0, 0), Span(none, 0, 0);
      limbs, intRep, mm := 0, Invalid, 0;
    }

    ghost predicate Valid()
      reads this, p.buf, rr.buf
    {
      && p.Valid() && p.len == limbs
      && (intRep == Montgomery ==> limbs > 0 && p.Limbs()[0] % 2 == 1)
      && (intRep == Montgomery ==> MontConstants(p, rr, mm))
    }

    /** mbedtls_mpi_mod_modulus_setup. A failed setup leaves an unusable modulus. */
    method Setup(n: Span, rep: IntRep) returns (ret: int)
      requires n.Valid() && (rep == Montgomery ==> n.len > 0 && n.Limbs()[0] % 2 == 1)
      modifies this
      ensures Valid() && n.Limbs() == old(n.Limbs())
      ensures ret == if rep == Invalid then BAD_INPUT_DATA
                     else if rep == Montgomery && n.len >= MPI_MAX_LIMBS / 2 - 2 then CORRUPTION_DETECTED
                     else 0
      ensures ret == 0 ==> p == n && limbs == n.len && intRep == rep && (rep == Montgomery ==> fresh(rr.buf))
      ensures ret != 0 ==> limbs == 0 && intRep == Invalid
    {
      hide Value, Radix, Pow2, IsMontConstant, MontConstants;
      p, limbs, intRep := n, n.len, rep;
      if rep == Invalid {
        ret := BAD_INPUT_DATA;
      } else if rep == Montgomery {
        mm := MontMulInit(n);
        ret, rr := MontSquare(n, mm);
      } else {
        ret := 0;
      }
      if ret != 0 {
        var none := new Limb[0];
        p, limbs, intRep := Span(none, 0, 0), 0, Invalid;
      }
    }
  }

  /** What setting up a Montgomery modulus provides: R * R reduced, and the constant of the lowest limb. */
  ghost predicate MontConstants(n: Span, rr: Span, mm: Limb)
    reads n.buf, rr.buf
  {
    && n.Valid() && rr.Valid() && rr.len == n.len > 0
    && IsMontConstant(mm, n.Limbs()[0])
    && rr.Num() < n.Num() && Cong(rr.Num(), Radix(n.len) * Radix(n.len), n.Num())
  }

  /** The limbs of a number. */
  function ToLimbs(v: nat, len: nat): (s: seq<Limb>)
    ensures |s| == len
    decreases len
  {
    if len == 0 then [] else
      LowLimb(v);
      [v % BASE] + ToLimbs(v / BASE, len - 1)
  }

  lemma LowLimb(v: nat)
    ensures v == v / BASE * BASE + v % BASE && 0 <= v % BASE < BASE && v / BASE >= 0
  {
    hide Pow2;
    DivModOf(v, BASE);
    if v / BASE < 0 {
      MulMonotone(v / BASE, -1, BASE);
    }
  }

  lemma {:induction false} ValueToLimbs(v: nat, len: nat)
    requires v < Radix(len)
    ensures Value(ToLimbs(v, len)) == v
    decreases len
  {
    if len == 0 {
      ValueZeros([]);
    } else {
      hide Value, Pow2, ToLimbs;
      LowLimb(v);
      HighPart(v, v / BASE, v % BASE, Radix(len - 1));
      ValueToLimbs(v / BASE, len - 1);
      ToLimbsLow(v, len);
      ValueLow(ToLimbs(v, len));
    }
  }

  lemma ToLimbsLow(v: nat, len: nat)
    requires len > 0 && v / BASE >= 0
    ensures ToLimbs(v, len)[0] == v % BASE && ToLimbs(v, len)[1..] == ToLimbs(v / BASE, len - 1)
  {
    hide Pow2;
  }

  lemma HighPart(v: nat, q: nat, r: nat, R: nat)
    requires v == q * BASE + r && v < BASE * R
    ensures q < R
  {
    hide Pow2;
    if q >= R {
      MulMonotone(R, q, BASE);
    }
  }

  /** set_mont_const_square: R * R reduced, in a buffer of its own. */
  method MontSquare(n: Span, mm: Limb) returns (ret: int, rr: Span)
    requires n.Valid() && n.len > 0 && n.Limbs()[0] % 2 == 1 && IsMontConstant(mm, n.Limbs()[0])
    ensures ret == if n.len >= MPI_MAX_LIMBS / 2 - 2 then CORRUPTION_DETECTED else 0
    ensures ret == 0 ==> MontConstants(n, rr, mm) && fresh(rr.buf)
  {
    hide Value, Radix, Pow2, IsMontConstant, Cong;
    if n.len >= MPI_MAX_LIMBS / 2 - 2 {
      var none := new Limb[0];
      return CORRUPTION_DETECTED, Span(none, 0, 0);
    }
    var N := Value(n.buf[n.off..n.off + n.len]);
    OddPositive(n.Limbs());
    var square := Radix(n.len) * Radix(n.len) % N;
    SquareReduced(N, Radix(n.len), n.Limbs());
    ValueToLimbs(square, n.len);
    var limbs := ToLimbs(square, n.len);
    var b := new Limb[n.len](k requires 0 <= k < n.len => limbs[k]);
    rr := Span(b, 0, n.len);
    assert rr.Limbs() == limbs;
    ret := 0;
  }

  lemma OddPositive(n: seq<Limb>)
    requires |n| > 0 && n[0] % 2 == 1
    ensures Value(n) > 0
  {
    hide Value;
    if Value(n) == 0 {
      ValueZeroLimbs(n);
    }
  }

  lemma SquareReduced(N: int, R: nat, n: seq<Limb>)
    requires N == Value(n) > 0 && R == Radix(|n|)
    ensures 0 <= R * R % N < R && R * R % N < N && Cong(R * R % N, R * R, N)
  {
    hide Cong, Radix, Value;
    DivModOf(R * R, N);
    ValueBound(n);
    CongMod(R * R, N);
    CongSym(R * R, R * R % N, N);
  }

  // ---- changing the representation of a residue ----

  /** mbedtls_mpi_core_to_mont_rep: X := A * R modulo N. */
  method ToMontRep(X: Span, A: Span, N: Span, mm: Limb, rr: Span, T: Span)
    requires X.Valid() && A.Valid() && N.Valid() && rr.Valid() && T.Valid()
    requires X.len == A.len == N.len && T.len >= 2 * N.len + 1
    requires X.AliasOrApart(A) && X.Apart(N) && X.Apart(rr)
    requires T.Apart(X) && T.Apart(A) && T.Apart(N) && T.Apart(rr)
    requires MontConstants(N, rr, mm)
    modifies X.buf, T.buf
    ensures N.Limbs() == old(N.Limbs()) && rr.Limbs() == old(rr.Limbs())
    ensures Rep(X.Num(), old(A.Num()), old(N.Num()), Radix(N.len))
    ensures OnlyChangesBoth(X, T)
  {
    hide Value, Radix, Pow2, IsMontConstant, Cong, Rep, IsMontProduct;
    ghost var n, a, r := N.Limbs(), A.Num(), rr.Num();
    MontMulKeeping(X, A, rr, N, mm, T, rr);
    RadixInvertible(n, mm);
    RepTimesSquare(X.Num(), a, r, Value(n), Radix(N.len));
  }

  /** Montgomery multiplication, away from N and rr. */
  method MontMulKeeping(X: Span, A: Span, B: Span, N: Span, mm: Limb, T: Span, ghost rr: Span)
    requires X.Valid() && A.Valid() && B.Valid() && N.Valid() && T.Valid() && rr.Valid()
    requires 0 < B.len <= N.len == A.len == X.len && T.len >= 2 * N.len + 1
    requires X.AliasOrApart(A) && X.Apart(B) && X.Apart(N) && X.Apart(rr)
    requires T.Apart(X) && T.Apart(A) && T.Apart(B) && T.Apart(N) && T.Apart(rr)
    requires IsMontConstant(mm, N.Limbs()[0])
    requires B.Num() <= N.Num() && N.Num() > 0
    modifies X.buf, T.buf
    ensures N.Limbs() == old(N.Limbs()) && rr.Limbs() == old(rr.Limbs())
    ensures IsMontProduct(X.Num(), old(A.Num()), old(B.Num()), old(N.Num()), Radix(N.len))
    ensures OnlyChangesBoth(X, T)
  {
    hide Value, Radix, Pow2, IsMontConstant, IsMontProduct;
    MontMul(X, A, B, N, mm, T);
  }

  /** mbedtls_mpi_core_from_mont_rep: X := A / R modulo N. */
  method FromMontRep(X: Span, A: Span, N: Span, mm: Limb, T: Span, ghost rr: Span)
    requires X.Valid() && A.Valid() && N.Valid() && T.Valid() && rr.Valid()
    requires X.len == A.len == N.len > 0 && T.len >= 2 * N.len + 1
    requires X.AliasOrApart(A) && X.Apart(N) && X.Apart(rr)
    requires T.Apart(X) && T.Apart(A) && T.Apart(N) && T.Apart(rr)
    requires IsMontConstant(mm, N.Limbs()[0]) && N.Num() > 0
    modifies X.buf, T.buf
    ensures N.Limbs() == old(N.Limbs()) && rr.Limbs() == old(rr.Limbs())
    ensures IsMontProduct(X.Num(), old(A.Num()), 1, old(N.Num()), Radix(N.len))
    ensures OnlyChangesBoth(X, T)
  {
    hide Value, Radix, Pow2, IsMontConstant, IsMontProduct;
    BaseBig();
    var one := new Limb[1](_ => 1);
    ghost var n := N.Limbs();
    var Rinv := Span(one, 0, 1);
    assert Rinv.Limbs() == [1];
    ValueOne(1);
    MontMulKeeping(X, A, Rinv, N, mm, T, rr);
  }

  // ---- inversion ----

  /** A number below the modulus is zero when its representative is. */
  lemma RepNonzero(x: int, a: int, n: int, R: int)
    requires n > 0 && HasInverse(R, n) && Rep(x, a, n, R) && 0 < a < n
    ensures x != 0
  {
    hide Cong;
    if x == 0 {
      var inverse: int :| Cong(R * inverse, 1, n);
      CongSym(0, a * R, n);
      assert 0 * R == 0;
      CongCancel(a, 0, R, inverse, n);
      CongSmall(a, 0, n);
    }
  }

  /** Inverting the representative and leaving Montgomery form gives the inverse. */
  lemma InverseCanonical(x0: int, x1: int, x2: int, a: int, n: int, R: int)
    requires n > 0 && HasInverse(R, n)
    requires Rep(x0, a, n, R) && MontInverse(x1, x0, n, R) && IsMontProduct(x2, x1, 1, n, R)
    ensures 0 <= x2 < n && Cong(x2 * a, 1, n)
  {
    hide Cong;
    var inverse: int :| Cong(R * inverse, 1, n);
    CongMul(x2 * R, x1, a * R, x0, n) by { CongSym(x0, a * R, n); }
    CongTrans((x2 * R) * (a * R), x1 * x0, R * R, n);
    Interleave(x2, R, a, R);
    assert (x2 * a) * (R * R) == (x2 * a * R) * R;
    CongCancel(x2 * a * R, R, R, inverse, n);
    assert 1 * R == R;
    CongCancel(x2 * a, 1, R, inverse, n);
  }

  /** mbedtls_mpi_mod_inv_non_mont: through Montgomery form, with a modulus set up for the purpose. */
  method InvNonMont(X: Span, A: Span, N: Span, T: Span) returns (ret: int)
    requires X.Valid() && A.Valid() && N.Valid() && T.Valid()
    requires 0 < N.len == X.len == A.len && T.len >= N.len + ExpModWorkingLimbs(N.len, N.len)
    requires X.AliasOrApart(A) && X.Apart(N) && T.Apart(X) && T.Apart(A) && T.Apart(N)
    requires N.Limbs()[0] % 2 == 1 && Prime(N.Num()) && 0 < A.Num() < N.Num()
    modifies X.buf, T.buf
    ensures ret == if N.len >= MPI_MAX_LIMBS / 2 - 2 then CORRUPTION_DETECTED else 0
    ensures ret == 0 ==> 0 <= X.Num() < old(N.Num()) && Cong(X.Num() * old(A.Num()), 1, old(N.Num()))
    ensures ret != 0 ==> X.Limbs() == old(X.Limbs())
    ensures OnlyChangesBoth(X, T)
  {
    hide Value, Radix, Pow2, IsMontConstant, Cong, Rep, IsMontProduct, MontInverse, Prime, HasInverse,
         ExpModWorkingLimbs;
    ghost var n, a, R := N.Limbs(), A.Num(), Radix(N.len);
    var Nmont := new Modulus();
    ret := Nmont.Setup(N, Montgomery);
    if ret != 0 {
      return;
    }
    RadixInvertible(n, Nmont.mm);
    InvThroughMont(X, A, N, Nmont.mm, Nmont.rr, T);
  }

  lemma EnoughMemory(n: nat)
    ensures n + ExpModWorkingLimbs(n, n) >= 2 * n + 1
  {
    hide Pow2;
    MulNonneg(Pow2(WindowSize(n * biL)), n);
  }

  method InvThroughMont(X: Span, A: Span, N: Span, mm: Limb, rr: Span, T: Span)
    requires X.Valid() && A.Valid() && N.Valid() && rr.Valid() && T.Valid()
    requires 0 < N.len == X.len == A.len && T.len >= N.len + ExpModWorkingLimbs(N.len, N.len)
    requires X.AliasOrApart(A) && X.Apart(N) && X.Apart(rr)
    requires T.Apart(X) && T.Apart(A) && T.Apart(N) && T.Apart(rr)
    requires MontConstants(N, rr, mm) && HasInverse(Radix(N.len), N.Num())
    requires N.Limbs()[0] % 2 == 1 && Prime(N.Num()) && 0 < A.Num() < N.Num()
    modifies X.buf, T.buf
    ensures 0 <= X.Num() < old(N.Num()) && Cong(X.Num() * old(A.Num()), 1, old(N.Num()))
    ensures OnlyChangesBoth(X, T)
  {
    hide Value, Radix, Pow2, IsMontConstant, Cong, Rep, IsMontProduct, MontInverse, Prime, HasInverse,
         ExpModWorkingLimbs;
    ghost var n, a, R := N.Limbs(), A.Num(), Radix(N.len);
    EnoughMemory(N.len);
    ToMontRep(X, A, N, mm, rr, T);
    ghost var x0 := X.Num();
    RepNonzero(x0, a, Value(n), R);
    RepRange(x0, a, Value(n), R);
    InvKeeping(X, N, rr, T);
    ghost var x1 := X.Num();
    FromMontRep(X, X, N, mm, T, rr);
    InverseCanonical(x0, x1, X.Num(), a, Value(n), R);
  }

  lemma RepRange(x: int, a: int, n: int, R: int)
    requires n > 0 && Rep(x, a, n, R)
    ensures 0 <= x < n
  {
  }

  /** X := the inverse of X in Montgomery form, away from N and rr. */
  method InvKeeping(X: Span, N: Span, rr: Span, T: Span)
    requires X.Valid() && N.Valid() && rr.Valid() && T.Valid()
    requires 0 < N.len == X.len == rr.len && T.len >= N.len + ExpModWorkingLimbs(N.len, N.len)
    requires X.Apart(N) && X.Apart(rr) && T.Apart(X) && T.Apart(N) && T.Apart(rr)
    requires N.Limbs()[0] % 2 == 1 && Prime(N.Num()) && 0 < X.Num() < N.Num()
    requires rr.Num() < N.Num() && Cong(rr.Num(), Radix(N.len) * Radix(N.len), N.Num())
    modifies X.buf, T.buf
    ensures N.Limbs() == old(N.Limbs()) && rr.Limbs() == old(rr.Limbs())
    ensures MontInverse(X.Num(), old(X.Num()), old(N.Num()), Radix(N.len))
    ensures OnlyChangesBoth(X, T)
  {
    hide Value, Radix, Pow2, Cong, MontInverse, Prime, ExpModWorkingLimbs;
    RawInvPrime(X, X, N, rr, T);
  }

  /** What mbedtls_mpi_mod_inv returns. */
  function InvError(X: Residue, A: Residue, N: Modulus, zero: bool): (ret: int)
    reads X, A, N
  {
    if X.limbs != N.limbs || A.limbs != N.limbs || zero || N.intRep == Invalid then BAD_INPUT_DATA
    else if N.intRep == OptRed && N.limbs >= MPI_MAX_LIMBS / 2 - 2 then CORRUPTION_DETECTED
    else 0
  }

  /** mbedtls_mpi_mod_inv, for a prime modulus: X := the inverse of A in the representation of the
      modulus. X may be A. */
  method ModInv(X: Residue, A: Residue, N: Modulus) returns (ret: int)
    requires X.Valid() && A.Valid() && N.Valid()
    requires X.p.AliasOrApart(A.p) && X.p.Apart(N.p) && X.p.buf != N.rr.buf
    requires N.intRep != Invalid ==> N.limbs > 0 && N.p.Limbs()[0] % 2 == 1
    requires N.intRep != Invalid ==> Prime(N.p.Num()) && (A.limbs == N.limbs ==> A.p.Num() < N.p.Num())
    modifies X.p.buf
    ensures ret == InvError(X, A, N, old(A.p.Num()) == 0)
    ensures ret == 0 && N.intRep == Montgomery ==>
      MontInverse(X.p.Num(), old(A.p.Num()), old(N.p.Num()), Radix(N.limbs))
    ensures ret == 0 && N.intRep == OptRed ==>
      0 <= X.p.Num() < old(N.p.Num()) && Cong(X.p.Num() * old(A.p.Num()), 1, old(N.p.Num()))
    ensures ret != 0 ==> X.p.Limbs() == old(X.p.Limbs())
    ensures OnlyChanges(X.p)
  {
    hide Value, Radix, Pow2, IsMontConstant, Cong, MontInverse, Prime, ExpModWorkingLimbs;
    if X.limbs != N.limbs || A.limbs != N.limbs {
      return BAD_INPUT_DATA;
    }
    var zero := IsZero(A.p);
    if zero {
      return BAD_INPUT_DATA;
    }
    var memory := new Limb[N.limbs + ExpModWorkingLimbs(N.limbs, N.limbs)](_ => 0);
    var T := Span(memory, 0, memory.Length);
    match N.intRep
    case Montgomery =>
      RawInvPrime(X.p, A.p, N.p, N.rr, T);
      ret := 0;
    case OptRed =>
      ret := InvNonMont(X.p, A.p, N.p, T);
    case Invalid =>
      ret := BAD_INPUT_DATA;
  }

  // ---- output ----

  /** c is the number below the modulus that a residue of n with limbs x stands for. */
  ghost predicate Canonical(c: int, x: seq<Limb>, n: seq<Limb>, rep: IntRep)
  {
    if rep == Montgomery then |n| == |x| && 0 < Value(n) && c < Value(n) && 0 <= c
      && Rep(Value(x), c, Value(n), Radix(|n|))
    else c == Value(x)
  }

  /** The number a string of bytes stands for in the given order. */
  function ExtNum(s: seq<Byte>, order: ExtRep): nat {
    if order == LittleEndian then LeNum(s) else BeNum(s)
  }

  /** mbedtls_mpi_mod_raw_write. */
  method RawWrite(A: Span, output: array<Byte>, order: ExtRep) returns (ret: int)
    requires A.Valid()
    modifies output
    ensures ret == if order == NoOrder then BAD_INPUT_DATA
                   else if A.Num() < Pow2(8 * output.Length) then 0 else ERR_BUFFER_TOO_SMALL
    ensures ret == 0 ==> ExtNum(output[..], order) == A.Num()
    ensures ret != 0 ==> output[..] == old(output[..])
    ensures A.Limbs() == old(A.Limbs())
  {
    hide Value, Pow2, LeNum, BeNum;
    match order
    case LittleEndian => ret := WriteLe(A, output);
    case BigEndian => ret := WriteBe(A, output);
    case NoOrder => ret := BAD_INPUT_DATA;
  }

  /** mbedtls_mpi_mod_raw_from_mont_rep and the value it leaves. */
  method RawFromMontRep(X: Span, N: Span, mm: Limb, ghost rr: Span)
    requires X.Valid() && N.Valid() && rr.Valid() && X.len == N.len && X.Apart(N) && X.Apart(rr)
    requires MontConstants(N, rr, mm) && X.Num() < N.Num()
    modifies X.buf
    ensures N.Limbs() == old(N.Limbs()) && rr.Limbs() == old(rr.Limbs())
    ensures Canonical(X.Num(), old(X.Limbs()), old(N.Limbs()), Montgomery)
    ensures OnlyChanges(X)
  {
    hide Value, Radix, Pow2, IsMontConstant, Cong, IsMontProduct, Rep;
    ghost var x, n := X.Num(), N.Num();
    var T := new Limb[2 * N.len + 1](_ => 0);
    FromMontRep(X, X, N, mm, Span(T, 0, T.Length), rr);
    LeavingRep(X.Num(), x, n, Radix(N.len));
  }

  lemma LeavingRep(c: int, x: int, n: int, R: int)
    requires n > 0 && 0 <= x < n && IsMontProduct(c, x, 1, n, R)
    ensures 0 <= c < n && Rep(x, c, n, R)
  {
    hide Cong;
    assert x * 1 == x;
    CongSym(c * R, x, n);
  }

  /** mbedtls_mpi_mod_raw_to_mont_rep brings back the limbs its counterpart started from. */
  method RawToMontRep(X: Span, N: Span, mm: Limb, rr: Span, ghost x: seq<Limb>)
    requires X.Valid() && N.Valid() && rr.Valid() && X.len == N.len && X.Apart(N) && X.Apart(rr)
    requires MontConstants(N, rr, mm) && Canonical(X.Num(), x, N.Limbs(), Montgomery)
    modifies X.buf
    ensures N.Limbs() == old(N.Limbs()) && X.Limbs() == x
    ensures OnlyChanges(X)
  {
    hide Value, Radix, Pow2, IsMontConstant, Cong, Rep;
    ghost var c, n := X.Num(), N.Num();
    var T := new Limb[2 * N.len + 1](_ => 0);
    ToMontRep(X, X, N, mm, rr, Span(T, 0, T.Length));
    RepUnique(X.Num(), Value(x), c, n, Radix(N.len));
    ValueInjective(X.Limbs(), x);
  }

  /** What mbedtls_mpi_mod_write returns when it writes the number c. */
  ghost function WriteError(r: Residue, N: Modulus, order: ExtRep, c: int, length: nat): (ret: int)
    reads r, N
  {
    if r.limbs == 0 || N.limbs == 0 || r.limbs != N.limbs || order == NoOrder then BAD_INPUT_DATA
    else if c < Pow2(8 * length) then 0 else ERR_BUFFER_TOO_SMALL
  }

  /** mbedtls_mpi_mod_write: emits the number the residue stands for, and leaves the residue as it was
      although it works in its limbs. */
  method ModWrite(r: Residue, N: Modulus, output: array<Byte>, order: ExtRep) returns (ret: int, ghost c: int)
    requires r.Valid() && N.Valid() && r.p.Apart(N.p) && r.p.buf != N.rr.buf
    requires r.limbs == N.limbs && N.intRep != Invalid ==> r.p.Num() < N.p.Num()
    modifies r.p.buf, output
    ensures r.p.Limbs() == old(r.p.Limbs())
    ensures OnlyChanges(r.p)
    ensures ret == WriteError(r, N, order, c, output.Length)
    ensures r.limbs == N.limbs > 0 ==> Canonical(c, old(r.p.Limbs()), old(N.p.Limbs()), N.intRep)
    ensures ret == 0 ==> ExtNum(output[..], order) == c
    ensures ret != 0 ==> output[..] == old(output[..])
  {
    hide Value, Radix, Pow2, IsMontConstant, Cong, Rep, ExtNum;
    c := r.p.Num();
    if r.limbs == 0 || N.limbs == 0 || r.limbs != N.limbs {
      return BAD_INPUT_DATA, c;
    }
    ghost var x := r.p.Limbs();
    if N.intRep == Montgomery {
      ret, c := WriteThroughMont(r.p, N.p, N.mm, N.rr, output, order);
    } else {
      ret := RawWrite(r.p, output, order);
    }
  }

  method WriteThroughMont(X: Span, N: Span, mm: Limb, rr: Span, output: array<Byte>, order: ExtRep)
    returns (ret: int, ghost c: int)
    requires X.Valid() && N.Valid() && rr.Valid() && X.len == N.len && X.Apart(N) && X.Apart(rr)
    requires MontConstants(N, rr, mm) && X.Num() < N.Num()
    modifies X.buf, output
    ensures X.Limbs() == old(X.Limbs())
    ensures OnlyChanges(X)
    ensures ret == if order == NoOrder then BAD_INPUT_DATA
                   else if c < Pow2(8 * output.Length) then 0 else ERR_BUFFER_TOO_SMALL
    ensures Canonical(c, old(X.Limbs()), old(N.Limbs()), Montgomery)
    ensures ret == 0 ==> ExtNum(output[..], order) == c
    ensures ret != 0 ==> output[..] == old(output[..])
  {
    hide Value, Radix, Pow2, IsMontConstant, Cong, Rep, ExtNum, Canonical;
    ghost var x, n := X.Limbs(), N.Limbs();
    RawFromMontRep(X, N, mm, rr);
    c := X.Num();
    ret := RawWrite(X, output, order);
    assert N.Limbs() == n;
    RawToMontRep(X, N, mm, rr, x);
  }
}
