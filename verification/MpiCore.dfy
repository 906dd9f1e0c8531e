/** The carry and borrow chains of bignum_core.c. Every routine is stated about the numbers its
    operands stand for, for every limb count, with the aliasing the header allows. */
module MpiCore {
  import opened Bits
  import opened Congruence
  import opened MpiLimbs

  /** An operation on limbs wraps around modulo BASE. */
  function Wrap(x: int): (r: Limb)
    ensures 0 <= x < BASE ==> r == x
    ensures BASE <= x < 2 * BASE ==> r == x - BASE
    ensures -BASE <= x < 0 ==> r == x + BASE
  {
    WrapRange(x);
    x % BASE
  }

  lemma WrapCong(x: int)
    ensures Cong(Wrap(x), x, BASE)
  {
    CongMod(x, BASE);
  }

  lemma WrapRange(x: int)
    ensures 0 <= x % BASE < BASE
    ensures 0 <= x < BASE ==> x % BASE == x
    ensures BASE <= x < 2 * BASE ==> x % BASE == x - BASE
    ensures -BASE <= x < 0 ==> x % BASE == x + BASE
  {
    if 0 <= x < BASE {
      DivModUnique(x, BASE, 0, x);
    } else if BASE <= x < 2 * BASE {
      DivModUnique(x, BASE, 1, x - BASE);
    } else if -BASE <= x < 0 {
      DivModUnique(x, BASE, -1, x + BASE);
    }
  }

  // ---- one column ----

  /** One column of an addition: the limb and the carry out. */
  function AddColumn(a: Limb, b: Limb, c: Limb): (r: (Limb, Limb))
    requires c <= 1
    ensures r.1 <= 1 && r.0 + r.1 * BASE == a + b + c
  {
    BaseBig();
    var sum: int := c + a;
    var t: int := Wrap(sum);
    var c1 := if t < a then 1 else 0;
    var sum2: int := t + b;
    var t2 := Wrap(sum2);
    (t2, c1 + if t2 < b then 1 else 0)
  }

  /** One column of a subtraction: the limb and the borrow out. */
  function SubColumn(a: Limb, b: Limb, c: Limb): (r: (Limb, Limb))
    requires c <= 1
    ensures r.1 <= 1 && r.0 - r.1 * BASE == a - b - c
  {
    BaseBig();
    var z := if a < c then 1 else 0;
    var dif: int := a - c;
    var t: int := Wrap(dif);
    var dif2: int := t - b;
    (Wrap(dif2), (if t < b then 1 else 0) + z)
  }

  /** One column of a subtraction of a single limb, which doubles as the borrow. */
  function SubIntColumn(s: Limb, c: Limb): (r: (Limb, Limb))
    ensures r.1 <= 1 && r.0 - r.1 * BASE == s - c
  {
    BaseBig();
    var dif: int := s - c;
    var t := Wrap(dif);
    (t, if t > s then 1 else 0)
  }

  /** One multiply-accumulate step, on a double-width product. */
  function MulAddColumn(d: Limb, s: Limb, b: Limb, c: Limb): (r: (Limb, Limb))
    ensures r.0 + r.1 * BASE == d + s * b + c
  {
    var (lo, hi) := Product(s, b);
    var (lo', hi') := AddLow(lo, hi, c);
    var (lo'', hi'') := AddLow(lo', hi', d);
    ProductBound(s, b);
    TopFits(lo'', hi'', d + s * b + c);
    (lo'', hi'')
  }

  /** Adds a limb to the low half of a double-width number. */
  function AddLow(lo: Limb, hi: int, x: Limb): (r: (Limb, int))
    ensures r.0 + r.1 * BASE == lo + hi * BASE + x
  {
    var sum: int := lo + x;
    var t := Wrap(sum);
    MulDistrib(hi, 1, BASE);
    (t, hi + if t < x then 1 else 0)
  }

  /** The double-width product of two limbs, low half first. */
  function Product(s: Limb, b: Limb): (r: (Limb, Limb))
    ensures r.0 + r.1 * BASE == s * b
  {
    BaseBig();
    ProductBound(s, b);
    var p: int := s * b;
    DoubleWidth(p);
    (p % BASE, p / BASE)
  }

  lemma ProductBound(s: Limb, b: Limb)
    ensures 0 <= (s as int) * b <= (BASE - 1) * (BASE - 1)
  {
    var x: int, y: int, m := s, b, BASE - 1;
    MulNonneg(x, y);
    MulMonotone(x, m, y);
    MulMonotone(y, m, m);
  }

  lemma DoubleWidth(p: int)
    requires 0 <= p <= (BASE - 1) * (BASE - 1)
    ensures 0 <= p % BASE < BASE && 0 <= p / BASE < BASE
    ensures p == p / BASE * BASE + p % BASE
  {
    DivModOf(p, BASE);
    QuotientFits(p / BASE, p % BASE);
  }

  lemma QuotientFits(q: int, r: int)
    requires 0 <= r < BASE && 0 <= q * BASE + r <= (BASE - 1) * (BASE - 1)
    ensures 0 <= q < BASE
  {
    SquareBelow();
    if q >= BASE {
      MulMonotone(BASE, q, BASE);
    }
    if q < 0 {
      MulMonotone(q, -1, BASE);
    }
  }

  lemma SquareBelow()
    ensures (BASE - 1) * (BASE - 1) < BASE * BASE
  {
    MulDistrib(BASE, -1, BASE - 1);
    MulDistrib(BASE, -1, BASE);
  }

  lemma TopFits(lo: int, hi: int, total: int)
    requires lo + hi * BASE == total && 0 <= lo
    requires total <= (BASE - 1) + (BASE - 1) * (BASE - 1) + (BASE - 1)
    ensures hi < BASE
  {
    if hi >= BASE {
      MulMonotone(BASE, hi, BASE);
      MulDistrib(BASE, -1, BASE - 1);
      assert false;
    }
  }

  // ---- a chain of columns ----

  /** The low i limbs of x, with carry c out of them, hold the total. */
  ghost predicate Chain(x: seq<Limb>, c: int, total: int, i: nat)
    requires i <= |x|
  {
    Value(x[..i]) + c * Radix(i) == total
  }

  lemma ChainColumn(x: seq<Limb>, c: int, x': seq<Limb>, c': int, total: int, column: int, i: nat)
    requires i < |x| == |x'|
    requires Chain(x, c, total, i) && x'[..i] == x[..i]
    requires x'[i] + c' * BASE == column + c
    ensures Chain(x', c', total + column * Radix(i), i + 1)
  {
    ValueSnoc(x', i);
    ColumnSum(x'[i], c', column, c, Radix(i));
  }

  lemma ColumnSum(t: int, c': int, column: int, c: int, r: int)
    requires t + c' * BASE == column + c
    ensures t * r + c' * (BASE * r) == column * r + c * r
  {
    assert (t + c' * BASE) * r == t * r + c' * (BASE * r);
    assert (column + c) * r == column * r + c * r;
  }

  lemma ChainAll(x: seq<Limb>, c: int, total: int)
    requires Chain(x, c, total, |x|)
    ensures Value(x) + c * Radix(|x|) == total
  {
    assert x[..|x|] == x;
  }

  /** The sum, or the difference, of the low i limbs of two numbers. */
  ghost function Combined(a: seq<Limb>, b: seq<Limb>, sign: int, i: nat): int
    requires i <= |a| && i <= |b|
  {
    Value(a[..i]) + sign * Value(b[..i])
  }

  lemma CombinedSnoc(a: seq<Limb>, b: seq<Limb>, sign: int, i: nat)
    requires i < |a| && i < |b|
    ensures Combined(a, b, sign, i + 1) == Combined(a, b, sign, i) + (a[i] + sign * b[i]) * Radix(i)
  {
    ValueSnoc(a, i);
    ValueSnoc(b, i);
    Distribute(a[i], sign, b[i], Value(b[..i]), Radix(i));
  }

  lemma Distribute(a: int, sign: int, b: int, v: int, r: int)
    ensures a * r + sign * (v + b * r) == sign * v + (a + sign * b) * r
  {
    assert sign * (v + b * r) == sign * v + sign * b * r;
  }

  lemma CombinedAll(a: seq<Limb>, b: seq<Limb>, sign: int)
    requires |a| == |b|
    ensures Combined(a, b, sign, 0) == 0
    ensures Combined(a, b, sign, |a|) == Value(a) + sign * Value(b)
  {
    assert a[..0] == b[..0] == [];
    assert a[..|a|] == a && b[..|a|] == b;
  }

  /** Step i of an addition (sign 1) or subtraction (sign -1) chain. */
  lemma CombinedColumn(x: seq<Limb>, c: int, x': seq<Limb>, c': int, a: seq<Limb>, b: seq<Limb>, sign: int, i: nat)
    requires i < |x| == |x'| && i < |a| && i < |b|
    requires Chain(x, c, Combined(a, b, sign, i), i) && x'[..i] == x[..i]
    requires x'[i] + c' * BASE == a[i] + sign * b[i] + c
    ensures Chain(x', c', Combined(a, b, sign, i + 1), i + 1)
  {
    ChainColumn(x, c, x', c', Combined(a, b, sign, i), a[i] + sign * b[i], i);
    CombinedSnoc(a, b, sign, i);
  }

  lemma CombinedStart(x: seq<Limb>, a: seq<Limb>, b: seq<Limb>, sign: int)
    ensures Chain(x, 0, Combined(a, b, sign, 0), 0)
  {
    assert x[..0] == a[..0] == b[..0] == [];
  }

  /** Step i of a subtraction, with the borrow. */
  lemma DifferenceColumn(x: seq<Limb>, c: int, x': seq<Limb>, c': int, a: seq<Limb>, b: seq<Limb>, i: nat)
    requires i < |x| == |x'| && i < |a| && i < |b|
    requires Chain(x, -c, Combined(a, b, -1, i), i) && x'[..i] == x[..i]
    requires x'[i] - c' * BASE == a[i] - b[i] - c
    ensures Chain(x', -c', Combined(a, b, -1, i + 1), i + 1)
  {
    hide Chain, Combined, Pow2;
    NegatedTerms(c', b[i]);
    CombinedColumn(x, -c, x', -c', a, b, -1, i);
  }

  lemma NegatedTerms(c: int, b: int)
    ensures -c * BASE == -(c * BASE) && -1 * b == -b
  {
  }

  // ---- the routines ----

  /** From limb i on the span still holds those limbs. */
  ghost predicate Keeps(A: Span, a: seq<Limb>, i: nat)
    requires A.Valid() && |a| == A.len
    reads A.buf
  {
    forall j {:trigger A.buf[j]} | A.off + i <= j < A.off + A.len :: A.buf[j] == a[j - A.off]
  }

  /** Writes limb i of X. Operands that start where X does, or lie apart from it, keep their limbs behind. */
  method SetLimb(X: Span, i: nat, t: Limb, ghost A: Span, ghost a: seq<Limb>, ghost B: Span, ghost b: seq<Limb>)
    requires X.Valid() && A.Valid() && B.Valid() && i < X.len && |a| == A.len && |b| == B.len
    requires X.AliasOrApart(A) && X.AliasOrApart(B) && Keeps(A, a, i) && Keeps(B, b, i)
    modifies X.buf
    ensures X.Limbs() == old(X.Limbs())[i := t] && X.Limbs()[..i] == old(X.Limbs()[..i])
    ensures Keeps(A, a, i + 1) && Keeps(B, b, i + 1)
    ensures OnlyChanges(X)
  {
    ghost var x := X.Limbs();
    X.buf[X.off + i] := t;
    assert X.Limbs() == x[i := t];
    assert x[i := t][..i] == x[..i];
  }

  /** X := A + B. The result is the carry out. */
  method Add(X: Span, A: Span, B: Span) returns (c: Limb)
    requires X.Valid() && A.Valid() && B.Valid() && X.len == A.len == B.len
    requires X.AliasOrApart(A) && X.AliasOrApart(B)
    modifies X.buf
    ensures c <= 1
    ensures X.Num() + c * Radix(X.len) == old(A.Num()) + old(B.Num())
    ensures OnlyChanges(X)
  {
    hide Chain, Combined, Value, Radix, AddColumn, Pow2;
    ghost var a, b := A.Limbs(), B.Limbs();
    c := 0;
    CombinedStart(X.Limbs(), a, b, 1);
    for i := 0 to X.len
      invariant c <= 1 && Chain(X.Limbs(), c, Combined(a, b, 1, i), i)
      invariant Keeps(A, a, i)
      invariant Keeps(B, b, i)
      invariant OnlyChanges(X)
    {
      ghost var x, carry := X.Limbs(), c;
      var (t, c') := AddColumn(A.buf[A.off + i], B.buf[B.off + i], c);
      c := c';
      SetLimb(X, i, t, A, a, B, b);
      CombinedColumn(x, carry, X.Limbs(), c, a, b, 1, i);
    }
    ChainAll(X.Limbs(), c, Combined(a, b, 1, X.len));
    CombinedAll(a, b, 1);
  }

  function Zeros(n: nat): (s: seq<Limb>)
    ensures |s| == n && forall k | 0 <= k < n :: s[k] == 0
  {
    seq(n, _ => 0)
  }

  /** X := X + A when cond is set, X otherwise. The result is the carry out. */
  method AddIf(X: Span, A: Span, cond: bool) returns (c: Limb)
    requires X.Valid() && A.Valid() && X.len == A.len
    requires X.AliasOrApart(A)
    modifies X.buf
    ensures c <= 1
    ensures X.Num() + c * Radix(X.len) == old(X.Num()) + if cond then old(A.Num()) else 0
    ensures OnlyChanges(X)
  {
    hide Chain, Combined, Value, Radix, AddColumn, Pow2;
    ghost var x0 := X.Limbs();
    ghost var a := if cond then A.Limbs() else Zeros(X.len);
    c := 0;
    CombinedStart(x0, x0, a, 1);
    for i := 0 to X.len
      invariant c <= 1 && Chain(X.Limbs(), c, Combined(x0, a, 1, i), i)
      invariant cond ==> Keeps(A, a, i)
      invariant Keeps(X, x0, i)
      invariant OnlyChanges(X)
    {
      ghost var x, carry := X.Limbs(), c;
      var add := if cond then A.buf[A.off + i] else 0;
      assert add == a[i];
      var (t, c') := AddColumn(X.buf[X.off + i], add, c);
      c := c';
      SetLimb(X, i, t, if cond then A else X, if cond then a else x0, X, x0);
      CombinedColumn(x, carry, X.Limbs(), c, x0, a, 1, i);
    }
    ChainAll(X.Limbs(), c, Combined(x0, a, 1, X.len));
    CombinedAll(x0, a, 1);
    ValueZeros(Zeros(X.len));
  }

  /** X := A - B. The result is the borrow out, 1 exactly when A is the smaller. */
  method Sub(X: Span, A: Span, B: Span) returns (c: Limb)
    requires X.Valid() && A.Valid() && B.Valid() && X.len == A.len == B.len
    requires X.AliasOrApart(A) && X.AliasOrApart(B)
    modifies X.buf
    ensures c == if old(A.Num()) < old(B.Num()) then 1 else 0
    ensures X.Num() == old(A.Num()) - old(B.Num()) + c * Radix(X.len)
    ensures OnlyChanges(X)
  {
    hide Chain, Combined, Value, Radix, SubColumn, Pow2;
    ghost var a, b := A.Limbs(), B.Limbs();
    c := 0;
    CombinedStart(X.Limbs(), a, b, -1);
    for i := 0 to X.len
      invariant c <= 1 && Chain(X.Limbs(), -(c as int), Combined(a, b, -1, i), i)
      invariant Keeps(A, a, i)
      invariant Keeps(B, b, i)
      invariant OnlyChanges(X)
    {
      ghost var x, borrow: int := X.Limbs(), c;
      var (t, c') := SubColumn(A.buf[A.off + i], B.buf[B.off + i], c);
      c := c';
      SetLimb(X, i, t, A, a, B, b);
      DifferenceColumn(x, borrow, X.Limbs(), c, a, b, i);
    }
    ChainAll(X.Limbs(), -(c as int), Combined(a, b, -1, X.len));
    CombinedAll(a, b, -1);
    BorrowMeans(Value(a), Value(b), X.Limbs(), c);
  }

  lemma BorrowMeans(a: nat, b: nat, x: seq<Limb>, c: Limb)
    requires c <= 1 && Value(x) - c * Radix(|x|) == a - b
    ensures c == if a < b then 1 else 0
  {
    ValueBound(x);
  }

  /** X := A - b for one limb b. The result is the borrow out. */
  method SubInt(X: Span, A: Span, b: Limb) returns (c: Limb)
    requires X.Valid() && A.Valid() && X.len == A.len > 0
    requires X.AliasOrApart(A)
    modifies X.buf
    ensures c == if old(A.Num()) < b then 1 else 0
    ensures X.Num() == old(A.Num()) - b + c * Radix(X.len)
    ensures OnlyChanges(X)
  {
    hide Chain, Value, Radix, SubIntColumn, Pow2;
    ghost var a := A.Limbs();
    c := b;
    SubIntStart(X.Limbs(), a, b);
    for i := 0 to X.len
      invariant i > 0 ==> c <= 1
      invariant Chain(X.Limbs(), -(c as int), Value(a[..i]) - b, i)
      invariant Keeps(A, a, i)
      invariant OnlyChanges(X)
    {
      ghost var x, borrow: int := X.Limbs(), c;
      var (t, c') := SubIntColumn(A.buf[A.off + i], c);
      c := c';
      SetLimb(X, i, t, A, a, A, a);
      ChainColumn(x, -borrow, X.Limbs(), -(c as int), Value(a[..i]) - b, a[i], i);
      ValueSnoc(a, i);
    }
    ChainAll(X.Limbs(), -(c as int), Value(a[..X.len]) - b);
    assert a[..X.len] == a;
    BorrowMeans(Value(a), b, X.Limbs(), c);
  }

  lemma SubIntStart(x: seq<Limb>, a: seq<Limb>, b: Limb)
    ensures Chain(x, -(b as int), Value(a[..0]) - b, 0)
  {
    assert x[..0] == a[..0] == [];
  }

  function Min(a: nat, b: nat): nat {
    if a < b then a else b
  }

  /** D := D + b * S, where only as many limbs of S are used as D has. The result is the carry out. */
  method MulAdd(D: Span, S: Span, b: Limb) returns (c: Limb)
    requires D.Valid() && S.Valid()
    requires D.AliasOrApart(S)
    modifies D.buf
    ensures D.Num() + c * Radix(D.len) == old(D.Num()) + b * old(Value(S.Limbs()[..Min(S.len, D.len)]))
    ensures OnlyChanges(D)
  {
    hide Chain, Value, Radix, Pow2, MulTotal;
    ghost var d := D.Limbs();
    var steps := Min(S.len, D.len);
    ghost var s := S.Limbs()[..steps];
    c := MulColumns(D, S, b, steps);
    c := SpillColumns(D, steps, c, d, s, b);
    ChainAll(D.Limbs(), c, MulTotal(d, s, b, D.len));
    MulTotalAll(d, s, b);
  }

  /** The columns that both operands reach. */
  method MulColumns(D: Span, S: Span, b: Limb, steps: nat) returns (c: Limb)
    requires D.Valid() && S.Valid() && steps <= D.len && steps <= S.len
    requires D.AliasOrApart(S)
    modifies D.buf
    ensures Chain(D.Limbs(), c, MulTotal(old(D.Limbs()), old(S.Limbs()[..steps]), b, steps), steps)
    ensures Keeps(D, old(D.Limbs()), steps)
    ensures OnlyChanges(D)
  {
    hide Chain, Value, Radix, MulAddColumn, Pow2, MulTotal;
    ghost var d, s := D.Limbs(), S.Limbs()[..steps];
    c := 0;
    MulTotalStart(d, d, s, b);
    for i := 0 to steps
      invariant Chain(D.Limbs(), c, MulTotal(d, s, b, i), i)
      invariant Keeps(D, d, i)
      invariant Keeps(S.Take(steps), s, i)
      invariant OnlyChanges(D)
    {
      ghost var x, carry := D.Limbs(), c;
      var (t, c') := MulAddColumn(D.buf[D.off + i], S.buf[S.off + i], b, c);
      c := c';
      SetLimb(D, i, t, D, d, S.Take(steps), s);
      MulTotalColumn(x, carry, D.Limbs(), c, d, s, b, i);
    }
  }

  /** The columns beyond the shorter operand, where the carry runs on. */
  method SpillColumns(D: Span, steps: nat, carry: Limb, ghost d: seq<Limb>, ghost s: seq<Limb>, ghost b: Limb)
      returns (c: Limb)
    requires D.Valid() && |s| == steps <= D.len == |d|
    requires Chain(D.Limbs(), carry, MulTotal(d, s, b, steps), steps)
    requires Keeps(D, d, steps)
    modifies D.buf
    ensures Chain(D.Limbs(), c, MulTotal(d, s, b, D.len), D.len)
    ensures OnlyChanges(D)
  {
    hide Chain, Value, Radix, SpillColumn, Pow2, MulTotal;
    c := carry;
    for i := steps to D.len
      invariant Chain(D.Limbs(), c, MulTotal(d, s, b, i), i)
      invariant Keeps(D, d, i)
      invariant OnlyChanges(D)
    {
      ghost var x, before := D.Limbs(), c;
      var (t, c') := SpillColumn(D.buf[D.off + i], c);
      c := c';
      SetLimb(D, i, t, D, d, D, d);
      MulTotalSpill(x, before, D.Limbs(), c, d, s, b, i);
    }
  }

  /** A column beyond the shorter operand: only the carry is added. */
  function SpillColumn(d: Limb, c: Limb): (r: (Limb, Limb))
    ensures r.1 <= 1 && r.0 + r.1 * BASE == d + c
  {
    BaseBig();
    var sum: int := d + c;
    var t := Wrap(sum);
    (t, if t < c then 1 else 0)
  }

  /** What the low i limbs of d plus b times s come to. */
  ghost function MulTotal(d: seq<Limb>, s: seq<Limb>, b: Limb, i: nat): int
    requires i <= |d|
  {
    Value(d[..i]) + b * Value(s[..Min(i, |s|)])
  }

  lemma MulTotalStart(x: seq<Limb>, d: seq<Limb>, s: seq<Limb>, b: Limb)
    ensures Chain(x, 0, MulTotal(d, s, b, 0), 0)
  {
    assert x[..0] == d[..0] == s[..0] == [];
  }

  lemma MulTotalColumn(x: seq<Limb>, c: int, x': seq<Limb>, c': int, d: seq<Limb>, s: seq<Limb>, b: Limb, i: nat)
    requires i < |x| == |x'| && i < |d| && i < |s|
    requires Chain(x, c, MulTotal(d, s, b, i), i) && x'[..i] == x[..i]
    requires x'[i] + c' * BASE == d[i] + s[i] * b + c
    ensures Chain(x', c', MulTotal(d, s, b, i + 1), i + 1)
  {
    ChainColumn(x, c, x', c', MulTotal(d, s, b, i), d[i] + s[i] * b, i);
    ValueSnoc(d, i);
    ValueSnoc(s, i);
    Distribute(d[i], b, s[i], Value(s[..i]), Radix(i));
  }

  lemma MulTotalSpill(x: seq<Limb>, c: int, x': seq<Limb>, c': int, d: seq<Limb>, s: seq<Limb>, b: Limb, i: nat)
    requires i < |x| == |x'| && |s| <= i < |d|
    requires Chain(x, c, MulTotal(d, s, b, i), i) && x'[..i] == x[..i]
    requires x'[i] + c' * BASE == d[i] + c
    ensures Chain(x', c', MulTotal(d, s, b, i + 1), i + 1)
  {
    ChainColumn(x, c, x', c', MulTotal(d, s, b, i), d[i], i);
    ValueSnoc(d, i);
  }

  lemma MulTotalAll(d: seq<Limb>, s: seq<Limb>, b: Limb)
    requires |s| <= |d|
    ensures MulTotal(d, s, b, |d|) == Value(d) + b * Value(s)
  {
    assert d[..|d|] == d && s[..|s|] == s;
  }

  // ---- selection and comparison ----

  /** X := A when assign is set. */
  method CondAssign(X: Span, A: Span, assign: bool)
    requires X.Valid() && A.Valid() && X.len == A.len
    requires X.AliasOrApart(A)
    modifies X.buf
    ensures X.Limbs() == if assign then old(A.Limbs()) else old(X.Limbs())
    ensures OnlyChanges(X)
  {
    hide Value, Radix, Pow2;
    if X == A {
      return;
    }
    ghost var x, a := X.Limbs(), A.Limbs();
    ghost var chosen := if assign then a else x;
    for i := 0 to X.len
      invariant X.Limbs()[..i] == chosen[..i]
      invariant Keeps(X, x, i)
      invariant Keeps(A, a, i)
      invariant OnlyChanges(X)
    {
      SetLimb(X, i, if assign then A.buf[A.off + i] else X.buf[X.off + i], A, a, X, x);
      assert X.Limbs()[..i + 1] == X.Limbs()[..i] + [chosen[i]] == chosen[..i + 1];
    }
    assert X.Limbs()[..X.len] == X.Limbs() && chosen[..X.len] == chosen;
  }

  /** Entry index of a table of count numbers of limbs limbs each. */
  function Entry(table: Span, limbs: nat, index: nat): (e: Span)
    requires (index + 1) * limbs <= table.len
    ensures e.len == limbs && e.off + limbs <= table.off + table.len && table.off <= e.off
    ensures e.buf == table.buf
  {
    MulDistrib(index, 1, limbs);
    MulNonneg(index, limbs);
    table.From(index * limbs).Take(limbs)
  }

  lemma EntryLimbs(table: Span, limbs: nat, index: nat)
    requires table.Valid() && (index + 1) * limbs <= table.len
    ensures 0 <= index * limbs <= index * limbs + limbs <= table.len
    ensures Entry(table, limbs, index).Limbs() == table.Limbs()[index * limbs..index * limbs + limbs]
  {
    MulDistrib(index, 1, limbs);
    MulNonneg(index, limbs);
    PartLimbs(table, index * limbs, limbs);
  }

  lemma EntryFits(table: Span, limbs: nat, count: nat, index: nat)
    requires index < count && count * limbs <= table.len
    ensures (index + 1) * limbs <= table.len
  {
    MulMonotone(index + 1, count, limbs);
  }

  /** X := A when assign is set, away from other limbs. */
  method CondAssignKeeping(X: Span, A: Span, assign: bool, ghost K: Span)
    requires X.Valid() && A.Valid() && K.Valid() && X.len == A.len
    requires X.AliasOrApart(A) && X.Apart(K)
    modifies X.buf
    ensures X.Limbs() == if assign then old(A.Limbs()) else old(X.Limbs())
    ensures K.Limbs() == old(K.Limbs())
    ensures OnlyChanges(X)
  {
    CondAssign(X, A, assign);
  }

  /** dest := table[index], reading every entry so that no access depends on the index. */
  method TableLookup(dest: Span, table: Span, count: nat, index: nat)
    requires dest.Valid() && table.Valid() && dest.Apart(table)
    requires index < count && count * dest.len <= table.len
    modifies dest.buf
    ensures (index + 1) * dest.len <= table.len
    ensures dest.Limbs() == old(Entry(table, dest.len, index).Limbs())
    ensures OnlyChanges(dest)
  {
    EntryFits(table, dest.len, count, index);
    ghost var wanted, t := Entry(table, dest.len, index).Limbs(), table.Limbs();
    EntryLimbs(table, dest.len, index);
    for i := 0 to count
      invariant i > index ==> dest.Limbs() == wanted
      invariant table.Limbs() == t
      invariant OnlyChanges(dest)
    {
      EntryFits(table, dest.len, count, i);
      EntryLimbs(table, dest.len, i);
      CondAssignKeeping(dest, Entry(table, dest.len, i), i == index, table);
    }
  }

  /** Whether A < B, decided from the highest limb down without stopping early. */
  method LessThan(A: Span, B: Span) returns (ret: bool)
    requires A.Valid() && B.Valid() && A.len == B.len
    ensures ret <==> A.Num() < B.Num()
  {
    hide Value, Radix, Pow2;
    var done := false;
    ret := false;
    ghost var a, b := A.Limbs(), B.Limbs();
    var i := A.len;
    assert a[..i] == a && b[..i] == b;
    while i > 0
      invariant i <= A.len
      invariant done ==> (ret <==> Value(a) < Value(b))
      invariant !done ==> !ret && (Value(a) < Value(b) <==> Value(a[..i]) < Value(b[..i]))
      invariant !done && i == 0 ==> Value(a) >= Value(b)
    {
      assert A.buf[A.off + i - 1] == a[i - 1] && B.buf[B.off + i - 1] == b[i - 1];
      TopDecides(a, b, i - 1);
      if !done {
        if B.buf[B.off + i - 1] < A.buf[A.off + i - 1] {
          done := true;
        } else if A.buf[A.off + i - 1] < B.buf[B.off + i - 1] {
          ret := true;
          done := true;
        }
      }
      i := i - 1;
      EmptyPrefix(a, b);
    }
  }

  lemma EmptyPrefix(a: seq<Limb>, b: seq<Limb>)
    ensures Value(a[..0]) == Value(b[..0]) == 0
  {
    assert a[..0] == b[..0] == [];
  }

  /** The highest limb in which two numbers differ decides which is smaller. */
  lemma TopDecides(a: seq<Limb>, b: seq<Limb>, i: nat)
    requires i < |a| == |b|
    ensures a[i] < b[i] ==> Value(a[..i + 1]) < Value(b[..i + 1])
    ensures a[i] > b[i] ==> Value(a[..i + 1]) > Value(b[..i + 1])
    ensures a[i] == b[i] ==> (Value(a[..i + 1]) < Value(b[..i + 1]) <==> Value(a[..i]) < Value(b[..i]))
  {
    ValueSnoc(a, i);
    ValueSnoc(b, i);
    ValueBound(a[..i]);
    ValueBound(b[..i]);
    var x: int, y: int, r := a[i], b[i], Radix(i);
    if x < y {
      MulMonotone(x + 1, y, r);
      MulDistrib(x, 1, r);
    } else if y < x {
      MulMonotone(y + 1, x, r);
      MulDistrib(y, 1, r);
    }
  }

  /** Whether every limb of A is zero. */
  method IsZero(A: Span) returns (zero: bool)
    requires A.Valid()
    ensures zero <==> A.Num() == 0
  {
    zero := true;
    ghost var a := A.Limbs();
    for i := 0 to A.len
      invariant zero <==> forall k | 0 <= k < i :: a[k] == 0
    {
      assert A.buf[A.off + i] == a[i];
      zero := zero && A.buf[A.off + i] == 0;
    }
    if zero {
      ValueZeros(a);
    } else if Value(a) == 0 {
      ValueZeroLimbs(a);
    }
  }
}
