/** The block cipher ARIA, aria.c and RFC 5794: decryption is encryption under transformed keys. */
module Aria {
  import opened AriaField
  import opened AriaSBox

  /** A 32-bit word as its four bytes, the lowest first. */
  datatype Word = Word(b0: bv8, b1: bv8, b2: bv8, b3: bv8)
  /** A block, or a round key. */
  datatype Block = Block(a: Word, b: Word, c: Word, d: Word)

  function XorW(x: Word, y: Word): Word {
    Word(Bx(x.b0, y.b0), Bx(x.b1, y.b1), Bx(x.b2, y.b2), Bx(x.b3, y.b3))
  }

  function Xor(x: Block, y: Block): Block {
    Block(XorW(x.a, y.a), XorW(x.b, y.b), XorW(x.c, y.c), XorW(x.d, y.d))
  }

  /** ARIA_P1: the bytes of each half exchanged. */
  function P1(x: Word): Word {
    Word(x.b1, x.b0, x.b3, x.b2)
  }

  /** ARIA_P2: the halves exchanged. */
  function P2(x: Word): Word {
    Word(x.b2, x.b3, x.b0, x.b1)
  }

  /** The 32-bit word of four bytes. */
  function Pack(b0: bv8, b1: bv8, b2: bv8, b3: bv8): bv32 {
    (b0 as bv32) | ((b1 as bv32) << 8) | ((b2 as bv32) << 16) | ((b3 as bv32) << 24)
  }

  /** The macros compute these exchanges on 32-bit words. */
  lemma PackedHalves(b0: bv8, b1: bv8, b2: bv8, b3: bv8)
    ensures
      var x := Pack(b0, b1, b2, b3);
      Pack(b2, b3, b0, b1) == (x >> 16) ^ (x << 16)
  {
  }

  lemma PackedBytes(b0: bv8, b1: bv8, b2: bv8, b3: bv8)
    ensures
      var x := Pack(b0, b1, b2, b3);
      Pack(b1, b0, b3, b2) == ((x >> 8) & 0x00ff_00ff) ^ ((x & 0x00ff_00ff) << 8)
  {
  }

  lemma XorBack(x: Block, y: Block)
    ensures Xor(Xor(x, y), y) == x
  {
    hide Bx;
    XorBackW(x.a, y.a);
    XorBackW(x.b, y.b);
    XorBackW(x.c, y.c);
    XorBackW(x.d, y.d);
  }

  lemma XorBackW(x: Word, y: Word)
    ensures XorW(XorW(x, y), y) == x
  {
    hide Bx;
    BxBack(x.b0, y.b0);
    BxBack(x.b1, y.b1);
    BxBack(x.b2, y.b2);
    BxBack(x.b3, y.b3);
  }

  // ---- sums of bytes of a block ----

  function WordByte(x: Word, i: nat): bv8
    requires i < 4
  {
    if i == 0 then x.b0 else if i == 1 then x.b1 else if i == 2 then x.b2 else x.b3
  }

  /** Byte i of a block. */
  function Byte(x: Block, i: nat): bv8
    requires i < 16
  {
    if i < 4 then WordByte(x.a, i) else if i < 8 then WordByte(x.b, i - 4)
    else if i < 12 then WordByte(x.c, i - 8) else WordByte(x.d, i - 12)
  }

  /** The mask that selects byte i. */
  function Bit(i: nat): bv16
    requires i < 16
  {
    if i == 0 then 0x0001 else if i == 1 then 0x0002 else if i == 2 then 0x0004 else if i == 3 then 0x0008
    else if i == 4 then 0x0010 else if i == 5 then 0x0020 else if i == 6 then 0x0040 else if i == 7 then 0x0080
    else if i == 8 then 0x0100 else if i == 9 then 0x0200 else if i == 10 then 0x0400 else if i == 11 then 0x0800
    else if i == 12 then 0x1000 else if i == 13 then 0x2000 else if i == 14 then 0x4000 else 0x8000
  }

  /** The bytes that byte i of the diffusion is the sum of, section 2.4.3 of RFC 5794. */
  function Row(i: nat): bv16
    requires i < 16
  {
    if i == 0 then 0x6358 else if i == 1 then 0x93a4 else if i == 2 then 0x9c52 else if i == 3 then 0x6ca1
    else if i == 4 then 0xc925 else if i == 5 then 0xc61a else if i == 6 then 0x3685 else if i == 7 then 0x394a
    else if i == 8 then 0xa493 else if i == 9 then 0x5863 else if i == 10 then 0xa16c else if i == 11 then 0x529c
    else if i == 12 then 0x1ac6 else if i == 13 then 0x25c9 else if i == 14 then 0x4a39 else 0x8536
  }

  predicate Selects(m: bv16, i: nat)
    requires i < 16
  {
    m & Bit(i) != 0
  }

  function Mx(m: bv16, n: bv16): bv16 {
    m ^ n
  }

  lemma SelectsXor(m: bv16, n: bv16, i: nat)
    requires i < 16
    ensures Selects(Mx(m, n), i) == (Selects(m, i) != Selects(n, i))
  {
    hide Bit;
    BitCases(i);
    OneBit(m, n, Bit(i));
  }

  lemma BitCases(i: nat)
    requires i < 16
    ensures
      var b := Bit(i);
      b == 1 || b == 2 || b == 4 || b == 8 || b == 0x10 || b == 0x20 || b == 0x40 || b == 0x80 || b == 0x100
      || b == 0x200 || b == 0x400 || b == 0x800 || b == 0x1000 || b == 0x2000 || b == 0x4000 || b == 0x8000
  {
  }

  lemma OneBit(m: bv16, n: bv16, b: bv16)
    requires b == 1 || b == 2 || b == 4 || b == 8 || b == 0x10 || b == 0x20 || b == 0x40 || b == 0x80 || b == 0x100
             || b == 0x200 || b == 0x400 || b == 0x800 || b == 0x1000 || b == 0x2000 || b == 0x4000 || b == 0x8000
    ensures (m ^ n) & b != 0 <==> ((m & b != 0) != (n & b != 0))
  {
    assert (m ^ n) & b == (m & b) ^ (n & b);
    assert m & b == 0 || m & b == b;
    assert n & b == 0 || n & b == b;
  }

  lemma SelectsBit(i: nat, j: nat)
    requires i < 16 && j < 16
    ensures Selects(Bit(i), j) <==> i == j
    ensures !Selects(0, j)
  {
  }

  /** The sum of the selected bytes, of the first k. */
  function Sum(m: bv16, x: Block, k: nat): bv8
    requires k <= 16
  {
    if k == 0 then 0 else Bx(Sum(m, x, k - 1), if Selects(m, k - 1) then Byte(x, k - 1) else 0)
  }

  function Eval(m: bv16, x: Block): bv8 {
    Sum(m, x, 16)
  }

  lemma {:induction false} SumMasks(m: bv16, n: bv16, x: Block, k: nat)
    requires k <= 16
    ensures Sum(Mx(m, n), x, k) == Bx(Sum(m, x, k), Sum(n, x, k))
  {
    hide Bx, Mx, Selects, Byte;
    BxZero(0);
    if k > 0 {
      SumMasks(m, n, x, k - 1);
      SelectsXor(m, n, k - 1);
      var b := Byte(x, k - 1);
      BxZero(b);
      var p, q := if Selects(m, k - 1) then b else 0, if Selects(n, k - 1) then b else 0;
      BxSwap(Sum(m, x, k - 1), p, Sum(n, x, k - 1), q);
    }
  }

  lemma {:induction false} SumBlocks(m: bv16, x: Block, y: Block, k: nat)
    requires k <= 16
    ensures Sum(m, Xor(x, y), k) == Bx(Sum(m, x, k), Sum(m, y, k))
  {
    hide Bx, Selects, Byte, Xor;
    BxZero(0);
    if k > 0 {
      SumBlocks(m, x, y, k - 1);
      XorByte(x, y, k - 1);
      var on := Selects(m, k - 1);
      BxSwap(Sum(m, x, k - 1), if on then Byte(x, k - 1) else 0, Sum(m, y, k - 1), if on then Byte(y, k - 1) else 0);
    }
  }

  lemma XorByte(x: Block, y: Block, i: nat)
    requires i < 16
    ensures Byte(Xor(x, y), i) == Bx(Byte(x, i), Byte(y, i))
  {
    hide Bx;
  }

  lemma {:induction false} SumOfBit(i: nat, x: Block, k: nat)
    requires i < 16 && k <= 16
    ensures Sum(Bit(i), x, k) == if i < k then Byte(x, i) else 0
    ensures Sum(0, x, k) == 0
  {
    hide Bx, Selects, Bit, Byte;
    BxZero(0);
    if k > 0 {
      SumOfBit(i, x, k - 1);
      SelectsBit(i, k - 1);
      BxZero(Byte(x, k - 1));
      BxZero(Byte(x, i));
    }
  }

  // ---- the diffusion layer ----

  /** Every byte of the diffusion is a sum of seven bytes. */
  function Diffuse(x: Block): Block {
    Block(Word(Eval(Row(0), x), Eval(Row(1), x), Eval(Row(2), x), Eval(Row(3), x)),
          Word(Eval(Row(4), x), Eval(Row(5), x), Eval(Row(6), x), Eval(Row(7), x)),
          Word(Eval(Row(8), x), Eval(Row(9), x), Eval(Row(10), x), Eval(Row(11), x)),
          Word(Eval(Row(12), x), Eval(Row(13), x), Eval(Row(14), x), Eval(Row(15), x)))
  }

  lemma DiffuseByte(x: Block, i: nat)
    requires i < 16
    ensures Byte(Diffuse(x), i) == Eval(Row(i), x)
  {
    hide Eval, Row;
  }

  lemma SameBytes(x: Block, y: Block)
    requires forall i | 0 <= i < 16 :: Byte(x, i) == Byte(y, i)
    ensures x == y
  {
    assert Byte(x, 0) == Byte(y, 0) && Byte(x, 1) == Byte(y, 1) && Byte(x, 2) == Byte(y, 2) && Byte(x, 3) == Byte(y, 3);
    assert Byte(x, 4) == Byte(y, 4) && Byte(x, 5) == Byte(y, 5) && Byte(x, 6) == Byte(y, 6) && Byte(x, 7) == Byte(y, 7);
    assert Byte(x, 8) == Byte(y, 8) && Byte(x, 9) == Byte(y, 9) && Byte(x, 10) == Byte(y, 10);
    assert Byte(x, 11) == Byte(y, 11) && Byte(x, 12) == Byte(y, 12) && Byte(x, 13) == Byte(y, 13);
    assert Byte(x, 14) == Byte(y, 14) && Byte(x, 15) == Byte(y, 15);
  }

  /** The diffusion of a sum is the sum of the diffusions. */
  lemma DiffuseLinear(x: Block, y: Block)
    ensures Diffuse(Xor(x, y)) == Xor(Diffuse(x), Diffuse(y))
  {
    hide Bx, Row, Sum, Xor, Diffuse, Byte;
    var p, q := Diffuse(Xor(x, y)), Xor(Diffuse(x), Diffuse(y));
    forall i | 0 <= i < 16
      ensures Byte(p, i) == Byte(q, i)
    {
      XorByte(Diffuse(x), Diffuse(y), i);
      DiffuseByte(x, i);
      DiffuseByte(y, i);
      DiffuseByte(Xor(x, y), i);
      SumBlocks(Row(i), x, y, 16);
    }
    SameBytes(p, q);
  }

  /** What byte i is the sum of after two diffusions, by the first k bytes of the first one. */
  function Composed(i: nat, k: nat): bv16
    requires i < 16 && k <= 16
  {
    if k == 0 then 0 else Mx(Composed(i, k - 1), Part(Row(i), k - 1))
  }

  function Part(m: bv16, k: nat): bv16
    requires k < 16
  {
    if Selects(m, k) then Row(k) else 0
  }

  lemma {:induction false} EvalComposed(i: nat, x: Block, k: nat)
    requires i < 16 && k <= 16
    ensures Sum(Row(i), Diffuse(x), k) == Eval(Composed(i, k), x)
  {
    hide Bx, Mx, Selects, Row, Byte, Diffuse;
    SumOfBit(0, x, 16);
    if k > 0 {
      EvalComposed(i, x, k - 1);
      DiffuseByte(x, k - 1);
      SumMasks(Composed(i, k - 1), Part(Row(i), k - 1), x, 16);
    }
  }

  /** All parts, summed up. */
  function AllParts(m: bv16): bv16 {
    Mx(Mx(Mx(Mx(Mx(Mx(Mx(Mx(Mx(Mx(Mx(Mx(Mx(Mx(Mx(Mx(0, Part(m, 0)), Part(m, 1)), Part(m, 2)), Part(m, 3)), Part(m, 4)),
    Part(m, 5)), Part(m, 6)), Part(m, 7)), Part(m, 8)), Part(m, 9)), Part(m, 10)), Part(m, 11)), Part(m, 12)),
    Part(m, 13)), Part(m, 14)), Part(m, 15))
  }

  lemma ComposedParts(i: nat)
    requires i < 16
    ensures Composed(i, 16) == AllParts(Row(i))
  {
    hide Mx, Part, Row;
    assert Composed(i, 0) == 0;
    assert Composed(i, 2) == Mx(Mx(0, Part(Row(i), 0)), Part(Row(i), 1));
    assert Composed(i, 4) == Mx(Mx(Composed(i, 2), Part(Row(i), 2)), Part(Row(i), 3));
    assert Composed(i, 6) == Mx(Mx(Composed(i, 4), Part(Row(i), 4)), Part(Row(i), 5));
    assert Composed(i, 8) == Mx(Mx(Composed(i, 6), Part(Row(i), 6)), Part(Row(i), 7));
    assert Composed(i, 10) == Mx(Mx(Composed(i, 8), Part(Row(i), 8)), Part(Row(i), 9));
    assert Composed(i, 12) == Mx(Mx(Composed(i, 10), Part(Row(i), 10)), Part(Row(i), 11));
    assert Composed(i, 14) == Mx(Mx(Composed(i, 12), Part(Row(i), 12)), Part(Row(i), 13));
  }

  function Term(m: bv16, bit: bv16, row: bv16): bv16 {
    if m & bit != 0 then row else 0
  }

  /** Four more terms, of the bits from b0 to b3. */
  function Four(sum: bv16, m: bv16, b0: bv16, r0: bv16, b1: bv16, r1: bv16, b2: bv16, r2: bv16,
                b3: bv16, r3: bv16): bv16 {
    Mx(Mx(Mx(Mx(sum, Term(m, b0, r0)), Term(m, b1, r1)), Term(m, b2, r2)), Term(m, b3, r3))
  }

  /** The same sum with the rows written out. */
  function Terms(m: bv16): bv16 {
    Four(Four(Four(Four(0, m, 0x0001, 0x6358, 0x0002, 0x93a4, 0x0004, 0x9c52, 0x0008, 0x6ca1),
                   m, 0x0010, 0xc925, 0x0020, 0xc61a, 0x0040, 0x3685, 0x0080, 0x394a),
              m, 0x0100, 0xa493, 0x0200, 0x5863, 0x0400, 0xa16c, 0x0800, 0x529c),
         m, 0x1000, 0x1ac6, 0x2000, 0x25c9, 0x4000, 0x4a39, 0x8000, 0x8536)
  }

  lemma PartTerm(m: bv16, k: nat)
    requires k < 16
    ensures Part(m, k) == Term(m, Bit(k), Row(k))
  {
  }

  lemma KnownRowsLow()
    ensures Bit(0) == 0x0001 && Row(0) == 0x6358 && Bit(1) == 0x0002 && Row(1) == 0x93a4
    ensures Bit(2) == 0x0004 && Row(2) == 0x9c52 && Bit(3) == 0x0008 && Row(3) == 0x6ca1
    ensures Bit(4) == 0x0010 && Row(4) == 0xc925 && Bit(5) == 0x0020 && Row(5) == 0xc61a
    ensures Bit(6) == 0x0040 && Row(6) == 0x3685 && Bit(7) == 0x0080 && Row(7) == 0x394a
  {
  }

  lemma KnownRowsHigh()
    ensures Bit(8) == 0x0100 && Row(8) == 0xa493 && Bit(9) == 0x0200 && Row(9) == 0x5863
    ensures Bit(10) == 0x0400 && Row(10) == 0xa16c && Bit(11) == 0x0800 && Row(11) == 0x529c
    ensures Bit(12) == 0x1000 && Row(12) == 0x1ac6 && Bit(13) == 0x2000 && Row(13) == 0x25c9
    ensures Bit(14) == 0x4000 && Row(14) == 0x4a39 && Bit(15) == 0x8000 && Row(15) == 0x8536
  {
  }

  lemma PartsTerms(m: bv16)
    ensures AllParts(m) == Terms(m)
  {
    hide Part, Term, Mx, Bit, Row;
    KnownRowsLow();
    KnownRowsHigh();
    PartTerm(m, 0); PartTerm(m, 1); PartTerm(m, 2); PartTerm(m, 3);
    PartTerm(m, 4); PartTerm(m, 5); PartTerm(m, 6); PartTerm(m, 7);
    PartTerm(m, 8); PartTerm(m, 9); PartTerm(m, 10); PartTerm(m, 11);
    PartTerm(m, 12); PartTerm(m, 13); PartTerm(m, 14); PartTerm(m, 15);
  }

  lemma FourOf(sum: bv16, m: bv16, b0: bv16, r0: bv16, b1: bv16, r1: bv16, b2: bv16, r2: bv16, b3: bv16, r3: bv16,
               total: bv16)
    requires total == Mx(Mx(Mx(Mx(sum, Term(m, b0, r0)), Term(m, b1, r1)), Term(m, b2, r2)), Term(m, b3, r3))
    ensures Four(sum, m, b0, r0, b1, r1, b2, r2, b3, r3) == total
  {
    hide Mx, Term;
  }

  /** After two diffusions every byte of the first word is the sum of itself alone. */
  lemma FirstRowsCancel()
    ensures Terms(0x6358) == 0x0001 && Terms(0x93a4) == 0x0002
    ensures Terms(0x9c52) == 0x0004 && Terms(0x6ca1) == 0x0008
  {
    hide Four;
    FourOf(0x0000, 0x6358, 0x0001, 0x6358, 0x0002, 0x93a4, 0x0004, 0x9c52, 0x0008, 0x6ca1, 0x6ca1);
    FourOf(0x6ca1, 0x6358, 0x0010, 0xc925, 0x0020, 0xc61a, 0x0040, 0x3685, 0x0080, 0x394a, 0x9301);
    FourOf(0x9301, 0x6358, 0x0100, 0xa493, 0x0200, 0x5863, 0x0400, 0xa16c, 0x0800, 0x529c, 0x6ff1);
    FourOf(0x6ff1, 0x6358, 0x1000, 0x1ac6, 0x2000, 0x25c9, 0x4000, 0x4a39, 0x8000, 0x8536, 0x0001);
    FourOf(0x0000, 0x93a4, 0x0001, 0x6358, 0x0002, 0x93a4, 0x0004, 0x9c52, 0x0008, 0x6ca1, 0x9c52);
    FourOf(0x9c52, 0x93a4, 0x0010, 0xc925, 0x0020, 0xc61a, 0x0040, 0x3685, 0x0080, 0x394a, 0x6302);
    FourOf(0x6302, 0x93a4, 0x0100, 0xa493, 0x0200, 0x5863, 0x0400, 0xa16c, 0x0800, 0x529c, 0x9ff2);
    FourOf(0x9ff2, 0x93a4, 0x1000, 0x1ac6, 0x2000, 0x25c9, 0x4000, 0x4a39, 0x8000, 0x8536, 0x0002);
    FourOf(0x0000, 0x9c52, 0x0001, 0x6358, 0x0002, 0x93a4, 0x0004, 0x9c52, 0x0008, 0x6ca1, 0x93a4);
    FourOf(0x93a4, 0x9c52, 0x0010, 0xc925, 0x0020, 0xc61a, 0x0040, 0x3685, 0x0080, 0x394a, 0x6c04);
    FourOf(0x6c04, 0x9c52, 0x0100, 0xa493, 0x0200, 0x5863, 0x0400, 0xa16c, 0x0800, 0x529c, 0x9ff4);
    FourOf(0x9ff4, 0x9c52, 0x1000, 0x1ac6, 0x2000, 0x25c9, 0x4000, 0x4a39, 0x8000, 0x8536, 0x0004);
    FourOf(0x0000, 0x6ca1, 0x0001, 0x6358, 0x0002, 0x93a4, 0x0004, 0x9c52, 0x0008, 0x6ca1, 0x6358);
    FourOf(0x6358, 0x6ca1, 0x0010, 0xc925, 0x0020, 0xc61a, 0x0040, 0x3685, 0x0080, 0x394a, 0x9c08);
    FourOf(0x9c08, 0x6ca1, 0x0100, 0xa493, 0x0200, 0x5863, 0x0400, 0xa16c, 0x0800, 0x529c, 0x6ff8);
    FourOf(0x6ff8, 0x6ca1, 0x1000, 0x1ac6, 0x2000, 0x25c9, 0x4000, 0x4a39, 0x8000, 0x8536, 0x0008);
  }

  /** And of the second word. */
  lemma SecondRowsCancel()
    ensures Terms(0xc925) == 0x0010 && Terms(0xc61a) == 0x0020
    ensures Terms(0x3685) == 0x0040 && Terms(0x394a) == 0x0080
  {
    hide Four;
    FourOf(0x0000, 0xc925, 0x0001, 0x6358, 0x0002, 0x93a4, 0x0004, 0x9c52, 0x0008, 0x6ca1, 0xff0a);
    FourOf(0xff0a, 0xc925, 0x0010, 0xc925, 0x0020, 0xc61a, 0x0040, 0x3685, 0x0080, 0x394a, 0x3910);
    FourOf(0x3910, 0xc925, 0x0100, 0xa493, 0x0200, 0x5863, 0x0400, 0xa16c, 0x0800, 0x529c, 0xcf1f);
    FourOf(0xcf1f, 0xc925, 0x1000, 0x1ac6, 0x2000, 0x25c9, 0x4000, 0x4a39, 0x8000, 0x8536, 0x0010);
    FourOf(0x0000, 0xc61a, 0x0001, 0x6358, 0x0002, 0x93a4, 0x0004, 0x9c52, 0x0008, 0x6ca1, 0xff05);
    FourOf(0xff05, 0xc61a, 0x0010, 0xc925, 0x0020, 0xc61a, 0x0040, 0x3685, 0x0080, 0x394a, 0x3620);
    FourOf(0x3620, 0xc61a, 0x0100, 0xa493, 0x0200, 0x5863, 0x0400, 0xa16c, 0x0800, 0x529c, 0xcf2f);
    FourOf(0xcf2f, 0xc61a, 0x1000, 0x1ac6, 0x2000, 0x25c9, 0x4000, 0x4a39, 0x8000, 0x8536, 0x0020);
    FourOf(0x0000, 0x3685, 0x0001, 0x6358, 0x0002, 0x93a4, 0x0004, 0x9c52, 0x0008, 0x6ca1, 0xff0a);
    FourOf(0xff0a, 0x3685, 0x0010, 0xc925, 0x0020, 0xc61a, 0x0040, 0x3685, 0x0080, 0x394a, 0xc640);
    FourOf(0xc640, 0x3685, 0x0100, 0xa493, 0x0200, 0x5863, 0x0400, 0xa16c, 0x0800, 0x529c, 0x3f4f);
    FourOf(0x3f4f, 0x3685, 0x1000, 0x1ac6, 0x2000, 0x25c9, 0x4000, 0x4a39, 0x8000, 0x8536, 0x0040);
    FourOf(0x0000, 0x394a, 0x0001, 0x6358, 0x0002, 0x93a4, 0x0004, 0x9c52, 0x0008, 0x6ca1, 0xff05);
    FourOf(0xff05, 0x394a, 0x0010, 0xc925, 0x0020, 0xc61a, 0x0040, 0x3685, 0x0080, 0x394a, 0xc980);
    FourOf(0xc980, 0x394a, 0x0100, 0xa493, 0x0200, 0x5863, 0x0400, 0xa16c, 0x0800, 0x529c, 0x3f8f);
    FourOf(0x3f8f, 0x394a, 0x1000, 0x1ac6, 0x2000, 0x25c9, 0x4000, 0x4a39, 0x8000, 0x8536, 0x0080);
  }

  /** And of the third word. */
  lemma ThirdRowsCancel()
    ensures Terms(0xa493) == 0x0100 && Terms(0x5863) == 0x0200
    ensures Terms(0xa16c) == 0x0400 && Terms(0x529c) == 0x0800
  {
    hide Four;
    FourOf(0x0000, 0xa493, 0x0001, 0x6358, 0x0002, 0x93a4, 0x0004, 0x9c52, 0x0008, 0x6ca1, 0xf0fc);
    FourOf(0xf0fc, 0xa493, 0x0010, 0xc925, 0x0020, 0xc61a, 0x0040, 0x3685, 0x0080, 0x394a, 0x0093);
    FourOf(0x0093, 0xa493, 0x0100, 0xa493, 0x0200, 0x5863, 0x0400, 0xa16c, 0x0800, 0x529c, 0xa1ff);
    FourOf(0xa1ff, 0xa493, 0x1000, 0x1ac6, 0x2000, 0x25c9, 0x4000, 0x4a39, 0x8000, 0x8536, 0x0100);
    FourOf(0x0000, 0x5863, 0x0001, 0x6358, 0x0002, 0x93a4, 0x0004, 0x9c52, 0x0008, 0x6ca1, 0xf0fc);
    FourOf(0xf0fc, 0x5863, 0x0010, 0xc925, 0x0020, 0xc61a, 0x0040, 0x3685, 0x0080, 0x394a, 0x0063);
    FourOf(0x0063, 0x5863, 0x0100, 0xa493, 0x0200, 0x5863, 0x0400, 0xa16c, 0x0800, 0x529c, 0x52ff);
    FourOf(0x52ff, 0x5863, 0x1000, 0x1ac6, 0x2000, 0x25c9, 0x4000, 0x4a39, 0x8000, 0x8536, 0x0200);
    FourOf(0x0000, 0xa16c, 0x0001, 0x6358, 0x0002, 0x93a4, 0x0004, 0x9c52, 0x0008, 0x6ca1, 0xf0f3);
    FourOf(0xf0f3, 0xa16c, 0x0010, 0xc925, 0x0020, 0xc61a, 0x0040, 0x3685, 0x0080, 0x394a, 0x006c);
    FourOf(0x006c, 0xa16c, 0x0100, 0xa493, 0x0200, 0x5863, 0x0400, 0xa16c, 0x0800, 0x529c, 0xa4ff);
    FourOf(0xa4ff, 0xa16c, 0x1000, 0x1ac6, 0x2000, 0x25c9, 0x4000, 0x4a39, 0x8000, 0x8536, 0x0400);
    FourOf(0x0000, 0x529c, 0x0001, 0x6358, 0x0002, 0x93a4, 0x0004, 0x9c52, 0x0008, 0x6ca1, 0xf0f3);
    FourOf(0xf0f3, 0x529c, 0x0010, 0xc925, 0x0020, 0xc61a, 0x0040, 0x3685, 0x0080, 0x394a, 0x009c);
    FourOf(0x009c, 0x529c, 0x0100, 0xa493, 0x0200, 0x5863, 0x0400, 0xa16c, 0x0800, 0x529c, 0x58ff);
    FourOf(0x58ff, 0x529c, 0x1000, 0x1ac6, 0x2000, 0x25c9, 0x4000, 0x4a39, 0x8000, 0x8536, 0x0800);
  }

  /** And of the fourth word. */
  lemma FourthRowsCancel()
    ensures Terms(0x1ac6) == 0x1000 && Terms(0x25c9) == 0x2000
    ensures Terms(0x4a39) == 0x4000 && Terms(0x8536) == 0x8000
  {
    hide Four;
    FourOf(0x0000, 0x1ac6, 0x0001, 0x6358, 0x0002, 0x93a4, 0x0004, 0x9c52, 0x0008, 0x6ca1, 0x0ff6);
    FourOf(0x0ff6, 0x1ac6, 0x0010, 0xc925, 0x0020, 0xc61a, 0x0040, 0x3685, 0x0080, 0x394a, 0x0039);
    FourOf(0x0039, 0x1ac6, 0x0100, 0xa493, 0x0200, 0x5863, 0x0400, 0xa16c, 0x0800, 0x529c, 0x0ac6);
    FourOf(0x0ac6, 0x1ac6, 0x1000, 0x1ac6, 0x2000, 0x25c9, 0x4000, 0x4a39, 0x8000, 0x8536, 0x1000);
    FourOf(0x0000, 0x25c9, 0x0001, 0x6358, 0x0002, 0x93a4, 0x0004, 0x9c52, 0x0008, 0x6ca1, 0x0ff9);
    FourOf(0x0ff9, 0x25c9, 0x0010, 0xc925, 0x0020, 0xc61a, 0x0040, 0x3685, 0x0080, 0x394a, 0x0036);
    FourOf(0x0036, 0x25c9, 0x0100, 0xa493, 0x0200, 0x5863, 0x0400, 0xa16c, 0x0800, 0x529c, 0x05c9);
    FourOf(0x05c9, 0x25c9, 0x1000, 0x1ac6, 0x2000, 0x25c9, 0x4000, 0x4a39, 0x8000, 0x8536, 0x2000);
    FourOf(0x0000, 0x4a39, 0x0001, 0x6358, 0x0002, 0x93a4, 0x0004, 0x9c52, 0x0008, 0x6ca1, 0x0ff9);
    FourOf(0x0ff9, 0x4a39, 0x0010, 0xc925, 0x0020, 0xc61a, 0x0040, 0x3685, 0x0080, 0x394a, 0x00c6);
    FourOf(0x00c6, 0x4a39, 0x0100, 0xa493, 0x0200, 0x5863, 0x0400, 0xa16c, 0x0800, 0x529c, 0x0a39);
    FourOf(0x0a39, 0x4a39, 0x1000, 0x1ac6, 0x2000, 0x25c9, 0x4000, 0x4a39, 0x8000, 0x8536, 0x4000);
    FourOf(0x0000, 0x8536, 0x0001, 0x6358, 0x0002, 0x93a4, 0x0004, 0x9c52, 0x0008, 0x6ca1, 0x0ff6);
    FourOf(0x0ff6, 0x8536, 0x0010, 0xc925, 0x0020, 0xc61a, 0x0040, 0x3685, 0x0080, 0x394a, 0x00c9);
    FourOf(0x00c9, 0x8536, 0x0100, 0xa493, 0x0200, 0x5863, 0x0400, 0xa16c, 0x0800, 0x529c, 0x0536);
    FourOf(0x0536, 0x8536, 0x1000, 0x1ac6, 0x2000, 0x25c9, 0x4000, 0x4a39, 0x8000, 0x8536, 0x8000);
  }

  lemma ComposedBit(i: nat)
    requires i < 16
    ensures Composed(i, 16) == Bit(i)
  {
    hide Composed, AllParts, Terms, Row, Bit;
    ComposedParts(i);
    PartsTerms(Row(i));
    KnownRowsLow();
    KnownRowsHigh();
    FirstRowsCancel();
    SecondRowsCancel();
    ThirdRowsCancel();
    FourthRowsCancel();
    assert i == 0 || i == 1 || i == 2 || i == 3 || i == 4 || i == 5 || i == 6 || i == 7
      || i == 8 || i == 9 || i == 10 || i == 11 || i == 12 || i == 13 || i == 14 || i == 15;
  }

  /** The diffusion undoes itself. */
  lemma DiffuseTwice(x: Block)
    ensures Diffuse(Diffuse(x)) == x
  {
    hide Diffuse, Byte, Row, Composed, Bit, Sum;
    forall i | 0 <= i < 16
      ensures Byte(Diffuse(Diffuse(x)), i) == Byte(x, i)
    {
      DiffuseByte(Diffuse(x), i);
      EvalComposed(i, x, 16);
      ComposedBit(i);
      SumOfBit(i, x, 16);
    }
    SameBytes(Diffuse(Diffuse(x)), x);
  }

  // ---- aria_a, word by word ----

  /** Which bytes of the input the bytes of a word are the sums of. */
  datatype Masks = Masks(m0: bv16, m1: bv16, m2: bv16, m3: bv16)

  function Value(m: Masks, x: Block): Word {
    Word(Eval(m.m0, x), Eval(m.m1, x), Eval(m.m2, x), Eval(m.m3, x))
  }

  function XorM(m: Masks, n: Masks): Masks {
    Masks(Mx(m.m0, n.m0), Mx(m.m1, n.m1), Mx(m.m2, n.m2), Mx(m.m3, n.m3))
  }

  function P1M(m: Masks): Masks {
    Masks(m.m1, m.m0, m.m3, m.m2)
  }

  function P2M(m: Masks): Masks {
    Masks(m.m2, m.m3, m.m0, m.m1)
  }

  /** Exchanges and sums of words are exchanges and sums of masks. */
  lemma ValueSteps(m: Masks, n: Masks, x: Block)
    ensures XorW(Value(m, x), Value(n, x)) == Value(XorM(m, n), x)
    ensures P1(Value(m, x)) == Value(P1M(m), x) && P2(Value(m, x)) == Value(P2M(m), x)
  {
    hide Bx, Mx, Sum;
    SumMasks(m.m0, n.m0, x, 16);
    SumMasks(m.m1, n.m1, x, 16);
    SumMasks(m.m2, n.m2, x, 16);
    SumMasks(m.m3, n.m3, x, 16);
  }

  /** The steps of aria_a on words. */
  function Steps(a: Word, b: Word, c: Word, d: Word): Block {
    var d1, c1 := P1(c), P1(P2(d));
    var ta := XorW(XorW(P1(XorW(b, d1)), P2(a)), c1);
    var tb := XorW(P2(d), P2(d1));
    var tc := XorW(P2(a), P1(P2(b)));
    var tb1, ta1 := XorW(P2(tb), ta), P2(ta);
    Block(XorW(P2(b), P1(tb1)), XorW(a, XorW(ta, tb)), XorW(c1, XorW(P1(P2(tc)), ta1)), XorW(d1, XorW(P1(ta1), tc)))
  }

  /** What the input words are sums of, and what the steps make of that. */
  const MA := Masks(0x0001, 0x0002, 0x0004, 0x0008)
  const MB := Masks(0x0010, 0x0020, 0x0040, 0x0080)
  const MC := Masks(0x0100, 0x0200, 0x0400, 0x0800)
  const MD := Masks(0x1000, 0x2000, 0x4000, 0x8000)

  function D1M(): Masks { P1M(MC) }
  function C1M(): Masks { P1M(P2M(MD)) }
  function TaM(): Masks { XorM(XorM(P1M(XorM(MB, D1M())), P2M(MA)), C1M()) }
  function TbM(): Masks { XorM(P2M(MD), P2M(D1M())) }
  function TcM(): Masks { XorM(P2M(MA), P1M(P2M(MB))) }
  function Tb1M(): Masks { XorM(P2M(TbM()), TaM()) }
  function OutA(): Masks { XorM(P2M(MB), P1M(Tb1M())) }
  function OutB(): Masks { XorM(MA, XorM(TaM(), TbM())) }
  function OutC(): Masks { XorM(C1M(), XorM(P1M(P2M(TcM())), P2M(TaM()))) }
  function OutD(): Masks { XorM(D1M(), XorM(P1M(P2M(TaM())), TcM())) }

  lemma InputMasks(x: Block)
    ensures x.a == Value(MA, x) && x.b == Value(MB, x) && x.c == Value(MC, x) && x.d == Value(MD, x)
  {
    hide Sum, Bit, Row;
    KnownRowsLow();
    KnownRowsHigh();
    forall i | 0 <= i < 16
      ensures Eval(Bit(i), x) == Byte(x, i)
    {
      SumOfBit(i, x, 16);
    }
    assert Eval(Bit(0), x) == x.a.b0 && Eval(Bit(1), x) == x.a.b1 && Eval(Bit(2), x) == x.a.b2
      && Eval(Bit(3), x) == x.a.b3;
    assert Eval(Bit(4), x) == x.b.b0 && Eval(Bit(5), x) == x.b.b1 && Eval(Bit(6), x) == x.b.b2
      && Eval(Bit(7), x) == x.b.b3;
    assert Eval(Bit(8), x) == x.c.b0 && Eval(Bit(9), x) == x.c.b1 && Eval(Bit(10), x) == x.c.b2;
    assert Eval(Bit(11), x) == x.c.b3 && Eval(Bit(12), x) == x.d.b0 && Eval(Bit(13), x) == x.d.b1;
    assert Eval(Bit(14), x) == x.d.b2 && Eval(Bit(15), x) == x.d.b3;
  }

  lemma TemporaryMasks(x: Block)
    ensures P1(x.c) == Value(D1M(), x) && P1(P2(x.d)) == Value(C1M(), x)
    ensures XorW(XorW(P1(XorW(x.b, P1(x.c))), P2(x.a)), P1(P2(x.d))) == Value(TaM(), x)
    ensures XorW(P2(x.d), P2(P1(x.c))) == Value(TbM(), x)
    ensures XorW(P2(x.a), P1(P2(x.b))) == Value(TcM(), x)
  {
    hide XorW, P1, P2, Value, XorM, P1M, P2M;
    InputMasks(x);
    ValueSteps(MC, MC, x);
    ValueSteps(MD, P2M(D1M()), x);
    ValueSteps(P2M(MD), P2M(D1M()), x);
    ValueSteps(D1M(), D1M(), x);
    ValueSteps(MB, D1M(), x);
    ValueSteps(XorM(MB, D1M()), MA, x);
    ValueSteps(MA, MA, x);
    ValueSteps(P1M(XorM(MB, D1M())), P2M(MA), x);
    ValueSteps(XorM(P1M(XorM(MB, D1M())), P2M(MA)), C1M(), x);
    ValueSteps(P2M(MB), MB, x);
    ValueSteps(P2M(MA), P1M(P2M(MB)), x);
  }

  lemma StepsMasks(x: Block)
    ensures Steps(x.a, x.b, x.c, x.d) == Block(Value(OutA(), x), Value(OutB(), x), Value(OutC(), x), Value(OutD(), x))
  {
    hide XorW, P1, P2, Value, XorM, P1M, P2M, TaM, TbM, TcM, C1M, D1M;
    InputMasks(x);
    TemporaryMasks(x);
    ValueSteps(TbM(), TbM(), x);
    ValueSteps(P2M(TbM()), TaM(), x);
    ValueSteps(Tb1M(), Tb1M(), x);
    ValueSteps(MB, MB, x);
    ValueSteps(P2M(MB), P1M(Tb1M()), x);
    ValueSteps(TaM(), TbM(), x);
    ValueSteps(MA, XorM(TaM(), TbM()), x);
    ValueSteps(TcM(), TcM(), x);
    ValueSteps(P2M(TcM()), P2M(TcM()), x);
    ValueSteps(P1M(P2M(TcM())), P2M(TaM()), x);
    ValueSteps(C1M(), XorM(P1M(P2M(TcM())), P2M(TaM())), x);
    ValueSteps(P2M(TaM()), TcM(), x);
    ValueSteps(P1M(P2M(TaM())), TcM(), x);
    ValueSteps(D1M(), XorM(P1M(P2M(TaM())), TcM()), x);
  }

  lemma TemporaryRows()
    ensures D1M() == Masks(0x0200, 0x0100, 0x0800, 0x0400) && C1M() == Masks(0x8000, 0x4000, 0x2000, 0x1000)
    ensures TaM() == Masks(0x8124, 0x4218, 0x2481, 0x1842) && TbM() == Masks(0x4800, 0x8400, 0x1200, 0x2100)
    ensures TcM() == Masks(0x0084, 0x0048, 0x0021, 0x0012)
  {
  }

  lemma OutRows()
    ensures OutA() == Masks(0x6358, 0x93a4, 0x9c52, 0x6ca1) && OutB() == Masks(0xc925, 0xc61a, 0x3685, 0x394a)
    ensures OutC() == Masks(0xa493, 0x5863, 0xa16c, 0x529c) && OutD() == Masks(0x1ac6, 0x25c9, 0x4a39, 0x8536)
  {
    hide TaM, TbM, TcM, C1M, D1M;
    TemporaryRows();
  }

  /** The steps compute the sums of section 2.4.3 of RFC 5794. */
  lemma StepsDiffuse(x: Block)
    ensures Steps(x.a, x.b, x.c, x.d) == Diffuse(x)
  {
    hide Steps, OutA, OutB, OutC, OutD, Row, Bit, Sum;
    StepsMasks(x);
    OutRows();
    KnownRowsLow();
    KnownRowsHigh();
  }

  /** aria_a. */
  method AriaA(x: Block) returns (y: Block)
    ensures y == Diffuse(x)
  {
    hide XorW, P1, P2, Diffuse;
    var a, b, c, d := x.a, x.b, x.c, x.d;
    var ta := b;
    b := a;
    a := P2(ta);
    var tb := P2(d);
    d := P1(c);
    c := P1(tb);
    ta := XorW(ta, d);
    var tc := P2(b);
    ta := XorW(XorW(P1(ta), tc), c);
    tb := XorW(tb, P2(d));
    tc := XorW(tc, P1(a));
    b := XorW(b, XorW(ta, tb));
    tb := XorW(P2(tb), ta);
    a := XorW(a, P1(tb));
    ta := P2(ta);
    d := XorW(d, XorW(P1(ta), tc));
    tc := P2(tc);
    c := XorW(c, XorW(P1(tc), ta));
    y := Block(a, b, c, d);
    StepsDiffuse(x);
  }

  // ---- the substitution layers ----

  function SubstituteW(x: Word, odd: bool): Word {
    if odd then Word(Sb1(x.b0), Sb2(x.b1), Is1(x.b2), Is2(x.b3))
    else Word(Is1(x.b0), Is2(x.b1), Sb1(x.b2), Sb2(x.b3))
  }

  /** aria_sl: SL1 in odd rounds, SL2 in even ones. */
  function Substitute(x: Block, odd: bool): Block {
    Block(SubstituteW(x.a, odd), SubstituteW(x.b, odd), SubstituteW(x.c, odd), SubstituteW(x.d, odd))
  }

  lemma SubstituteBackW(x: Word, odd: bool)
    ensures SubstituteW(SubstituteW(x, odd), !odd) == x
  {
    hide Sb1, Sb2, Is1, Is2;
    if odd {
      FirstBox(x.b0);
      SecondBox(x.b1);
      FirstBoxBack(x.b2);
      SecondBoxBack(x.b3);
    } else {
      FirstBoxBack(x.b0);
      SecondBoxBack(x.b1);
      FirstBox(x.b2);
      SecondBox(x.b3);
    }
  }

  /** What the layers do to a word. In odd rounds bytes 0 and 1 go through the first and the second box, and
      bytes 2 and 3 through the same boxes the other way; in even rounds it is the other way about. */
  ghost predicate SubstitutedW(x: Word, y: Word, odd: bool) {
    if odd then
      FirstBoxOf(x.b0, y.b0) && SecondBoxOf(x.b1, y.b1) && FirstBoxOf(y.b2, x.b2) && SecondBoxOf(y.b3, x.b3)
    else
      FirstBoxOf(y.b0, x.b0) && SecondBoxOf(y.b1, x.b1) && FirstBoxOf(x.b2, y.b2) && SecondBoxOf(x.b3, y.b3)
  }

  lemma SubstituteMeansW(x: Word, y: Word, odd: bool)
    ensures SubstitutedW(x, y, odd) <==> y == SubstituteW(x, odd)
  {
    hide Sb1, Sb2, Is1, Is2, FirstBoxOf, SecondBoxOf;
    if odd {
      FirstBoxMeans(x.b0, y.b0);
      SecondBoxMeans(x.b1, y.b1);
      FirstBoxUndone(y.b2, x.b2);
      SecondBoxUndone(y.b3, x.b3);
    } else {
      FirstBoxUndone(y.b0, x.b0);
      SecondBoxUndone(y.b1, x.b1);
      FirstBoxMeans(x.b2, y.b2);
      SecondBoxMeans(x.b3, y.b3);
    }
  }

  ghost predicate Substituted(x: Block, y: Block, odd: bool) {
    && SubstitutedW(x.a, y.a, odd) && SubstitutedW(x.b, y.b, odd)
    && SubstitutedW(x.c, y.c, odd) && SubstitutedW(x.d, y.d, odd)
  }

  /** The layers compute exactly that, on every block. */
  lemma SubstituteMeans(x: Block, y: Block, odd: bool)
    ensures Substituted(x, y, odd) <==> y == Substitute(x, odd)
  {
    hide SubstitutedW, SubstituteW;
    SubstituteMeansW(x.a, y.a, odd);
    SubstituteMeansW(x.b, y.b, odd);
    SubstituteMeansW(x.c, y.c, odd);
    SubstituteMeansW(x.d, y.d, odd);
  }

  /** The two substitution layers undo each other. */
  lemma SubstituteBack(x: Block, odd: bool)
    ensures Substitute(Substitute(x, odd), !odd) == x
  {
    hide SubstituteW;
    SubstituteBackW(x.a, odd);
    SubstituteBackW(x.b, odd);
    SubstituteBackW(x.c, odd);
    SubstituteBackW(x.d, odd);
  }

  // ---- the cipher ----

  /** The state after i rounds that all end with the diffusion. */
  function After(rk: seq<Block>, x: Block, i: nat): Block
    requires i <= |rk|
  {
    if i == 0 then x else Diffuse(Substitute(Xor(After(rk, x, i - 1), rk[i - 1]), i % 2 == 1))
  }

  /** All rounds, the last one with a key in the place of the diffusion. */
  function Cipher(rk: seq<Block>, x: Block): Block
    requires |rk| >= 2
  {
    var nr := |rk| - 1;
    Xor(Substitute(Xor(After(rk, x, nr - 1), rk[nr - 1]), nr % 2 == 1), rk[nr])
  }

  /** The round keys for decryption: in the opposite order, all but the outer ones diffused. */
  function DecKeys(rk: seq<Block>): (dk: seq<Block>)
    ensures |dk| == |rk|
  {
    seq(|rk|, i requires 0 <= i < |rk| =>
      if i == 0 || i == |rk| - 1 then rk[|rk| - 1 - i] else Diffuse(rk[|rk| - 1 - i]))
  }

  /** Round by round decryption comes back to the states of encryption, one diffusion ahead. */
  lemma {:induction false} Backwards(rk: seq<Block>, x: Block, j: nat)
    requires 1 <= j < |rk| - 1 && |rk| % 2 == 1
    ensures
      var nr := |rk| - 1;
      After(DecKeys(rk), Cipher(rk, x), j) == Diffuse(Xor(After(rk, x, nr - j), rk[nr - j]))
  {
    hide Diffuse, Substitute, Xor;
    var nr, dk, c := |rk| - 1, DecKeys(rk), Cipher(rk, x);
    if j == 1 {
      BackwardsFirst(rk, x);
    } else {
      Backwards(rk, x, j - 1);
      var i := nr - j + 1;
      var e := After(rk, x, i);
      DiffuseLinear(e, rk[i]);
      XorBack(Diffuse(e), Diffuse(rk[i]));
      assert dk[j - 1] == Diffuse(rk[i]);
      var s := Xor(After(rk, x, i - 1), rk[i - 1]);
      DiffuseTwice(Substitute(s, i % 2 == 1));
      SubstituteBack(s, i % 2 == 1);
      Parities(nr, j, i);
    }
  }

  lemma BackwardsFirst(rk: seq<Block>, x: Block)
    requires 2 < |rk| && |rk| % 2 == 1
    ensures
      var nr := |rk| - 1;
      After(DecKeys(rk), Cipher(rk, x), 1) == Diffuse(Xor(After(rk, x, nr - 1), rk[nr - 1]))
  {
    hide Diffuse, Substitute, Xor;
    var nr, dk, c := |rk| - 1, DecKeys(rk), Cipher(rk, x);
    var s := Xor(After(rk, x, nr - 1), rk[nr - 1]);
    XorBack(Substitute(s, nr % 2 == 1), rk[nr]);
    SubstituteBack(s, nr % 2 == 1);
    assert After(dk, c, 0) == c && dk[0] == rk[nr];
  }

  lemma Parities(nr: nat, j: nat, i: nat)
    requires nr % 2 == 0 && i + j == nr + 1
    ensures (j % 2 == 1) == !(i % 2 == 1)
  {
  }

  /** For every even number of rounds, all round keys and every block, the cipher under the decryption
      keys undoes the cipher. */
  lemma DecryptInverts(rk: seq<Block>, x: Block)
    requires |rk| >= 3 && |rk| % 2 == 1
    ensures Cipher(DecKeys(rk), Cipher(rk, x)) == x
  {
    hide Diffuse, Substitute, Xor;
    var nr, dk := |rk| - 1, DecKeys(rk);
    Backwards(rk, x, nr - 1);
    var e := After(rk, x, 1);
    DiffuseLinear(e, rk[1]);
    XorBack(Diffuse(e), Diffuse(rk[1]));
    var s := Xor(After(rk, x, 0), rk[0]);
    DiffuseTwice(Substitute(s, true));
    SubstituteBack(s, true);
    XorBack(x, rk[0]);
    assert dk[nr - 1] == Diffuse(rk[1]) && dk[nr] == rk[0];
  }

  /** The decryption keys of the decryption keys are the round keys. */
  lemma DecKeysTwice(rk: seq<Block>)
    ensures DecKeys(DecKeys(rk)) == rk
  {
    hide Diffuse;
    forall i | 0 <= i < |rk|
      ensures DecKeys(DecKeys(rk))[i] == rk[i]
    {
      DiffuseTwice(rk[i]);
    }
  }

  /** And the cipher undoes decryption. */
  lemma EncryptInverts(rk: seq<Block>, x: Block)
    requires |rk| >= 3 && |rk| % 2 == 1
    ensures Cipher(rk, Cipher(DecKeys(rk), x)) == x
  {
    hide Cipher;
    DecKeysTwice(rk);
    DecryptInverts(DecKeys(rk), x);
  }

  /** The round keys outside i..j have changed places, and the others have not. */
  ghost predicate Turned(now: seq<Block>, was: seq<Block>, nr: nat, i: int, j: int)
    requires nr < |was|
  {
    && |now| == |was|
    && (forall k | 0 <= k <= nr && i <= k <= j :: now[k] == was[k])
    && (forall k | 0 <= k <= nr && !(i <= k <= j) :: now[k] == was[nr - k])
  }

  lemma TurnedMore(now: seq<Block>, was: seq<Block>, nr: nat, i: nat, j: nat)
    requires nr < |was| && Turned(now, was, nr, i, j) && i < j && i + j == nr
    ensures Turned(now[i := now[j]][j := now[i]], was, nr, i + 1, j - 1)
  {
    var after := now[i := now[j]][j := now[i]];
    assert now[i] == was[i] && now[j] == was[j];
    forall k | 0 <= k <= nr && k != i && k != j
      ensures after[k] == now[k]
    {
    }
  }

  lemma NotTurned(was: seq<Block>, nr: nat)
    requires nr < |was|
    ensures Turned(was, was, nr, 0, nr)
  {
  }

  lemma AllTurned(now: seq<Block>, was: seq<Block>, nr: nat, i: int, j: int)
    requires nr < |was| && Turned(now, was, nr, i, j) && i >= j && i + j == nr
    ensures forall k | 0 <= k <= nr :: now[k] == was[nr - k]
  {
  }

  class Context {
    var nr: nat
    const rk: array<Block>

    ghost predicate Valid()
      reads this
    {
      2 <= nr < rk.Length && nr % 2 == 0
    }

    /** mbedtls_aria_crypt_ecb. */
    method CryptEcb(x: Block) returns (y: Block)
      requires Valid()
      ensures y == Cipher(rk[..nr + 1], x)
    {
      hide Diffuse, Substitute, Xor;
      ghost var keys := rk[..nr + 1];
      y := x;
      var i := 0;
      while true
        invariant i % 2 == 0 && 0 <= i < nr && y == After(keys, x, i)
        decreases nr - i
      {
        y := Xor(y, rk[i]);
        i := i + 1;
        y := AriaA(Substitute(y, true));
        assert y == After(keys, x, i);
        y := Xor(y, rk[i]);
        i := i + 1;
        y := Substitute(y, false);
        if i >= nr {
          break;
        }
        y := AriaA(y);
      }
      // the last round key, with no diffusion before it
      y := Xor(y, rk[i]);
    }

    /** Flips the order of the round keys. */
    method Flip()
      requires Valid()
      modifies rk
      ensures forall k | 0 <= k <= nr :: rk[k] == old(rk[nr - k])
    {
      hide Turned;
      ghost var was := rk[..];
      var i, j := 0, nr;
      NotTurned(was, nr);
      while i < j
        invariant 0 <= i <= nr && j == nr - i && i <= j + 1
        invariant Turned(rk[..], was, nr, i, j)
        decreases j - i + 1
      {
        ghost var before := rk[..];
        rk[i], rk[j] := rk[j], rk[i];
        assert rk[..] == before[i := before[j]][j := before[i]];
        TurnedMore(before, was, nr, i, j);
        i, j := i + 1, j - 1;
      }
      AllTurned(rk[..], was, nr, i, j);
    }

    /** Applies the diffusion to the middle round keys. */
    method DiffuseMiddle()
      requires Valid()
      modifies rk
      ensures forall k | 0 <= k <= nr :: rk[k] == if 0 < k < nr then Diffuse(old(rk[k])) else old(rk[k])
    {
      hide Diffuse;
      for i := 1 to nr
        invariant forall k | 0 < k < i :: rk[k] == Diffuse(old(rk[k]))
        invariant forall k | i <= k <= nr :: rk[k] == old(rk[k])
        invariant rk[0] == old(rk[0])
      {
        rk[i] := AriaA(rk[i]);
      }
    }

    /** mbedtls_aria_setkey_dec, after the round keys for encryption were set up. */
    method SetkeyDec()
      requires Valid()
      modifies rk
      ensures Valid() && rk[..nr + 1] == DecKeys(old(rk[..nr + 1]))
    {
      hide Diffuse;
      ghost var keys := rk[..nr + 1];
      Flip();
      ghost var flipped := rk[..nr + 1];
      assert forall k | 0 <= k <= nr :: flipped[k] == keys[nr - k];
      DiffuseMiddle();
      AreDecKeys(keys, flipped, rk[..nr + 1]);
    }
  }

  lemma AreDecKeys(keys: seq<Block>, flipped: seq<Block>, dk: seq<Block>)
    requires |keys| == |flipped| == |dk| > 0
    requires forall k | 0 <= k < |keys| :: flipped[k] == keys[|keys| - 1 - k]
    requires forall k | 0 <= k < |keys| ::
      dk[k] == if 0 < k < |keys| - 1 then Diffuse(flipped[k]) else flipped[k]
    ensures dk == DecKeys(keys)
  {
    hide Diffuse;
  }
}
