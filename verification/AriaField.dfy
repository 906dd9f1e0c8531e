/** What the substitution boxes of ARIA are, section 2.4.2 of RFC 5794: inversion in the field of 256
    elements and an affine map of bits. The tables are used in the proofs only. */
module AriaField {
  import opened AriaSBox

  // ---- the field ----

  /** All ones when the lowest bit is set, otherwise zero. */
  function Spread(b: bv8): bv8 {
    0 - (b & 1)
  }

  /** Field elements are added bit by bit. */
  function Bx(x: bv8, y: bv8): bv8 {
    x ^ y
  }

  /** One term of the product. */
  function Term(a: bv8, b: bv8): bv8 {
    a & Spread(b)
  }

  /** A field element times the polynomial x, modulo x^8 + x^4 + x^3 + x + 1. */
  function TimesX(a: bv8): bv8 {
    (a << 1) ^ (0x1b & Spread(a >> 7))
  }

  /** The product of two field elements: a times each power of x that b has. */
  function Mul(a: bv8, b: bv8): bv8 {
    var a1 := TimesX(a);
    var a2 := TimesX(a1);
    var a3 := TimesX(a2);
    var a4 := TimesX(a3);
    var a5 := TimesX(a4);
    var a6 := TimesX(a5);
    var a7 := TimesX(a6);
    Bx(Bx(Bx(Term(a, b), Term(a1, b >> 1)), Bx(Term(a2, b >> 2), Term(a3, b >> 3))),
        Bx(Bx(Term(a4, b >> 4), Term(a5, b >> 5)), Bx(Term(a6, b >> 6), Term(a7, b >> 7))))
  }

  /** The inverse of a field element; zero counts as its own. */
  predicate Inverse(x: bv8, y: bv8) {
    (x == 0 && y == 0) || Mul(x, y) == 1
  }

  function Square(y: bv8): bv8 {
    Mul(y, y)
  }

  // ---- its laws ----

  /** The solver is to split on the bits of x before anything else. */
  lemma EachBit(x: bv8)
    ensures x & 0x01 == 0 || x & 0x01 == 0x01
    ensures x & 0x02 == 0 || x & 0x02 == 0x02
    ensures x & 0x04 == 0 || x & 0x04 == 0x04
    ensures x & 0x08 == 0 || x & 0x08 == 0x08
    ensures x & 0x10 == 0 || x & 0x10 == 0x10
    ensures x & 0x20 == 0 || x & 0x20 == 0x20
    ensures x & 0x40 == 0 || x & 0x40 == 0x40
    ensures x & 0x80 == 0 || x & 0x80 == 0x80
  {
  }

  lemma BxComm(a: bv8, b: bv8)
    ensures Bx(a, b) == Bx(b, a)
  {
  }

  lemma BxAssoc(a: bv8, b: bv8, c: bv8)
    ensures Bx(Bx(a, b), c) == Bx(a, Bx(b, c))
  {
  }

  lemma BxSwap(a: bv8, b: bv8, c: bv8, d: bv8)
    ensures Bx(Bx(a, b), Bx(c, d)) == Bx(Bx(a, c), Bx(b, d))
  {
    hide Bx;
    BxAssoc(Bx(a, b), c, d);
    BxAssoc(a, b, c);
    BxComm(b, c);
    BxAssoc(a, c, b);
    BxAssoc(Bx(a, c), b, d);
  }

  lemma BxZero(a: bv8)
    ensures Bx(a, 0) == a && Bx(0, a) == a && Bx(a, a) == 0
  {
  }

  lemma BxBack(a: bv8, b: bv8)
    ensures Bx(Bx(a, b), b) == a
  {
    hide Bx;
    BxAssoc(a, b, b);
    BxZero(a);
    BxZero(b);
  }

  lemma ShiftSum(y: bv8, z: bv8)
    ensures Bx(y, z) >> 1 == Bx(y >> 1, z >> 1) && Bx(y, z) >> 2 == Bx(y >> 2, z >> 2)
    ensures Bx(y, z) >> 3 == Bx(y >> 3, z >> 3) && Bx(y, z) >> 4 == Bx(y >> 4, z >> 4)
    ensures Bx(y, z) >> 5 == Bx(y >> 5, z >> 5) && Bx(y, z) >> 6 == Bx(y >> 6, z >> 6)
    ensures Bx(y, z) >> 7 == Bx(y >> 7, z >> 7)
  {
  }

  lemma TermSum(a: bv8, y: bv8, z: bv8)
    ensures Term(a, Bx(y, z)) == Bx(Term(a, y), Term(a, z))
  {
  }

  lemma TimesXSum(a: bv8, b: bv8)
    ensures TimesX(Bx(a, b)) == Bx(TimesX(a), TimesX(b))
  {
  }

  /** The product distributes over sums. */
  lemma MulSum(a: bv8, y: bv8, z: bv8)
    ensures Mul(a, Bx(y, z)) == Bx(Mul(a, y), Mul(a, z))
  {
    hide TimesX, Term, Bx;
    var a1 := TimesX(a);
    var a2 := TimesX(a1);
    var a3 := TimesX(a2);
    var a4 := TimesX(a3);
    var a5 := TimesX(a4);
    var a6 := TimesX(a5);
    var a7 := TimesX(a6);
    ShiftSum(y, z);
    TermSum(a, y, z);
    TermSum(a1, y >> 1, z >> 1);
    TermSum(a2, y >> 2, z >> 2);
    TermSum(a3, y >> 3, z >> 3);
    TermSum(a4, y >> 4, z >> 4);
    TermSum(a5, y >> 5, z >> 5);
    TermSum(a6, y >> 6, z >> 6);
    TermSum(a7, y >> 7, z >> 7);
    FourSums(Term(a, y), Term(a1, y >> 1), Term(a2, y >> 2), Term(a3, y >> 3),
             Term(a, z), Term(a1, z >> 1), Term(a2, z >> 2), Term(a3, z >> 3));
    FourSums(Term(a4, y >> 4), Term(a5, y >> 5), Term(a6, y >> 6), Term(a7, y >> 7),
             Term(a4, z >> 4), Term(a5, z >> 5), Term(a6, z >> 6), Term(a7, z >> 7));
    BxSwap(Bx(Bx(Term(a, y), Term(a1, y >> 1)), Bx(Term(a2, y >> 2), Term(a3, y >> 3))),
            Bx(Bx(Term(a, z), Term(a1, z >> 1)), Bx(Term(a2, z >> 2), Term(a3, z >> 3))),
            Bx(Bx(Term(a4, y >> 4), Term(a5, y >> 5)), Bx(Term(a6, y >> 6), Term(a7, y >> 7))),
            Bx(Bx(Term(a4, z >> 4), Term(a5, z >> 5)), Bx(Term(a6, z >> 6), Term(a7, z >> 7))));
  }

  lemma FourSums(a: bv8, b: bv8, c: bv8, d: bv8, a': bv8, b': bv8, c': bv8, d': bv8)
    ensures Bx(Bx(Bx(a, a'), Bx(b, b')), Bx(Bx(c, c'), Bx(d, d')))
         == Bx(Bx(Bx(a, b), Bx(c, d)), Bx(Bx(a', b'), Bx(c', d')))
  {
    hide Bx;
    BxSwap(a, a', b, b');
    BxSwap(c, c', d, d');
    BxSwap(Bx(a, b), Bx(a', b'), Bx(c, d), Bx(c', d'));
  }

  /** The powers of x that a field element consists of. */
  lemma Parts(c: bv8)
    ensures c == Bx(Bx(Bx(c & 0x01, c & 0x02), Bx(c & 0x04, c & 0x08)),
                     Bx(Bx(c & 0x10, c & 0x20), Bx(c & 0x40, c & 0x80)))
  {
  }

  lemma TermZero(a: bv8)
    ensures Term(a, 0) == 0 && Term(a, 1) == a && Term(a, 2) == Term(a, 4) == Term(a, 8) == Term(a, 0x10) == 0
    ensures Term(a, 0x20) == Term(a, 0x40) == Term(a, 0x80) == 0
  {
    SpreadOf();
  }

  lemma SpreadOf()
    ensures Spread(0) == 0 && Spread(1) == 0xff && Spread(2) == Spread(4) == Spread(8) == Spread(0x10) == 0
    ensures Spread(0x20) == Spread(0x40) == Spread(0x80) == 0
  {
  }

  /** The product with a single power of x, or with zero. */
  lemma MulPowers(a: bv8)
    ensures Mul(a, 0) == 0 && Mul(a, 0x01) == a && Mul(a, 0x02) == TimesX(a)
    ensures Mul(a, 0x04) == TimesX(Mul(a, 0x02)) && Mul(a, 0x08) == TimesX(Mul(a, 0x04))
    ensures Mul(a, 0x10) == TimesX(Mul(a, 0x08)) && Mul(a, 0x20) == TimesX(Mul(a, 0x10))
    ensures Mul(a, 0x40) == TimesX(Mul(a, 0x20)) && Mul(a, 0x80) == TimesX(Mul(a, 0x40))
  {
    hide TimesX, Term;
    var a1 := TimesX(a);
    var a2 := TimesX(a1);
    var a3 := TimesX(a2);
    var a4 := TimesX(a3);
    var a5 := TimesX(a4);
    var a6 := TimesX(a5);
    TermZero(a);
    TermZero(a1);
    TermZero(a2);
    TermZero(a3);
    TermZero(a4);
    TermZero(a5);
    TermZero(a6);
    TermZero(TimesX(a6));
  }

  /** The eighth power of x is the rest of the modulus. */
  lemma MulModulus(a: bv8)
    ensures Mul(a, 0x1b) == TimesX(Mul(a, 0x80))
  {
    EachBit(a);
  }

  lemma MulOne(a: bv8)
    ensures Mul(1, a) == a
  {
    EachBit(a);
  }

  /** Multiplying b by x comes out of the product. */
  predicate Commutes(a: bv8, b: bv8) {
    Mul(a, TimesX(b)) == TimesX(Mul(a, b))
  }

  lemma CommutesSum(a: bv8, b: bv8, c: bv8)
    requires Commutes(a, b) && Commutes(a, c)
    ensures Commutes(a, Bx(b, c))
  {
    hide Mul, TimesX, Bx;
    TimesXSum(b, c);
    MulSum(a, TimesX(b), TimesX(c));
    MulSum(a, b, c);
    TimesXSum(Mul(a, b), Mul(a, c));
  }

  lemma PowersTimesX()
    ensures TimesX(0) == 0 && TimesX(0x01) == 0x02 && TimesX(0x02) == 0x04 && TimesX(0x04) == 0x08
    ensures TimesX(0x08) == 0x10 && TimesX(0x10) == 0x20 && TimesX(0x20) == 0x40 && TimesX(0x40) == 0x80
    ensures TimesX(0x80) == 0x1b
  {
  }

  lemma CommutesPowers(a: bv8)
    ensures Commutes(a, 0) && Commutes(a, 0x01) && Commutes(a, 0x02) && Commutes(a, 0x04) && Commutes(a, 0x08)
    ensures Commutes(a, 0x10) && Commutes(a, 0x20) && Commutes(a, 0x40) && Commutes(a, 0x80)
  {
    hide Mul, TimesX;
    PowersTimesX();
    MulPowers(a);
    MulModulus(a);
  }

  lemma MulTimesX(a: bv8, b: bv8)
    ensures Commutes(a, b)
  {
    hide Commutes, Bx;
    CommutesPowers(a);
    EachBit(b);
    Parts(b);
    CommutesSum(a, b & 0x01, b & 0x02);
    CommutesSum(a, b & 0x04, b & 0x08);
    CommutesSum(a, b & 0x10, b & 0x20);
    CommutesSum(a, b & 0x40, b & 0x80);
    CommutesSum(a, Bx(b & 0x01, b & 0x02), Bx(b & 0x04, b & 0x08));
    CommutesSum(a, Bx(b & 0x10, b & 0x20), Bx(b & 0x40, b & 0x80));
    CommutesSum(a, Bx(Bx(b & 0x01, b & 0x02), Bx(b & 0x04, b & 0x08)),
                Bx(Bx(b & 0x10, b & 0x20), Bx(b & 0x40, b & 0x80)));
  }

  predicate Associates(a: bv8, b: bv8, c: bv8) {
    Mul(Mul(a, b), c) == Mul(a, Mul(b, c))
  }

  lemma AssociatesSum(a: bv8, b: bv8, c: bv8, d: bv8)
    requires Associates(a, b, c) && Associates(a, b, d)
    ensures Associates(a, b, Bx(c, d))
  {
    hide Mul, Bx;
    MulSum(Mul(a, b), c, d);
    MulSum(b, c, d);
    MulSum(a, Mul(b, c), Mul(b, d));
  }

  lemma AssociatesPowers(a: bv8, b: bv8)
    ensures Associates(a, b, 0) && Associates(a, b, 0x01) && Associates(a, b, 0x02) && Associates(a, b, 0x04)
    ensures Associates(a, b, 0x08) && Associates(a, b, 0x10) && Associates(a, b, 0x20) && Associates(a, b, 0x40)
    ensures Associates(a, b, 0x80)
  {
    hide Mul, TimesX;
    MulPowers(a);
    MulPowers(b);
    MulPowers(Mul(a, b));
    MulTimesX(a, b);
    MulTimesX(a, Mul(b, 0x02));
    MulTimesX(a, Mul(b, 0x04));
    MulTimesX(a, Mul(b, 0x08));
    MulTimesX(a, Mul(b, 0x10));
    MulTimesX(a, Mul(b, 0x20));
    MulTimesX(a, Mul(b, 0x40));
  }

  /** The product is associative. */
  lemma MulAssoc(a: bv8, b: bv8, c: bv8)
    ensures Associates(a, b, c)
  {
    hide Associates, Bx;
    AssociatesPowers(a, b);
    EachBit(c);
    Parts(c);
    AssociatesSum(a, b, c & 0x01, c & 0x02);
    AssociatesSum(a, b, c & 0x04, c & 0x08);
    AssociatesSum(a, b, c & 0x10, c & 0x20);
    AssociatesSum(a, b, c & 0x40, c & 0x80);
    AssociatesSum(a, b, Bx(c & 0x01, c & 0x02), Bx(c & 0x04, c & 0x08));
    AssociatesSum(a, b, Bx(c & 0x10, c & 0x20), Bx(c & 0x40, c & 0x80));
    AssociatesSum(a, b, Bx(Bx(c & 0x01, c & 0x02), Bx(c & 0x04, c & 0x08)),
                  Bx(Bx(c & 0x10, c & 0x20), Bx(c & 0x40, c & 0x80)));
  }

  // ---- the boxes ----

  /** The affine map of the first box: the bits added up under five rotations, and a constant. */
  function FirstMap(y: bv8): bv8 {
    y ^ (y << 1) ^ (y >> 7) ^ (y << 2) ^ (y >> 6) ^ (y << 3) ^ (y >> 5) ^ (y << 4) ^ (y >> 4) ^ 0x63
  }

  /** That of the second box, by the images of the bits. */
  function SecondMap(y: bv8): bv8 {
    (0xac & Spread(y)) ^ (0xc5 & Spread(y >> 1)) ^ (0x12 & Spread(y >> 2)) ^ (0xcf & Spread(y >> 3))
    ^ (0x5b & Spread(y >> 4)) ^ (0x5f & Spread(y >> 5)) ^ (0x85 & Spread(y >> 6)) ^ (0xee & Spread(y >> 7)) ^ 0xe2
  }

  /** The first box takes x to s: the affine map of the inverse. */
  ghost predicate FirstBoxOf(x: bv8, s: bv8) {
    exists y :: Inverse(x, y) && s == FirstMap(y)
  }

  /** The second box takes x to s: its affine map of the eighth power of the inverse, which is x to the
      power 247. */
  ghost predicate SecondBoxOf(x: bv8, s: bv8) {
    exists y :: Inverse(x, y) && s == SecondMap(Square(Square(Square(y))))
  }

  // ---- the tables of the first box ----

  /** FirstMap undone. */
  function FirstBack(s: bv8): bv8 {
    (0x4a & Spread(s)) ^ (0x94 & Spread(s >> 1)) ^ (0x29 & Spread(s >> 2)) ^ (0x52 & Spread(s >> 3))
    ^ (0xa4 & Spread(s >> 4)) ^ (0x49 & Spread(s >> 5)) ^ (0x92 & Spread(s >> 6)) ^ (0x25 & Spread(s >> 7)) ^ 0x05
  }

  lemma FirstBackMap(y: bv8)
    ensures FirstBack(FirstMap(y)) == y && FirstMap(FirstBack(y)) == y
  {
  }

  lemma FirstQuarter(x: bv8)
    requires x < 0x40
    ensures x != 0 ==> Mul(x, FirstBack(Sb1(x))) == 1
  {
    // bit by bit
    if x & 0x01 != 0 {} if x & 0x02 != 0 {} if x & 0x04 != 0 {}
    if x & 0x08 != 0 {} if x & 0x10 != 0 {} if x & 0x20 != 0 {}
  }

  lemma SecondQuarter(x: bv8)
    requires 0x40 <= x < 0x80
    ensures x != 0 ==> Mul(x, FirstBack(Sb1(x))) == 1
  {
    // bit by bit
    if x & 0x01 != 0 {} if x & 0x02 != 0 {} if x & 0x04 != 0 {}
    if x & 0x08 != 0 {} if x & 0x10 != 0 {} if x & 0x20 != 0 {}
  }

  lemma ThirdQuarter(x: bv8)
    requires 0x80 <= x < 0xc0
    ensures x != 0 ==> Mul(x, FirstBack(Sb1(x))) == 1
  {
    // bit by bit
    if x & 0x01 != 0 {} if x & 0x02 != 0 {} if x & 0x04 != 0 {}
    if x & 0x08 != 0 {} if x & 0x10 != 0 {} if x & 0x20 != 0 {}
  }

  lemma FourthQuarter(x: bv8)
    requires 0xc0 <= x
    ensures x != 0 ==> Mul(x, FirstBack(Sb1(x))) == 1
  {
    // bit by bit
    if x & 0x01 != 0 {} if x & 0x02 != 0 {} if x & 0x04 != 0 {}
    if x & 0x08 != 0 {} if x & 0x10 != 0 {} if x & 0x20 != 0 {}
  }

  lemma InverseFound(x: bv8)
    ensures x != 0 ==> Mul(x, FirstBack(Sb1(x))) == 1
    ensures FirstBack(Sb1(0)) == 0
  {
    hide Sb1, FirstBack, Mul;
    NothingForZero();
    if x < 0x40 {
      FirstQuarter(x);
    } else if x < 0x80 {
      SecondQuarter(x);
    } else if x < 0xc0 {
      ThirdQuarter(x);
    } else {
      FourthQuarter(x);
    }
  }

  /** The inverse table finds the same one the other way round. */
  lemma OtherWay(x: bv8)
    ensures Is1(FirstMap(x)) == FirstBack(Sb1(x))
  {
    // bit by bit
    if x & 0x01 != 0 {} if x & 0x02 != 0 {} if x & 0x04 != 0 {} if x & 0x08 != 0 {}
    if x & 0x10 != 0 {} if x & 0x20 != 0 {} if x & 0x40 != 0 {} if x & 0x80 != 0 {}
  }

  lemma Involution(x: bv8)
    ensures FirstBack(Sb1(FirstBack(Sb1(x)))) == x
  {
    hide Sb1, Is1, FirstMap, FirstBack;
    OtherWay(x);
    FirstBoxBack(FirstMap(x));
    FirstBackMap(x);
  }

  lemma NothingForZero()
    ensures FirstBack(Sb1(0)) == 0
  {
  }

  /** Every field element has exactly one inverse. */
  lemma InverseUnique(x: bv8, y: bv8)
    ensures Inverse(x, y) <==> y == FirstBack(Sb1(x))
  {
    hide Sb1, FirstBack, Mul;
    InverseFound(x);
    NothingInvertsZero(y);
    if Mul(x, y) == 1 {
      Involution(x);
      InverseFound(FirstBack(Sb1(x)));
      MulAssoc(FirstBack(Sb1(x)), x, y);
      MulPowers(FirstBack(Sb1(x)));
      MulOne(y);
    }
  }

  lemma NothingInvertsZero(y: bv8)
    ensures Mul(0, y) == 0
  {
  }

  /** The first table is the first box. */
  lemma FirstBoxMeans(x: bv8, s: bv8)
    ensures FirstBoxOf(x, s) <==> s == Sb1(x)
  {
    hide Sb1, FirstMap, FirstBack, Inverse;
    FirstBackMap(Sb1(x));
    InverseUnique(x, FirstBack(Sb1(x)));
    if FirstBoxOf(x, s) {
      var y :| Inverse(x, y) && s == FirstMap(y);
      InverseUnique(x, y);
    }
  }

  /** The table of its inverse is the first box the other way. */
  lemma FirstBoxUndone(x: bv8, s: bv8)
    ensures FirstBoxOf(x, s) <==> x == Is1(s)
  {
    hide Sb1, Is1, FirstBoxOf;
    FirstBoxMeans(x, s);
    FirstBox(x);
    FirstBoxBack(s);
  }

  // ---- the tables of the second box ----

  /** Squaring is linear. */
  function SquareMap(y: bv8): bv8 {
    (0x01 & Spread(y)) ^ (0x04 & Spread(y >> 1)) ^ (0x10 & Spread(y >> 2)) ^ (0x40 & Spread(y >> 3))
    ^ (0x1b & Spread(y >> 4)) ^ (0x6c & Spread(y >> 5)) ^ (0xab & Spread(y >> 6)) ^ (0x9a & Spread(y >> 7))
  }

  lemma Squared(y: bv8)
    ensures Square(y) == SquareMap(y)
  {
    EachBit(y);
  }

  /** The eighth power and SecondMap undone. */
  function SecondBack(s: bv8): bv8 {
    (0xd8 & Spread(s)) ^ (0x38 & Spread(s >> 1)) ^ (0x7a & Spread(s >> 2)) ^ (0xc1 & Spread(s >> 3))
    ^ (0x75 & Spread(s >> 4)) ^ (0x52 & Spread(s >> 5)) ^ (0xae & Spread(s >> 6)) ^ (0xe8 & Spread(s >> 7)) ^ 0x2c
  }

  /** It finds the same inverse behind the second table as FirstBack does behind the first. */
  lemma SecondFound(x: bv8)
    ensures SecondBack(Sb2(x)) == FirstBack(Sb1(x))
  {
    // bit by bit
    if x & 0x01 != 0 {} if x & 0x02 != 0 {} if x & 0x04 != 0 {} if x & 0x08 != 0 {}
    if x & 0x10 != 0 {} if x & 0x20 != 0 {} if x & 0x40 != 0 {} if x & 0x80 != 0 {}
  }

  lemma SecondBackMap(s: bv8)
    ensures SecondMap(SquareMap(SquareMap(SquareMap(SecondBack(s))))) == s
  {
    // bit by bit
    if s & 0x01 != 0 {} if s & 0x02 != 0 {} if s & 0x04 != 0 {} if s & 0x08 != 0 {}
    if s & 0x10 != 0 {} if s & 0x20 != 0 {} if s & 0x40 != 0 {} if s & 0x80 != 0 {}
  }

  /** The second table is the second box. */
  lemma SecondBoxMeans(x: bv8, s: bv8)
    ensures SecondBoxOf(x, s) <==> s == Sb2(x)
  {
    hide Sb1, Sb2, FirstBack, SecondMap, SecondBack, Mul, Square, SquareMap;
    var y := SecondBack(Sb2(x));
    SecondFound(x);
    SecondBackMap(Sb2(x));
    Squared(y);
    Squared(SquareMap(y));
    Squared(SquareMap(SquareMap(y)));
    InverseUnique(x, y);
    if SecondBoxOf(x, s) {
      var z :| Inverse(x, z) && s == SecondMap(Square(Square(Square(z))));
      InverseUnique(x, z);
    }
  }

  lemma SecondBoxUndone(x: bv8, s: bv8)
    ensures SecondBoxOf(x, s) <==> x == Is2(s)
  {
    hide Sb2, Is2, SecondBoxOf;
    SecondBoxMeans(x, s);
    SecondBox(x);
    SecondBoxBack(s);
  }
}
