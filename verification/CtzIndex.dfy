/** From a position in a file to a block of its skip list and an offset in that block, lfs_ctz_index. */
module CtzIndex {
  import opened Bits
  import opened Congruence

  const FILE_MAX := 0x7fff_ffff

  /** Block 0 holds data only; block k starts with a pointer for every power of two that divides k. */
  function Pointers(k: nat): nat {
    if k == 0 then 0 else Ctz(k) + 1
  }

  /** How many bytes of the file lie in the blocks before block i. */
  function Before(blockSize: int, i: nat): int {
    if i == 0 then 0 else Before(blockSize, i - 1) + blockSize - 4 * Pointers(i - 1)
  }

  /** Position size lies in block i, at offset off behind the pointers. */
  predicate Locates(blockSize: int, size: int, i: int, off: int) {
    && 0 <= i
    && Before(blockSize, i) <= size < Before(blockSize, i + 1)
    && off == size - Before(blockSize, i) + 4 * Pointers(i)
  }

  /** The pointers up to block i are two for every block but for the ones of i. */
  lemma {:induction false} BeforeClosed(blockSize: int, i: nat)
    ensures Before(blockSize, i) == if i == 0 then 0 else i * (blockSize - 8) + 8 + 4 * Popc(i - 1)
  {
    if i == 1 {
      assert Popc(0) == 0;
    } else if i > 1 {
      BeforeClosed(blockSize, i - 1);
      PopcPred(i - 1);
      OneMore(i - 1, blockSize - 8);
    }
  }

  lemma OneMore(i: int, b: int)
    ensures (i + 1) * b == i * b + b
  {
  }

  function Quotient(x: int, b: int): int
    requires b > 0
  {
    x / b
  }

  lemma QuotientOf(x: int, b: int)
    requires b > 0
    ensures x == Quotient(x, b) * b + x % b && 0 <= x % b < b
  {
  }

  lemma QuotientUnique(x: int, b: int, q: int, r: int)
    requires b > 0 && x == q * b + r && 0 <= r < b
    ensures Quotient(x, b) == q
  {
    DivModUnique(x, b, q, r);
  }

  /** The estimate by popcount, and the offset that goes with it. */
  function Index(blockSize: int, size: int): (r: (int, int))
    requires blockSize >= 20 && size >= 0
    ensures r.0 >= 0
  {
    var b := blockSize - 8;
    QuotientSign(size, b);
    var i := Quotient(size, b);
    if i == 0 then (0, size)
    else
      var j := Quotient(size - 4 * (Popc(i - 1) + 2), b);
      EnoughSize(size, b);
      QuotientSign(size - 4 * (Popc(i - 1) + 2), b);
      (j, size - b * j - 4 * Popc(j))
  }

  lemma QuotientSign(x: int, b: int)
    requires b > 0 && x >= 0
    ensures Quotient(x, b) >= 0
  {
    hide Quotient;
    QuotientOf(x, b);
    if Quotient(x, b) < 0 {
      MulMonotone(Quotient(x, b), -1, b);
    }
  }

  /** The subtraction in the estimate does not wrap around. */
  lemma EnoughSize(size: int, b: int)
    requires b >= 12 && size >= 0 && Quotient(size, b) > 0
    ensures size - 4 * (Popc(Quotient(size, b) - 1) + 2) >= 0
  {
    hide Quotient, Popc;
    var q := Quotient(size, b);
    QuotientOf(size, b);
    AtLeastTwelve(q, b);
    PopcSmall(q - 1);
  }

  lemma AtLeastTwelve(q: int, b: int)
    requires b >= 12 && q >= 0
    ensures q * b >= 12 * q
  {
    MulMonotone(12, b, q);
  }

  lemma {:induction false} PopcSmall(n: nat)
    ensures Popc(n) <= n
  {
    if n > 0 {
      PopcSmall(n / 2);
    }
  }

  /** No block index of a file has more than 24 ones, in blocks of at least 112 bytes. */
  lemma FewOnes(i: nat, b: int)
    requires b >= 104 && i * b <= FILE_MAX
    ensures 8 + 4 * Popc(i) <= b
  {
    hide Popc;
    if Popc(i) >= 25 {
      PopcBound(i);
      Pow2Mono(25, Popc(i));
      Pow2At24();
      MulMonotone(104, b, i);
    }
  }

  lemma Pow2At24()
    ensures Pow2(24) == 0x100_0000 && Pow2(25) == 0x200_0000
  {
    hide Pow2;
    Pow2At6();
    Pow2Add(6, 6);
    Pow2Add(12, 12);
    Pow2Add(24, 1);
  }

  lemma Pow2At6()
    ensures Pow2(6) == 64 && Pow2(1) == 2
  {
    assert Pow2(3) == 8;
  }

  /** In blocks of at least 112 bytes the estimate is right for every position of every file. */
  lemma IndexExact(blockSize: int, size: int)
    requires blockSize >= 112 && 0 <= size < FILE_MAX + 1
    ensures Locates(blockSize, size, Index(blockSize, size).0, Index(blockSize, size).1)
  {
    hide Quotient, Popc, Before, Ctz;
    var b := blockSize - 8;
    QuotientSign(size, b);
    var q := Quotient(size, b);
    QuotientOf(size, b);
    BeforeClosed(blockSize, 0);
    BeforeClosed(blockSize, 1);
    NoOnes();
    if q > 0 {
      var r, c := size % b, 8 + 4 * Popc(q - 1);
      OneMore(q - 1, b);
      OneMore(q, b);
      FewOnes(q - 1, b);
      BeforeClosed(blockSize, q);
      if r >= c {
        QuotientUnique(size - c, b, q, r - c);
        BeforeClosed(blockSize, q + 1);
        OffsetClosed(blockSize, size, q);
      } else {
        QuotientUnique(size - c, b, q - 1, b + r - c);
        EarlierBlock(blockSize, size, q - 1);
      }
    }
  }

  /** No position lies in two blocks. */
  lemma LocatesOnce(blockSize: int, size: int, i: nat, off: int, j: nat, off': int)
    requires blockSize >= 112 && 0 <= size <= FILE_MAX
    requires Locates(blockSize, size, i, off) && Locates(blockSize, size, j, off')
    ensures i == j && off == off'
  {
    hide Before, Popc, Ctz;
    if i < j {
      LaterBlock(blockSize, size, i, j);
    } else if j < i {
      LaterBlock(blockSize, size, j, i);
    }
  }

  lemma LaterBlock(blockSize: int, size: int, i: nat, j: nat)
    requires blockSize >= 112 && size <= FILE_MAX && Before(blockSize, i) <= size && i < j
    ensures Before(blockSize, i + 1) <= Before(blockSize, j)
  {
    hide Before, Popc;
    var b := blockSize - 8;
    BeforeClosed(blockSize, i);
    BeforeClosed(blockSize, i + 1);
    BeforeClosed(blockSize, j);
    if j > i + 1 {
      FewOnes(i, b);
      OneMore(i + 1, b);
      MulMonotone(i + 2, j, b);
    }
  }

  lemma NoOnes()
    ensures Popc(0) == 0
  {
  }

  lemma EarlierBlock(blockSize: int, size: int, i: nat)
    requires blockSize >= 112 && 0 <= size <= FILE_MAX && (i + 1) * (blockSize - 8) <= size
    requires size < Before(blockSize, i + 1)
    ensures Locates(blockSize, size, i, size - (blockSize - 8) * i - 4 * Popc(i))
  {
    hide Popc, Before;
    var b := blockSize - 8;
    NoOnes();
    BeforeClosed(blockSize, i);
    OneMore(i, b);
    OneMore(i - 1, b);
    if i > 0 {
      FewOnes(i - 1, b);
      OffsetClosed(blockSize, size, i);
    }
  }

  lemma OffsetClosed(blockSize: int, size: int, i: nat)
    requires i > 0
    ensures size - (blockSize - 8) * i - 4 * Popc(i) == size - Before(blockSize, i) + 4 * Pointers(i)
  {
    hide Popc, Before, Ctz;
    BeforeClosed(blockSize, i);
    PopcPred(i);
    assert (blockSize - 8) * i == i * (blockSize - 8);
  }

  /** In smaller blocks there is a position whose block the estimate misses. */
  lemma IndexInexact(blockSize: int)
    requires 20 <= blockSize < 112
    ensures
      var size := (Pow2(24) + 1) * (blockSize - 8);
      0 <= size <= FILE_MAX && !Locates(blockSize, size, Index(blockSize, size).0, Index(blockSize, size).1)
  {
    hide Quotient, Popc, Before, Pow2;
    var b := blockSize - 8;
    var q := Pow2(24) + 1;
    var size := q * b;
    Pow2At24();
    QuotientUnique(size, b, q, 0);
    PopcOne(24);
    OneMore(Pow2(24), b);
    QuotientUnique(size - 12, b, Pow2(24), b - 12);
    PopcOnes(24);
    BeforeClosed(blockSize, Pow2(24));
    MulMonotone(12, b, q);
    MulMonotone(b, 103, q);
  }

  lemma {:induction false} PopcOne(n: nat)
    ensures Popc(Pow2(n)) == 1
  {
    if n > 0 {
      PopcOne(n - 1);
      assert Pow2(n) / 2 == Pow2(n - 1) && Pow2(n) % 2 == 0;
    } else {
      NoOnes();
    }
  }

  lemma {:induction false} PopcOnes(n: nat)
    ensures Popc(Pow2(n) - 1) == n
  {
    if n > 0 {
      PopcOnes(n - 1);
      assert (Pow2(n) - 1) / 2 == Pow2(n - 1) - 1 && (Pow2(n) - 1) % 2 == 1;
    }
  }

  /** The estimate is right for all files exactly in blocks of at least 112 bytes. */
  lemma IndexExactness(blockSize: int)
    requires blockSize >= 20
    ensures blockSize >= 112 <==>
      forall size | 0 <= size <= FILE_MAX ::
        Locates(blockSize, size, Index(blockSize, size).0, Index(blockSize, size).1)
  {
    hide Locates, Index, Pow2;
    if blockSize >= 112 {
      forall size | 0 <= size <= FILE_MAX
        ensures Locates(blockSize, size, Index(blockSize, size).0, Index(blockSize, size).1)
      {
        IndexExact(blockSize, size);
      }
    } else {
      IndexInexact(blockSize);
    }
  }

  /** The second block size check of lfs_init: room for as many pointers as a block could need. */
  predicate PointersCheck(blockSize: int) {
    && blockSize > 8
    && var a := Quotient(0xffff_ffff, blockSize - 8);
       a >= 2 && 4 * BitLen(a - 1) <= blockSize
  }

  /** The first check, for at least 128 bytes, implies the second one and makes the estimate right. */
  lemma InitChecks(blockSize: int, size: int)
    requires 128 <= blockSize <= 0x8000_0007 && 0 <= size <= FILE_MAX
    ensures PointersCheck(blockSize)
    ensures Locates(blockSize, size, Index(blockSize, size).0, Index(blockSize, size).1)
  {
    hide BitLen, Index, Locates, Pow2, Quotient;
    IndexExact(blockSize, size);
    var b := blockSize - 8;
    var a := Quotient(0xffff_ffff, b);
    QuotientOf(0xffff_ffff, b);
    if a < 2 {
      MulMonotone(a, 1, b);
    }
    QuotientSign(0xffff_ffff, b);
    MulMonotone(120, b, a);
    Pow2At24();
    Pow2Add(25, 1);
    Pow2At6();
    BitLenBound(a - 1, 26);
  }

  /** The second check alone would accept blocks for which the estimate can be wrong. */
  lemma PointersCheckAlone()
    ensures PointersCheck(104) && !(forall size | 0 <= size <= FILE_MAX ::
      Locates(104, size, Index(104, size).0, Index(104, size).1))
  {
    hide BitLen, Index, Locates, Pow2, Quotient;
    IndexExactness(104);
    Pow2At24();
    Pow2Add(25, 1);
    Pow2At6();
    QuotientUnique(0xffff_ffff, 96, 44739242, 63);
    BitLenBound(44739242 - 1, 26);
  }
}
