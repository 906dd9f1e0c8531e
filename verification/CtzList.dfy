/** The skip list of a file, byte by byte in the blocks of the device: lfs_ctz_find, lfs_ctz_extend and
    lfs_ctz_traverse. */
module CtzList {
  import opened Bits
  import opened Congruence
  import opened CtzIndex
  import opened LfsBase

  /** The pointer stored at place k of a block, four bytes little-endian. */
  function PtrAt(b: seq<Byte>, k: nat): int
    requires 4 * k + 4 <= |b|
  {
    (b[4 * k] as int) + 0x100 * (b[4 * k + 1] as int) + 0x1_0000 * (b[4 * k + 2] as int)
    + 0x100_0000 * (b[4 * k + 3] as int)
  }

  function PtrBytes(p: int): (b: seq<Byte>)
    requires 0 <= p < 0x1_0000_0000
    ensures |b| == 4
  {
    [p % 0x100, p / 0x100 % 0x100, p / 0x1_0000 % 0x100, p / 0x100_0000]
  }

  lemma PtrRoundTrip(p: int)
    requires 0 <= p < 0x1_0000_0000
    ensures PtrAt(PtrBytes(p), 0) == p
  {
    assert p / 0x1_0000 == p / 0x100 / 0x100 && p / 0x100_0000 == p / 0x1_0000 / 0x100;
  }

  /** The lowest byte comes first. */
  lemma PtrDigits(b: seq<Byte>, k: nat)
    requires 4 * k + 4 <= |b|
    ensures PtrBytes(PtrAt(b, k)) == b[4 * k..4 * k + 4]
  {
    Digits(b[4 * k], b[4 * k + 1], b[4 * k + 2], b[4 * k + 3]);
  }

  lemma Digits(b0: Byte, b1: Byte, b2: Byte, b3: Byte)
    ensures
      var p := b0 as int + 0x100 * b1 as int + 0x1_0000 * b2 as int + 0x100_0000 * b3 as int;
      && 0 <= p < 0x1_0000_0000
      && p % 0x100 == b0 && p / 0x100 % 0x100 == b1 && p / 0x1_0000 % 0x100 == b2 && p / 0x100_0000 == b3
  {
    var p := b0 as int + 0x100 * b1 as int + 0x1_0000 * b2 as int + 0x100_0000 * b3 as int;
    assert p / 0x100 == b1 as int + 0x100 * b2 as int + 0x1_0000 * b3 as int;
    assert p / 0x1_0000 == b2 as int + 0x100 * b3 as int;
  }

  /** The pointers of block i of the list: pointer j leads back by the j-th power of two. */
  ghost predicate PointersOk(block: seq<Byte>, list: seq<int>, i: nat)
    requires i < |list|
  {
    && 4 * Pointers(i) <= |block|
    && forall j | 0 <= j < Pointers(i) :: 0 <= i - Pow2(j) && PtrAt(block, j) == list[i - Pow2(j)]
  }

  /** The blocks of a file, from its first to its last. */
  ghost predicate IsList(blocks: Blocks, blockSize: int, list: seq<int>) {
    forall i | 0 <= i < |list| ::
      && list[i] in blocks && 0 <= list[i] < 0x1_0000_0000
      && |blocks[list[i]]| == blockSize && PointersOk(blocks[list[i]], list, i)
  }

  /** How many blocks a file of that size has. */
  function BlocksOf(blockSize: int, size: int): (n: int)
    requires blockSize >= 112 && 0 <= size <= FILE_MAX + 1
    ensures n >= 0 && (n == 0 <==> size == 0)
  {
    if size == 0 then 0 else Index(blockSize, size - 1).0 + 1
  }

  /** The list is long enough for a file of that size. */
  predicate Covers(blockSize: int, list: seq<int>, size: int)
    requires blockSize >= 112
  {
    0 <= size <= FILE_MAX + 1 && BlocksOf(blockSize, size) <= |list|
  }

  // ---- find ----

  /** The rest of the way is all halving: the position is divisible by the step to come. */
  predicate Halving(current: nat, distance: nat) {
    distance == 0 || DivBy(current, BitLen(distance) - 1)
  }

  /** How many hops are left at most. */
  function Rank(current: nat, target: nat): nat
    requires target <= current
  {
    if Halving(current, current - target) then BitLen(current - target)
    else Popc(current) + BitLen(current - target)
  }

  lemma RankBound(current: nat, target: nat)
    requires target <= current
    ensures Rank(current, target) <= Popc(current) + BitLen(current - target)
    ensures Popc(current) <= BitLen(current)
  {
    PopcBitLen(current);
  }

  /** A hop neither overshoots nor leaves the number of hops to come as it was. */
  lemma Hop(current: nat, target: nat, skip: nat)
    requires target < current && skip == Min(BitLen(current - target) - 1, Ctz(current))
    ensures target <= current - Pow2(skip) && skip < Pointers(current)
    ensures Rank(current - Pow2(skip), target) < Rank(current, target)
  {
    hide BitLen, Ctz, DivBy, Pow2, Popc;
    var d := current - target;
    SomeBits(d);
    BitLenBound(d, BitLen(d) - 1);
    Pow2Mono(skip, BitLen(d) - 1);
    var less := d - Pow2(skip);
    BitLenMono(less, d);
    CtzDivBy(current, BitLen(d) - 1);
    CtzDivBy(current, skip);
    DivByMinus(current, skip);
    ClearLowest(current);
    if skip == BitLen(d) - 1 {
      BitLenBound(d, BitLen(d));
      Doubled(BitLen(d));
      BitLenBound(less, skip);
      if less > 0 {
        SomeBits(less);
        DivByLess(current - Pow2(skip), skip, BitLen(less) - 1);
      } else {
        NoBits();
      }
    }
  }

  lemma SomeBits(n: nat)
    requires n > 0
    ensures BitLen(n) >= 1
  {
  }

  lemma NoBits()
    ensures BitLen(0) == 0
  {
  }

  lemma Doubled(n: nat)
    requires n > 0
    ensures Pow2(n) == 2 * Pow2(n - 1)
  {
  }

  // ---- positions ----

  lemma PositionFacts(blockSize: int, pos: int)
    requires blockSize >= 112 && 0 <= pos <= FILE_MAX
    ensures
      var (i, off) := Index(blockSize, pos);
      Locates(blockSize, pos, i, off) && 0 <= i && 4 * Pointers(i) <= off < blockSize
  {
    hide Index, Ctz, Pointers;
    IndexExact(blockSize, pos);
  }

  lemma IndexMono(blockSize: int, p: int, q: int)
    requires blockSize >= 112 && 0 <= p <= q <= FILE_MAX
    ensures 0 <= Index(blockSize, p).0 <= Index(blockSize, q).0
  {
    hide Index, Before, Pointers;
    IndexExact(blockSize, p);
    IndexExact(blockSize, q);
    if Index(blockSize, p).0 > Index(blockSize, q).0 {
      LaterBlock(blockSize, q, Index(blockSize, q).0, Index(blockSize, p).0);
    }
  }

  /** Every block of a file has room for more than its pointers. */
  lemma PointersFit(blockSize: int, i: nat)
    requires blockSize >= 112 && Before(blockSize, i) <= FILE_MAX
    ensures 4 * Pointers(i) < blockSize && i < 0x200_0000
  {
    hide Before, Popc, Ctz, Pow2;
    BeforeClosed(blockSize, i);
    if i > 0 {
      Pow2At24();
      if i >= 0x200_0000 {
        MulMonotone(0x200_0000, i, 104);
        MulMonotone(104, blockSize - 8, i);
      }
      CtzDivBy(i, Ctz(i));
      DivByMinus(i, Ctz(i));
      if Ctz(i) >= 25 {
        Pow2Mono(25, Ctz(i));
      }
    }
  }

  /** The position behind the last byte: further on in its block, or at the data of the next one. */
  lemma NextPosition(blockSize: int, size: int)
    requires blockSize >= 112 && 0 < size <= FILE_MAX
    ensures
      var (i, off) := Index(blockSize, size - 1);
      Index(blockSize, size) == if off + 1 < blockSize then (i, off + 1) else (i + 1, 4 * Pointers(i + 1))
  {
    hide Index, Pointers, Popc;
    PositionFacts(blockSize, size - 1);
    PositionFacts(blockSize, size);
    var (i, off) := Index(blockSize, size - 1);
    var (j, off') := Index(blockSize, size);
    if off + 1 < blockSize {
      LocatesOnce(blockSize, size, i, off + 1, j, off');
    } else {
      PointersFit(blockSize, i + 1);
      LocatesOnce(blockSize, size, i + 1, 4 * Pointers(i + 1), j, off');
    }
  }

  lemma FirstPosition(blockSize: int)
    requires blockSize >= 112
    ensures Index(blockSize, 0) == (0, 0)
  {
    hide Quotient, Popc;
    QuotientUnique(0, blockSize - 8, 0, 0);
  }

  /** A file on disk: a list that its size does not exceed. */
  ghost predicate IsFile(blocks: Blocks, blockSize: int, list: seq<int>, size: int) {
    blockSize >= 112 && IsList(blocks, blockSize, list) && Covers(blockSize, list, size)
  }

  lemma InFile(blocks: Blocks, blockSize: int, list: seq<int>, size: int, pos: int)
    requires IsFile(blocks, blockSize, list, size) && 0 <= pos < size
    ensures
      var (i, off) := Index(blockSize, pos);
      0 <= i < |list| && list[i] in blocks && 0 <= off < |blocks[list[i]]|
  {
    hide Index, PointersOk;
    IndexMono(blockSize, pos, size - 1);
    PositionFacts(blockSize, pos);
  }

  /** The head of a file of that size in its list. */
  function Head(blockSize: int, list: seq<int>, size: int): int
    requires blockSize >= 112 && Covers(blockSize, list, size) && size > 0
  {
    list[BlocksOf(blockSize, size) - 1]
  }

  /** The byte of the file at a position. */
  ghost function ByteAt(blocks: Blocks, blockSize: int, list: seq<int>, size: int, pos: int): Byte
    requires IsFile(blocks, blockSize, list, size) && 0 <= pos < size
  {
    InFile(blocks, blockSize, list, size, pos);
    var (i, off) := Index(blockSize, pos);
    blocks[list[i]][off]
  }

  ghost function Content(blocks: Blocks, blockSize: int, list: seq<int>, size: int): (s: seq<Byte>)
    requires IsFile(blocks, blockSize, list, size)
    ensures |s| == size
  {
    seq(size, pos requires 0 <= pos < size => ByteAt(blocks, blockSize, list, size, pos))
  }

  /** A pointer read from a block of the list. */
  lemma ReadPointer(blocks: Blocks, blockSize: int, list: seq<int>, i: nat, j: nat)
    requires IsList(blocks, blockSize, list) && i < |list| && j < Pointers(i)
    ensures list[i] in blocks && 4 * j + 4 <= |blocks[list[i]]|
    ensures 0 <= i - Pow2(j) && PtrAt(blocks[list[i]], j) == list[i - Pow2(j)]
  {
    hide PtrAt, Pointers, Pow2;
    assert PointersOk(blocks[list[i]], list, i);
  }

  /** How many blocks lie between a position and the last block. */
  function Distance(blockSize: int, size: int, pos: int): nat
    requires blockSize >= 112 && 0 <= pos < size <= FILE_MAX + 1
  {
    IndexMono(blockSize, pos, size - 1);
    Index(blockSize, size - 1).0 - Index(blockSize, pos).0
  }

  /** The block and the offset of a position. */
  predicate Reaches(blockSize: int, list: seq<int>, pos: int, block: int, off: int)
    requires blockSize >= 112 && pos >= 0
  {
    var (i, o) := Index(blockSize, pos);
    i < |list| && block == list[i] && off == o
  }

  /** lfs_ctz_find: reaches exactly the block of the position, in few hops. */
  method Find(blocks: Blocks, blockSize: int, ghost list: seq<int>, head: int, size: int, pos: int)
    returns (block: int, off: int, ghost hops: nat)
    requires IsFile(blocks, blockSize, list, size)
    requires size > 0 ==> head == Head(blockSize, list, size) && 0 <= pos < size
    ensures size == 0 ==> block == NULL_BLOCK && off == 0 && hops == 0
    ensures size > 0 ==> Reaches(blockSize, list, pos, block, off)
    ensures size > 0 ==>
      var last, distance := Index(blockSize, size - 1).0, Distance(blockSize, size, pos);
      hops <= Popc(last) + BitLen(distance) <= BitLen(last) + BitLen(distance)
  {
    hide Index, IsList, Pointers, PtrAt, Rank, BitLen, Ctz, Pow2, Popc;
    hops := 0;
    if size == 0 {
      return NULL_BLOCK, 0, hops;
    }
    var current, target := Index(blockSize, size - 1).0, Index(blockSize, pos).0;
    IndexMono(blockSize, pos, size - 1);
    LastIndex(blockSize, size);
    RankBound(current, target);
    block := head;
    ghost var first := Rank(current, target);
    while current > target
      invariant target <= current < |list| && block == list[current] && current < 0x200_0000
      invariant hops + Rank(current, target) <= first
      decreases current
    {
      var bits := Npw2(current - target + 1);
      var skip := Min(bits - 1, Ctz(current));
      Hop(current, target, skip);
      ReadPointer(blocks, blockSize, list, current, skip);
      block := PtrAt(blocks[block], skip);
      current := current - Pow2(skip);
      hops := hops + 1;
    }
    off := Index(blockSize, pos).1;
  }

  lemma LastIndex(blockSize: int, size: int)
    requires blockSize >= 112 && 0 < size <= FILE_MAX + 1
    ensures Index(blockSize, size - 1).0 < 0x200_0000
  {
    hide Index, Before, Pointers;
    PositionFacts(blockSize, size - 1);
    PointersFit(blockSize, Index(blockSize, size - 1).0);
  }

  /** lfs_ctz_traverse: calls back once for every block of the file, from the last to the first. */
  method Traverse(blocks: Blocks, blockSize: int, ghost list: seq<int>, head: int, size: int)
      returns (visited: seq<int>)
    requires IsFile(blocks, blockSize, list, size)
    requires size > 0 ==> head == Head(blockSize, list, size)
    ensures |visited| == BlocksOf(blockSize, size)
    ensures forall k | 0 <= k < |visited| :: visited[k] == list[|visited| - 1 - k]
  {
    hide Index, IsList, PtrAt, Pow2;
    visited := [];
    if size == 0 {
      return;
    }
    var index, block := Index(blockSize, size - 1).0, head;
    ghost var n := index + 1;
    while true
      invariant 0 <= index < n && |visited| == n - 1 - index && block == list[index]
      invariant forall k | 0 <= k < |visited| :: visited[k] == list[n - 1 - k]
      decreases index
    {
      visited := visited + [block];
      if index == 0 {
        return;
      }
      FirstPointers(index);
      var count := 2 - index % 2;
      ReadPointer(blocks, blockSize, list, index, 0);
      var heads := [PtrAt(blocks[block], 0)];
      if count == 2 {
        ReadPointer(blocks, blockSize, list, index, 1);
        heads := heads + [PtrAt(blocks[block], 1)];
      }
      for i := 0 to count - 1
        invariant |visited| == n - index + i
        invariant forall k | 0 <= k < |visited| :: visited[k] == list[n - 1 - k]
      {
        visited := visited + [heads[i]];
      }
      block := heads[count - 1];
      index := index - count;
    }
  }

  lemma FirstPointers(i: nat)
    requires i > 0
    ensures Pointers(i) >= 2 - i % 2 && Pow2(0) == 1 && Pow2(1) == 2
    ensures i % 2 == 0 ==> i >= 2
  {
  }
}
