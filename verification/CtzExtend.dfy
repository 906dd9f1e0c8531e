/** Extending the skip list of a file by a block, lfs_ctz_extend. */
module CtzExtend {
  import opened Bits
  import opened CtzIndex
  import opened CtzList
  import opened LfsBase

  /** The blocks agree but for one. */
  ghost predicate OnlyBlock(before: Blocks, after: Blocks, b: int) {
    && (forall a | a in before && a != b :: a in after && after[a] == before[a])
    && b in after
  }

  lemma SameList(before: Blocks, after: Blocks, blockSize: int, list: seq<int>)
    requires IsList(before, blockSize, list)
    requires forall i | 0 <= i < |list| :: list[i] in after && after[list[i]] == before[list[i]]
    ensures IsList(after, blockSize, list)
  {
    hide PointersOk;
  }

  /** A file none of whose blocks is touched keeps its content. */
  lemma SameFile(before: Blocks, after: Blocks, blockSize: int, list: seq<int>, size: int, b: int)
    requires IsFile(before, blockSize, list, size) && OnlyBlock(before, after, b) && b !in list
    ensures IsFile(after, blockSize, list, size)
    ensures Content(after, blockSize, list, size) == Content(before, blockSize, list, size)
  {
    hide Index, PointersOk;
    SameList(before, after, blockSize, list);
    forall pos | 0 <= pos < size
      ensures ByteAt(after, blockSize, list, size, pos) == ByteAt(before, blockSize, list, size, pos)
    {
      InFile(before, blockSize, list, size, pos);
    }
  }

  /** A shorter prefix of the list has its pointers in order. */
  lemma PrefixList(blocks: Blocks, blockSize: int, list: seq<int>, n: nat)
    requires IsList(blocks, blockSize, list) && n <= |list|
    ensures IsList(blocks, blockSize, list[..n])
  {
    hide Pointers, PtrAt, Pow2;
    forall i | 0 <= i < n
      ensures PointersOk(blocks[list[..n][i]], list[..n], i)
    {
      PointersPrefix(blocks[list[i]], list, i, n);
    }
  }

  lemma PointersPrefix(block: seq<Byte>, list: seq<int>, i: nat, n: nat)
    requires i < n <= |list| && PointersOk(block, list, i)
    ensures PointersOk(block, list[..n], i)
  {
    hide Pointers, PtrAt;
    forall j | 0 <= j < Pointers(i)
      ensures 0 <= i - Pow2(j) && PtrAt(block, j) == list[..n][i - Pow2(j)]
    {
      assert PtrAt(block, j) == list[i - Pow2(j)];
    }
  }

  lemma SnocList(blocks: Blocks, blockSize: int, list: seq<int>, b: int)
    requires IsList(blocks, blockSize, list) && b in blocks && 0 <= b < 0x1_0000_0000 && |blocks[b]| == blockSize
    requires PointersOk(blocks[b], list + [b], |list|)
    ensures IsList(blocks, blockSize, list + [b])
  {
    hide Pointers, PtrAt, Pow2, PointersOk;
    var more := list + [b];
    forall i | 0 <= i < |list|
      ensures PointersOk(blocks[more[i]], more, i)
    {
      assert more[..|list|] == list;
      PointersSnoc(blocks[list[i]], list, b, i);
    }
  }

  lemma PointersSnoc(block: seq<Byte>, list: seq<int>, b: int, i: nat)
    requires i < |list| && PointersOk(block, list, i)
    ensures PointersOk(block, list + [b], i)
  {
    hide Pointers, PtrAt;
    forall j | 0 <= j < Pointers(i)
      ensures 0 <= i - Pow2(j) && PtrAt(block, j) == (list + [b])[i - Pow2(j)]
    {
      assert PtrAt(block, j) == list[i - Pow2(j)];
    }
  }

  // ---- copying an incomplete last block ----

  /** The last byte of a file of that size lies in block i at offset off, which is not the block's last. */
  predicate Incomplete(blockSize: int, size: int, i: int, off: int)
    requires blockSize >= 112
  {
    0 < size <= FILE_MAX && Index(blockSize, size - 1) == (i, off) && 0 <= i && 0 <= off < blockSize - 1
  }

  /** Block b has a copy of the last block of the file, as far as that is used. */
  ghost predicate Copied(blocks: Blocks, after: Blocks, blockSize: int, list: seq<int>, i: int, off: int, b: int) {
    && OnlyBlock(blocks, after, b) && b !in list && 0 <= b < 0x1_0000_0000
    && 0 <= i < |list| && 0 <= off < blockSize && list[i] in blocks
    && |blocks[list[i]]| == |after[b]| == blockSize
    && after[b][..off + 1] == blocks[list[i]][..off + 1]
  }

  /** The copy in the place of the last block makes the same file. */
  lemma CopiedLast(blocks: Blocks, after: Blocks, blockSize: int, list: seq<int>, size: int, b: int, i: int, off: int)
    requires IsFile(blocks, blockSize, list, size) && Incomplete(blockSize, size, i, off)
    requires Copied(blocks, after, blockSize, list, i, off, b)
    ensures IsFile(after, blockSize, list[..i] + [b], size)
    ensures Content(after, blockSize, list[..i] + [b], size) == Content(blocks, blockSize, list, size)
  {
    hide Index, PointersOk, Pointers;
    var more := list[..i] + [b];
    PositionFacts(blockSize, size - 1);
    SameList(blocks, after, blockSize, list);
    PrefixList(after, blockSize, list, i);
    CopiedPointers(blocks[list[i]], after[b], list, b, i, off + 1);
    SnocList(after, blockSize, list[..i], b);
    forall pos | 0 <= pos < size
      ensures ByteAt(after, blockSize, more, size, pos) == ByteAt(blocks, blockSize, list, size, pos)
    {
      CopiedByte(blocks, after, blockSize, list, size, b, i, off, pos);
    }
  }

  lemma CopiedByte(blocks: Blocks, after: Blocks, blockSize: int, list: seq<int>, size: int, b: int, i: int, off: int,
                   pos: int)
    requires IsFile(blocks, blockSize, list, size) && Incomplete(blockSize, size, i, off) && 0 <= pos < size
    requires Copied(blocks, after, blockSize, list, i, off, b)
    requires IsFile(after, blockSize, list[..i] + [b], size)
    ensures ByteAt(after, blockSize, list[..i] + [b], size, pos) == ByteAt(blocks, blockSize, list, size, pos)
  {
    hide Index, PointersOk, Pointers;
    InFile(blocks, blockSize, list, size, pos);
    IndexMono(blockSize, pos, size - 1);
    var (k, o) := Index(blockSize, pos);
    if k == i {
      SameBlock(blockSize, pos, size - 1);
      assert after[b][..off + 1][o] == blocks[list[i]][..off + 1][o];
    }
  }

  /** Within a block offsets differ as positions do. */
  lemma SameBlock(blockSize: int, p: int, q: int)
    requires blockSize >= 112 && 0 <= p <= q <= FILE_MAX && Index(blockSize, p).0 == Index(blockSize, q).0
    ensures Index(blockSize, q).1 - Index(blockSize, p).1 == q - p
  {
    hide Index, Pointers;
    PositionFacts(blockSize, p);
    PositionFacts(blockSize, q);
  }

  lemma CopiedPointers(from: seq<Byte>, to: seq<Byte>, list: seq<int>, b: int, i: nat, n: nat)
    requires i < |list| && PointersOk(from, list, i) && 4 * Pointers(i) <= n <= |to| && n <= |from|
    requires to[..n] == from[..n]
    ensures PointersOk(to, list[..i] + [b], i)
  {
    hide Pointers;
    forall j | 0 <= j < Pointers(i)
      ensures 0 <= i - Pow2(j) && PtrAt(to, j) == (list[..i] + [b])[i - Pow2(j)]
    {
      assert PtrAt(from, j) == list[i - Pow2(j)];
      SamePointer(from, to, j, n);
    }
  }

  lemma SamePointer(from: seq<Byte>, to: seq<Byte>, j: nat, n: nat)
    requires 4 * j + 4 <= n <= |to| && n <= |from| && to[..n] == from[..n]
    ensures PtrAt(to, j) == PtrAt(from, j)
  {
    assert forall k | 0 <= k < n :: to[..n][k] == from[..n][k];
    assert forall k | 0 <= k < n :: to[k] == from[k];
  }

  // ---- a block behind a complete one ----

  /** A block behind those of the file does not change it. */
  lemma LongerFile(blocks: Blocks, blockSize: int, list: seq<int>, size: int, n: nat, b: int)
    requires IsFile(blocks, blockSize, list, size) && size <= FILE_MAX
    requires BlocksOf(blockSize, size) <= n <= |list| && IsList(blocks, blockSize, list[..n] + [b])
    ensures IsFile(blocks, blockSize, list[..n] + [b], size)
    ensures Content(blocks, blockSize, list[..n] + [b], size) == Content(blocks, blockSize, list, size)
  {
    hide Index, PointersOk;
    forall pos | 0 <= pos < size
      ensures ByteAt(blocks, blockSize, list[..n] + [b], size, pos) == ByteAt(blocks, blockSize, list, size, pos)
    {
      InFile(blocks, blockSize, list, size, pos);
      IndexMono(blockSize, pos, size - 1);
    }
  }

  /** A pointer written at its place leaves those before it. */
  lemma WrittenPointer(s: seq<Byte>, i: nat, p: int, j: nat)
    requires 4 * i + 4 <= |s| && 0 <= p < 0x1_0000_0000 && j <= i
    ensures PtrAt(Overlay(s, 4 * i, PtrBytes(p)), j) == if j == i then p else PtrAt(s, j)
  {
    var r := Overlay(s, 4 * i, PtrBytes(p));
    PtrRoundTrip(p);
    assert forall k | 0 <= k < 4 * i :: r[k] == s[k];
    assert forall k | 0 <= k < 4 :: r[4 * i + k] == PtrBytes(p)[k];
    assert r[4 * i] == PtrBytes(p)[0] && r[4 * i + 1] == PtrBytes(p)[1] && r[4 * i + 2] == PtrBytes(p)[2]
           && r[4 * i + 3] == PtrBytes(p)[3];
  }

  /** The pointer after pointer i of a new block n is read from the block pointer i leads to. */
  lemma NextPointer(blocks: Blocks, blockSize: int, list: seq<int>, n: nat, i: nat)
    requires IsList(blocks, blockSize, list) && 0 < n <= |list| && i < Ctz(n)
    ensures 0 <= n - Pow2(i) < |list| && list[n - Pow2(i)] in blocks
    ensures 4 * i + 4 <= |blocks[list[n - Pow2(i)]]|
    ensures 0 <= n - Pow2(i + 1) && PtrAt(blocks[list[n - Pow2(i)]], i) == list[n - Pow2(i + 1)]
  {
    hide IsList, PtrAt, Ctz, DivBy;
    CtzDivBy(n, i + 1);
    HalfStep(n, i);
    ReadPointer(blocks, blockSize, list, n - Pow2(i), i);
  }

  /** The raw device, and the blocks that are in use. */
  class Flash {
    var blocks: Blocks
    var used: set<int>
    const blockSize: int
    const blockCount: int

    ghost predicate Valid()
      reads this
    {
      blockSize >= 112 && 0 <= blockCount < 0xffff_fffe
    }

    /** Hands out any block that is not in use. */
    method Alloc() returns (err: int, b: int)
      requires Valid()
      modifies `used
      ensures err == 0 ==> 0 <= b < blockCount && b !in old(used) && used == old(used) + {b}
      ensures err != 0 ==> err == NOSPC && used == old(used) && forall a | 0 <= a < blockCount :: a in used
    {
      if a: int :| 0 <= a < blockCount && a !in used {
        b, err := a, 0;
        used := used + {a};
      } else {
        b, err := NULL_BLOCK, NOSPC;
      }
    }

    method Erase(b: int)
      requires Valid()
      modifies `blocks
      ensures OnlyBlock(old(blocks), blocks, b) && |blocks[b]| == blockSize && Blank(blocks[b], 0)
    {
      blocks := blocks[b := seq(blockSize, _ => 0xff)];
    }

    /** Programs bytes of a block, which must have been erased since they were last programmed. */
    method Prog(b: int, off: int, data: seq<Byte>)
      requires b in blocks && 0 <= off && off + |data| <= |blocks[b]| && ErasedIn(blocks[b], off, off + |data|)
      modifies `blocks
      ensures blocks == old(blocks)[b := Overlay(old(blocks)[b], off, data)]
    {
      blocks := blocks[b := Overlay(blocks[b], off, data)];
    }

    /** Copies the first n bytes of one block to an erased one, byte by byte. */
    method CopyBytes(from: int, to: int, n: int)
      requires from in blocks && to in blocks && from != to && 0 <= n <= |blocks[from]| && n <= |blocks[to]|
      requires Blank(blocks[to], 0)
      modifies `blocks
      ensures OnlyBlock(old(blocks), blocks, to) && |blocks[to]| == old(|blocks[to]|) && Blank(blocks[to], n)
      ensures blocks[to][..n] == old(blocks)[from][..n]
    {
      for i := 0 to n
        invariant OnlyBlock(old(blocks), blocks, to) && |blocks[to]| == old(|blocks[to]|) && Blank(blocks[to], i)
        invariant forall k | 0 <= k < i :: blocks[to][k] == old(blocks)[from][k]
      {
        Prog(to, i, [blocks[from][i]]);
      }
    }

    /** Writes the pointers of block n of the list into block b, following them through the list. */
    method ProgPointers(b: int, head: int, n: int, ghost list: seq<int>)
      requires IsList(blocks, blockSize, list) && 0 < n <= |list| && head == list[n - 1]
      requires b in blocks && b !in list && |blocks[b]| == blockSize && 4 * Pointers(n) <= blockSize
      requires Blank(blocks[b], 0)
      modifies `blocks
      ensures OnlyBlock(old(blocks), blocks, b) && |blocks[b]| == blockSize && Blank(blocks[b], 4 * (Ctz(n) + 1))
      ensures PointersOk(blocks[b], list[..n] + [b], n)
    {
      hide PtrAt, PointersOk, Overlay, Ctz, Pow2;
      var skips, nhead := Ctz(n) + 1, head;
      ghost var before := blocks;
      FirstStep();
      CtzDivBy(n, Ctz(n));
      DivByMinus(n, Ctz(n));
      for i := 0 to skips
        invariant OnlyBlock(before, blocks, b) && |blocks[b]| == blockSize && Blank(blocks[b], 4 * i)
        invariant i < skips ==> 0 <= n - Pow2(i) && nhead == list[n - Pow2(i)]
        invariant forall j | 0 <= j < i :: 0 <= n - Pow2(j) && PtrAt(blocks[b], j) == list[n - Pow2(j)]
      {
        StepInside(n, i);
        SameListBut(before, blocks, blockSize, list, b);
        Written(blocks[b], i, nhead);
        BlankBehind(blocks[b], 4 * i, PtrBytes(nhead));
        Prog(b, 4 * i, PtrBytes(nhead));
        SameListBut(before, blocks, blockSize, list, b);
        if i != skips - 1 {
          NextPointer(blocks, blockSize, list, n, i);
          nhead := PtrAt(blocks[nhead], i);
        }
      }
      AllPointers(blocks[b], list, b, n);
    }

    /** The list is ready for the byte at position size: it ends in the block of that position. */
    ghost predicate Ready(list: seq<int>, size: int, block: int, off: int)
      reads this
    {
      && Valid() && IsFile(blocks, blockSize, list, size) && size <= FILE_MAX
      && |list| == Index(blockSize, size).0 + 1 && Reaches(blockSize, list, size, block, off)
    }

    /** lfs_ctz_extend: a fresh block for position size of the file, either a copy of its last block or
        one behind it. No block in use is touched. */
    method Extend(head: int, size: int, ghost list: seq<int>)
        returns (err: int, block: int, off: int, ghost more: seq<int>)
      requires Valid() && IsFile(blocks, blockSize, list, size) && size <= FILE_MAX
      requires size > 0 ==> head == Head(blockSize, list, size)
      requires forall b | b in list :: b in used
      modifies this
      ensures err == 0 || err == NOSPC
      ensures err != 0 ==> blocks == old(blocks) && used == old(used)
      ensures err == 0 ==> block !in old(used) && used == old(used) + {block} && OnlyBlock(old(blocks), blocks, block)
      ensures err == 0 ==> block in blocks && 0 <= off && Blank(blocks[block], off)
      ensures err == 0 ==> 0 < |more| <= |list| + 1 && more == list[..|more| - 1] + [block]
      ensures err == 0 ==>
        && Ready(more, size, block, off)
        && Content(blocks, blockSize, more, size) == old(Content(blocks, blockSize, list, size))
    {
      hide Index, IsList, Content, Pointers, PtrAt, PointersOk;
      ghost var before := blocks;
      err, block := Alloc();
      if err != 0 {
        off, more := 0, [];
        return;
      }
      Erase(block);
      more := [block];
      off := 0;
      if size == 0 {
        EmptyFile(before, blocks, blockSize, list, block);
        return;
      }
      var (index, noff) := Index(blockSize, size - 1);
      PositionFacts(blockSize, size - 1);
      NextPosition(blockSize, size);
      HeadInFile(before, blockSize, list, size);
      noff := noff + 1;
      if noff != blockSize {
        CopyBytes(head, block, noff);
        more := list[..index] + [block];
        CopiedLast(before, blocks, blockSize, list, size, block, index, noff - 1);
        off := noff;
        return;
      }
      index := index + 1;
      BlockBehind(blockSize, size);
      SameListBut(before, blocks, blockSize, list, block);
      ProgPointers(block, head, index, list);
      more := list[..index] + [block];
      Appended(before, blocks, blockSize, list, size, index, block);
      off := 4 * (Ctz(index) + 1);
      SomePointers(index);
    }
  }

  lemma FirstStep()
    ensures Pow2(0) == 1
  {
  }

  lemma StepInside(n: nat, i: nat)
    requires n > 0 && i <= Ctz(n)
    ensures 0 <= n - Pow2(i) < n
  {
    CtzDivBy(n, i);
    DivByMinus(n, i);
  }

  lemma SameListBut(before: Blocks, after: Blocks, blockSize: int, list: seq<int>, b: int)
    requires IsList(before, blockSize, list) && OnlyBlock(before, after, b) && b !in list
    ensures IsList(after, blockSize, list)
  {
    hide PointersOk;
    SameList(before, after, blockSize, list);
  }

  lemma Written(s: seq<Byte>, i: nat, p: int)
    requires 4 * i + 4 <= |s| && 0 <= p < 0x1_0000_0000
    ensures forall j | 0 <= j <= i :: PtrAt(Overlay(s, 4 * i, PtrBytes(p)), j) == if j == i then p else PtrAt(s, j)
  {
    hide PtrAt, Overlay;
    forall j | 0 <= j <= i
      ensures PtrAt(Overlay(s, 4 * i, PtrBytes(p)), j) == if j == i then p else PtrAt(s, j)
    {
      WrittenPointer(s, i, p, j);
    }
  }

  lemma AllPointers(block: seq<Byte>, list: seq<int>, b: int, n: nat)
    requires 0 < n <= |list| && 4 * Pointers(n) <= |block|
    requires forall j | 0 <= j < Ctz(n) + 1 :: 0 <= n - Pow2(j) && PtrAt(block, j) == list[n - Pow2(j)]
    ensures PointersOk(block, list[..n] + [b], n)
  {
    hide PtrAt, Pow2, Ctz;
  }

  lemma SomePointers(i: nat)
    requires i > 0
    ensures Pointers(i) == Ctz(i) + 1
  {
  }

  lemma EmptyFile(before: Blocks, after: Blocks, blockSize: int, list: seq<int>, b: int)
    requires IsFile(before, blockSize, list, 0)
    requires b in after && |after[b]| == blockSize && 0 <= b < 0x1_0000_0000
    ensures IsFile(after, blockSize, [b], 0) && Index(blockSize, 0) == (0, 0)
    ensures Content(after, blockSize, [b], 0) == Content(before, blockSize, list, 0)
  {
    hide Index;
    FirstPosition(blockSize);
    assert Content(after, blockSize, [b], 0) == [] == Content(before, blockSize, list, 0);
  }

  lemma HeadInFile(blocks: Blocks, blockSize: int, list: seq<int>, size: int)
    requires IsFile(blocks, blockSize, list, size) && size > 0
    ensures
      var head := Head(blockSize, list, size);
      head in list && head in blocks && |blocks[head]| == blockSize && 0 <= Index(blockSize, size - 1).0 < |list|
      && head == list[Index(blockSize, size - 1).0]
  {
    hide Index, PointersOk;
  }

  /** The block behind the last one of a file all of whose blocks are full. */
  lemma BlockBehind(blockSize: int, size: int)
    requires blockSize >= 112 && 0 < size <= FILE_MAX && Index(blockSize, size - 1).1 + 1 == blockSize
    ensures 4 * Pointers(Index(blockSize, size - 1).0 + 1) <= blockSize
  {
    hide Index, Pointers, Before;
    PositionFacts(blockSize, size - 1);
    NextIndexBefore(blockSize, size);
    PointersFit(blockSize, Index(blockSize, size - 1).0 + 1);
  }

  lemma NextIndexBefore(blockSize: int, size: int)
    requires blockSize >= 112 && 0 < size <= FILE_MAX && Index(blockSize, size - 1).1 + 1 == blockSize
    ensures Before(blockSize, Index(blockSize, size - 1).0 + 1) <= size
  {
    hide Index, Pointers;
    PositionFacts(blockSize, size - 1);
  }

  lemma Appended(before: Blocks, after: Blocks, blockSize: int, list: seq<int>, size: int, n: nat, b: int)
    requires IsFile(before, blockSize, list, size) && 0 < size <= FILE_MAX && n == BlocksOf(blockSize, size)
    requires OnlyBlock(before, after, b) && b !in list && 0 <= b < 0x1_0000_0000 && |after[b]| == blockSize
    requires PointersOk(after[b], list[..n] + [b], n)
    ensures IsFile(after, blockSize, list[..n] + [b], size)
    ensures Content(after, blockSize, list[..n] + [b], size) == Content(before, blockSize, list, size)
  {
    hide Index, PointersOk, IsList, Content, BlocksOf;
    SameListBut(before, after, blockSize, list, b);
    PrefixList(after, blockSize, list, n);
    SnocList(after, blockSize, list[..n], b);
    SameFile(before, after, blockSize, list, size, b);
    LongerFile(after, blockSize, list, size, n, b);
  }
}
