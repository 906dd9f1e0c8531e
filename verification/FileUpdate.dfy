/** Copy-on-write updates of files that are skip lists, lfs_file_flushedwrite and lfs_file_flush. */
module FileUpdate {
  import opened CtzIndex
  import opened CtzList
  import opened CtzExtend
  import opened LfsBase

  /** A shorter size of the same file is a prefix. */
  lemma PrefixContent(blocks: Blocks, blockSize: int, list: seq<int>, size: int, pos: int)
    requires IsFile(blocks, blockSize, list, size) && 0 <= pos <= size
    ensures IsFile(blocks, blockSize, list, pos)
    ensures Content(blocks, blockSize, list, pos) == Content(blocks, blockSize, list, size)[..pos]
  {
    hide Index, IsList;
    if 0 < pos {
      IndexMono(blockSize, pos - 1, size - 1);
    }
    forall k | 0 <= k < pos
      ensures ByteAt(blocks, blockSize, list, pos, k) == ByteAt(blocks, blockSize, list, size, k)
    {
    }
  }

  /** Positions in the same block follow each other. */
  lemma Advance(blockSize: int, pos: int, k: int)
    requires blockSize >= 112 && 0 <= pos && 0 <= k && pos + k <= FILE_MAX
    requires Index(blockSize, pos).1 + k < blockSize
    ensures Index(blockSize, pos + k) == (Index(blockSize, pos).0, Index(blockSize, pos).1 + k)
  {
    hide Index, Pointers;
    PositionFacts(blockSize, pos);
    PositionFacts(blockSize, pos + k);
    LocatesOnce(blockSize, pos + k, Index(blockSize, pos).0, Index(blockSize, pos).1 + k,
                Index(blockSize, pos + k).0, Index(blockSize, pos + k).1);
  }

  lemma KeptPointers(from: seq<Byte>, off: int, d: seq<Byte>, list: seq<int>, i: nat)
    requires i < |list| && PointersOk(from, list, i) && 4 * Pointers(i) <= off && off + |d| <= |from|
    ensures PointersOk(Overlay(from, off, d), list, i)
  {
    hide Pointers;
    var to := Overlay(from, off, d);
    assert to[..off] == from[..off];
    forall j | 0 <= j < Pointers(i)
      ensures 0 <= i - Bits.Pow2(j) && PtrAt(to, j) == list[i - Bits.Pow2(j)]
    {
      assert PtrAt(from, j) == list[i - Bits.Pow2(j)];
      SamePointer(from, to, j, off);
    }
  }

  /** The list ends in the block of position pos, which is nowhere else in it. */
  ghost predicate EndsIn(blockSize: int, list: seq<int>, pos: int, block: int, off: int)
    requires blockSize >= 112
  {
    && 0 <= pos <= FILE_MAX && |list| > 0 && Index(blockSize, pos) == (|list| - 1, off)
    && list[|list| - 1] == block && block !in list[..|list| - 1]
  }

  /** Programming bytes behind the file appends them to it. */
  lemma Programmed(blocks: Blocks, after: Blocks, blockSize: int, list: seq<int>, pos: int, block: int, off: int,
                   d: seq<Byte>)
    requires IsFile(blocks, blockSize, list, pos) && EndsIn(blockSize, list, pos, block, off)
    requires |d| > 0 && 0 <= off && off + |d| <= blockSize && pos + |d| <= FILE_MAX
    requires block in blocks && |blocks[block]| == blockSize && after == blocks[block := Overlay(blocks[block], off, d)]
    ensures IsFile(after, blockSize, list, pos + |d|) && |list| == BlocksOf(blockSize, pos + |d|)
    ensures Index(blockSize, pos + |d| - 1).1 + 1 == off + |d|
    ensures Content(after, blockSize, list, pos + |d|) == Content(blocks, blockSize, list, pos) + d
  {
    hide Index, Pointers, PointersOk, Overlay;
    var last := |list| - 1;
    PositionFacts(blockSize, pos);
    Advance(blockSize, pos, |d| - 1);
    ProgrammedList(blocks, after, blockSize, list, block, off, d);
    forall k | 0 <= k < pos + |d|
      ensures ByteAt(after, blockSize, list, pos + |d|, k)
           == if k < pos then ByteAt(blocks, blockSize, list, pos, k) else d[k - pos]
    {
      ProgrammedByte(blocks, after, blockSize, list, pos, block, off, d, k);
    }
  }

  lemma ProgrammedList(blocks: Blocks, after: Blocks, blockSize: int, list: seq<int>, block: int, off: int,
                       d: seq<Byte>)
    requires IsList(blocks, blockSize, list) && |list| > 0 && list[|list| - 1] == block && block !in list[..|list| - 1]
    requires 0 <= off && off + |d| <= blockSize && 4 * Pointers(|list| - 1) <= off
    requires block in blocks && |blocks[block]| == blockSize && after == blocks[block := Overlay(blocks[block], off, d)]
    ensures IsList(after, blockSize, list)
  {
    hide Pointers, PointersOk, Overlay;
    forall i | 0 <= i < |list|
      ensures PointersOk(after[list[i]], list, i)
    {
      if i == |list| - 1 {
        KeptPointers(blocks[block], off, d, list, i);
      } else {
        assert list[i] in list[..|list| - 1];
      }
    }
  }

  lemma ProgrammedByte(blocks: Blocks, after: Blocks, blockSize: int, list: seq<int>, pos: int, block: int, off: int,
                       d: seq<Byte>, k: int)
    requires IsFile(blocks, blockSize, list, pos) && EndsIn(blockSize, list, pos, block, off)
    requires |d| > 0 && 0 <= off && off + |d| <= blockSize && pos + |d| <= FILE_MAX && 0 <= k < pos + |d|
    requires block in blocks && |blocks[block]| == blockSize && after == blocks[block := Overlay(blocks[block], off, d)]
    requires IsFile(after, blockSize, list, pos + |d|)
    ensures ByteAt(after, blockSize, list, pos + |d|, k)
         == if k < pos then ByteAt(blocks, blockSize, list, pos, k) else d[k - pos]
  {
    hide Index, Pointers, PointersOk;
    InFile(after, blockSize, list, pos + |d|, k);
    if k < pos {
      InFile(blocks, blockSize, list, pos, k);
      if Index(blockSize, k).0 == |list| - 1 {
        SameBlock(blockSize, k, pos);
      } else {
        assert list[Index(blockSize, k).0] in list[..|list| - 1];
      }
    } else {
      Advance(blockSize, pos, k - pos);
    }
  }

  /** The bytes a write at pos makes of a file; a gap is filled with zeros. */
  function Updated(was: seq<Byte>, pos: nat, d: seq<Byte>): seq<Byte> {
    (if pos <= |was| then was[..pos] else was + seq(pos - |was|, _ => 0)) + d
    + if pos + |d| < |was| then was[pos + |d|..] else []
  }

  /** An open file whose data is in a skip list. */
  class File {
    const flash: Flash
    /** The list on record. */
    var head: int
    var size: int
    /** Where the file is read and written, and the block being written. */
    var pos: int
    var block: int
    var off: int
    var writing: bool
    var dirty: bool
    const fileMax: int
    /** Whether it was opened for appending. */
    const append: bool
    /** The blocks of the list on record, and those of the list under construction. */
    ghost var list: seq<int>
    ghost var branch: seq<int>

    /** Opens a file on record. */
    constructor (flash: Flash, head: int, size: int, fileMax: int, append: bool, ghost list: seq<int>)
      requires flash.Valid() && 0 <= fileMax <= FILE_MAX
      requires IsFile(flash.blocks, flash.blockSize, list, size) && size <= FILE_MAX
      requires (size > 0 ==> head == Head(flash.blockSize, list, size)) && forall b | b in list :: b in flash.used
      ensures Valid() && !writing && pos == 0 && this.flash == flash && this.fileMax == fileMax
      ensures this.append == append
      ensures this.list == list && this.head == head && this.size == size
    {
      this.flash, this.head, this.size, this.fileMax, this.append := flash, head, size, fileMax, append;
      pos, block, off, writing, dirty := 0, NULL_BLOCK, 0, false, false;
      this.list, branch := list, [];
    }

    /** The file on record is on disk. */
    ghost predicate OnRecord()
      reads this, flash
    {
      && flash.Valid() && 0 <= fileMax <= FILE_MAX
      && IsFile(flash.blocks, flash.blockSize, list, size) && size <= FILE_MAX
      && (size > 0 ==> head == Head(flash.blockSize, list, size))
      && forall b | b in list :: b in flash.used
    }

    /** The block being written is on no other place of the lists. */
    ghost predicate OwnBlock()
      reads this, flash
    {
      && |branch| > 0 && branch[|branch| - 1] == block && block !in branch[..|branch| - 1] && block !in list
      && block in flash.blocks && |flash.blocks[block]| == flash.blockSize
      && forall b | b in branch :: b in flash.used
    }

    /** The list under construction holds the bytes up to pos. */
    ghost predicate Branch()
      reads this, flash
    {
      && flash.Valid() && OwnBlock() && 0 < pos <= FILE_MAX
      && IsFile(flash.blocks, flash.blockSize, branch, pos) && |branch| == BlocksOf(flash.blockSize, pos)
      && off == Index(flash.blockSize, pos - 1).1 + 1 && Erased()
    }

    /** The block being written is erased from off on. */
    ghost predicate Erased()
      reads this, flash
    {
      0 <= off && block in flash.blocks && Blank(flash.blocks[block], off)
    }

    ghost predicate Valid()
      reads this, flash
    {
      OnRecord() && 0 <= pos <= FILE_MAX && (writing ==> Branch()) && (writing && append ==> size <= pos)
    }

    ghost function Recorded(): seq<Byte>
      reads this, flash
      requires OnRecord()
    {
      Content(flash.blocks, flash.blockSize, list, size)
    }

    /** The bytes before pos, of the list under construction if there is one. */
    ghost function Upto(): seq<Byte>
      reads this, flash
      requires Valid() && (!writing ==> pos <= size)
    {
      if writing then Content(flash.blocks, flash.blockSize, branch, pos) else Recorded()[..pos]
    }

    /** Ready to program at off in the block being written. */
    ghost predicate Opened()
      reads this, flash
    {
      && OnRecord() && OwnBlock() && IsFile(flash.blocks, flash.blockSize, branch, pos)
      && EndsIn(flash.blockSize, branch, pos, block, off) && 0 <= off < flash.blockSize && Erased()
      && (append ==> size <= pos)
    }

    /** Extends a list that holds the bytes before pos. */
    method ExtendFrom(ghost source: seq<int>) returns (err: int)
      requires OnRecord() && 0 <= pos <= FILE_MAX && (append ==> size <= pos)
      requires IsFile(flash.blocks, flash.blockSize, source, pos) && forall b | b in source :: b in flash.used
      requires pos > 0 ==> block == Head(flash.blockSize, source, pos)
      modifies `block, `off, `branch, flash
      ensures OnRecord() && Recorded() == old(Recorded())
      ensures err == 0 || err == NOSPC
      ensures err != 0 ==> flash.blocks == old(flash.blocks) && flash.used == old(flash.used)
      ensures err == 0 ==> Opened()
      ensures err == 0 ==>
        Content(flash.blocks, flash.blockSize, branch, pos) == old(Content(flash.blocks, flash.blockSize, source, pos))
    {
      hide Index, IsList, Content, Head, PointersOk;
      ghost var before, more := flash.blocks, [];
      var nblock;
      err, nblock, off, more := flash.Extend(block, pos, source);
      if err == 0 {
        block := nblock;
        branch := more;
        assert more[..|more| - 1] == source[..|more| - 1] by { PrefixOfSource(more, source, block); }
        SameFile(before, flash.blocks, flash.blockSize, list, size, block);
        PositionFacts(flash.blockSize, pos);
        LastBlock(flash.blocks, flash.blockSize, branch);
      }
    }

    /** A block for position pos: the one being written, or a new one that extends what is before pos. */
    method Open() returns (err: int)
      requires Valid() && (!writing ==> pos <= size) && (append ==> size <= pos)
      modifies this, flash
      ensures head == old(head) && size == old(size) && list == old(list) && pos == old(pos) && dirty == old(dirty)
      ensures OnRecord() && Recorded() == old(Recorded())
      ensures err == 0 || err == NOSPC
      ensures err == 0 ==> Opened() && writing
      ensures err == 0 ==> Content(flash.blocks, flash.blockSize, branch, pos) == old(Upto())
    {
      hide Index, IsList, Content, Head, PointersOk;
      err := 0;
      if !writing || off == flash.blockSize {
        ghost var source := if writing then branch else list;
        if !writing {
          PrefixContent(flash.blocks, flash.blockSize, list, size, pos);
          if pos > 0 {
            var o;
            ghost var hops;
            block, o, hops := Find(flash.blocks, flash.blockSize, list, head, size, pos - 1);
          }
        }
        if pos > 0 {
          HeadOf(flash.blockSize, source, pos, block);
        }
        err := ExtendFrom(source);
        if err != 0 {
          return;
        }
        writing := true;
      } else {
        PositionFacts(flash.blockSize, pos - 1);
        NextPosition(flash.blockSize, pos);
      }
    }

    /** Programs bytes behind those of the list under construction, within the block being written. */
    method ProgSome(d: seq<Byte>)
      requires Opened() && writing && 0 < |d| <= flash.blockSize - off && pos + |d| <= FILE_MAX
      modifies `pos, `off, flash
      ensures Valid() && Recorded() == old(Recorded()) && pos == old(pos) + |d|
      ensures Upto() == old(Content(flash.blocks, flash.blockSize, branch, pos)) + d
    {
      hide Index, IsList, Content, Head, PointersOk, Overlay;
      ghost var before := flash.blocks;
      BlankBehind(before[block], off, d);
      flash.Prog(block, off, d);
      Programmed(before, flash.blocks, flash.blockSize, branch, pos, block, off, d);
      SameFile(before, flash.blocks, flash.blockSize, list, size, block);
      pos := pos + |d|;
      off := off + |d|;
    }

    /** lfs_file_flushedwrite: whatever is written, the list on record keeps its bytes. */
    method FlushedWrite(data: seq<Byte>) returns (err: int)
      requires Valid() && (!writing ==> pos <= size) && (append ==> size <= pos) && pos + |data| <= FILE_MAX
      modifies this, flash
      ensures head == old(head) && size == old(size) && list == old(list) && dirty == old(dirty)
      ensures OnRecord() && Recorded() == old(Recorded())
      ensures err == 0 || err == NOSPC
      ensures err == 0 ==> Valid() && pos == old(pos) + |data| && writing == (old(writing) || data != [])
      ensures err == 0 ==> Upto() == old(Upto()) + data
    {
      hide Index, Content, Head, OwnBlock, Branch, EndsIn, IsFile, OnRecord;
      var n := 0;
      assert old(Upto()) + data[..0] == old(Upto());
      while n < |data|
        invariant 0 <= n <= |data| && pos == old(pos) + n
        invariant head == old(head) && size == old(size) && list == old(list) && dirty == old(dirty)
        invariant Valid() && Recorded() == old(Recorded())
        invariant writing == (old(writing) || n > 0) && (!writing ==> pos <= size)
        invariant Upto() == old(Upto()) + data[..n]
      {
        err := Open();
        if err != 0 {
          return;
        }
        var diff := if |data| - n < flash.blockSize - off then |data| - n else flash.blockSize - off;
        ProgSome(data[n..n + diff]);
        assert data[..n + diff] == data[..n] + data[n..n + diff];
        n := n + diff;
      }
      assert data[..n] == data;
      err := 0;
    }

    /** A byte of the list on record, as lfs_file_flushedread gets it. */
    method ReadByte(p: int) returns (byte: Byte)
      requires OnRecord() && 0 <= p < size
      ensures byte == Recorded()[p]
    {
      hide Index, IsList, Head, PointersOk;
      ghost var hops;
      var b, o;
      b, o, hops := Find(flash.blocks, flash.blockSize, list, head, size, p);
      InFile(flash.blocks, flash.blockSize, list, size, p);
      byte := flash.blocks[b][o];
    }

    /** lfs_file_flush: the rest of the file on record is copied behind what was written, and the new list
        goes on record. The blocks of the old list still hold the old bytes. */
    method Flush() returns (err: int)
      requires Valid()
      modifies this, flash
      ensures err == 0 || err == NOSPC
      ensures IsFile(flash.blocks, flash.blockSize, old(list), old(size))
      ensures Content(flash.blocks, flash.blockSize, old(list), old(size)) == old(Recorded())
      ensures err == 0 ==> Valid() && !writing && pos == old(pos)
      ensures err == 0 && !old(writing) ==> Recorded() == old(Recorded()) && head == old(head) && size == old(size)
      ensures err == 0 && old(writing) ==>
        dirty && Recorded() == old(Upto()) + if old(pos) < old(size) then old(Recorded())[old(pos)..] else []
    {
      hide Index, Content, Head, OwnBlock, EndsIn, Branch;
      err := 0;
      if writing {
        var p := pos;
        ghost var rest := Recorded()[if p < size then p else size..];
        assert old(Upto()) + rest[..0] == old(Upto());
        while pos < size
          invariant Valid() && writing && p <= pos && (p < size ==> pos <= size) && (p >= size ==> pos == p)
          invariant head == old(head) && size == old(size) && list == old(list) && Recorded() == old(Recorded())
          invariant Upto() == old(Upto()) + rest[..pos - p]
          decreases size - pos
        {
          var data := ReadByte(pos);
          assert rest[..pos - p + 1] == rest[..pos - p] + [data];
          err := FlushedWrite([data]);
          if err != 0 {
            return;
          }
        }
        assert rest[..pos - p] == rest;
        Adopt();
        pos := p;
      }
    }

    /** The list under construction goes on record. */
    method Adopt()
      requires Valid() && writing && size <= pos
      modifies this
      ensures Valid() && !writing && dirty && pos == size == old(pos) && list == old(branch)
      ensures Recorded() == old(Upto())
    {
      hide Index, IsList, Content, PointersOk;
      head := block;
      size := pos;
      list := branch;
      writing := false;
      dirty := true;
    }

    /** Where a write starts: a file opened for appending is not overwritten. */
    function Start(): int
      reads this
    {
      if append && pos < size then size else pos
    }

    /** lfs_file_rawwrite, the file being opened for that: a gap behind the file is filled with zeros. */
    method RawWrite(data: seq<Byte>) returns (err: int)
      requires Valid() && fileMax <= FILE_MAX && size <= fileMax
      modifies this, flash
      ensures err == 0 || err == NOSPC || err == FBIG
      ensures err == FBIG <==> old(Start()) + |data| > fileMax
      ensures OnRecord() && Recorded() == old(Recorded())
      ensures head == old(head) && size == old(size) && list == old(list)
      ensures err == 0 ==> Valid() && pos == old(Start()) + |data| && (!writing ==> pos <= size)
      ensures err == 0 ==> writing == (old(writing) || data != [] || old(pos) > size)
      ensures err == 0 && old(writing) ==> Upto() == old(Upto()) + data
      ensures err == 0 && !old(writing) && old(pos) <= size ==> Upto() == old(Recorded()[..Start()]) + data
      ensures err == 0 && !old(writing) && old(pos) > size ==>
        Upto() == old(Recorded()) + seq(old(pos) - size, _ => 0) + data
    {
      hide Index, Content, Head, OwnBlock, Branch, EndsIn;
      if append && pos < size {
        pos := size;
      }
      if pos + |data| > fileMax {
        return FBIG;
      }
      if !writing && pos > size {
        var p := pos;
        pos := size;
        while pos < p
          invariant Valid() && size <= pos <= p && writing == (pos > size)
          invariant head == old(head) && size == old(size) && list == old(list) && Recorded() == old(Recorded())
          invariant Upto() == old(Recorded()) + seq(pos - size, _ => 0)
          decreases p - pos
        {
          err := FlushedWrite([0]);
          if err != 0 {
            return;
          }
        }
      }
      err := FlushedWrite(data);
    }

    /** Writing data at position p of a flushed file and flushing again. */
    method WriteAt(p: nat, data: seq<Byte>) returns (err: int)
      requires Valid() && !writing && size <= fileMax && p <= FILE_MAX
      modifies this, flash
      ensures err == 0 || err == NOSPC || err == FBIG
      ensures err == FBIG <==> (if append && p < old(size) then old(size) else p) + |data| > fileMax
      ensures err == 0 ==> Valid() && !writing
      ensures err == 0 ==>
        Recorded() == Updated(old(Recorded()), if append && p < old(size) then old(size) else p, data)
      ensures IsFile(flash.blocks, flash.blockSize, old(list), old(size))
      ensures Content(flash.blocks, flash.blockSize, old(list), old(size)) == old(Recorded())
    {
      hide Index, Content, Head, OwnBlock, Branch, EndsIn, Updated, Covers, IsList;
      pos := p;
      ghost var was, from := Recorded(), Start();
      err := RawWrite(data);
      if err == 0 {
        UpdatedParts(was, from, data);
        err := Flush();
      }
    }
  }

  lemma UpdatedParts(was: seq<Byte>, p: nat, d: seq<Byte>)
    ensures p <= |was| ==>
      Updated(was, p, d) == was[..p] + d + if p + |d| < |was| then was[p + |d|..] else []
    ensures p <= |was| && d == [] ==> Updated(was, p, d) == was
    ensures p > |was| ==> Updated(was, p, d) == was + seq(p - |was|, _ => 0) + d
  {
  }

  lemma PrefixOfSource(more: seq<int>, source: seq<int>, b: int)
    requires 0 < |more| <= |source| + 1 && more == source[..|more| - 1] + [b]
    ensures more[..|more| - 1] == source[..|more| - 1]
  {
  }

  lemma LastBlock(blocks: Blocks, blockSize: int, list: seq<int>)
    requires IsList(blocks, blockSize, list) && |list| > 0
    ensures list[|list| - 1] in blocks && |blocks[list[|list| - 1]]| == blockSize
  {
    hide PointersOk;
  }

  lemma HeadOf(blockSize: int, list: seq<int>, pos: int, block: int)
    requires blockSize >= 112 && 0 < pos <= FILE_MAX && Covers(blockSize, list, pos)
    requires Reaches(blockSize, list, pos - 1, block, Index(blockSize, pos - 1).1)
      || (|list| == BlocksOf(blockSize, pos) && block == list[|list| - 1])
    ensures block == Head(blockSize, list, pos)
  {
    hide Index;
  }
}
