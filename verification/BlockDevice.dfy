/** The cached block device of littlefs, lfs_bd_read, lfs_bd_prog, lfs_bd_flush and lfs_bd_sync, over a raw
    device of blocks of bytes. */
module BlockDevice {
  import opened Congruence
  import opened LfsBase

  /** Whether a is a multiple of m. */
  predicate Aligned(a: int, m: int)
    requires m > 0
  {
    a % m == 0
  }

  /** lfs_aligndown and lfs_alignup. */
  function AlignDown(a: int, m: int): int
    requires m > 0
  {
    a - a % m
  }

  function AlignUp(a: int, m: int): int
    requires m > 0
  {
    AlignDown(a + m - 1, m)
  }

  lemma AlignedSum(a: int, b: int, m: int)
    requires m > 0 && Aligned(a, m) && Aligned(b, m)
    ensures Aligned(a + b, m) && Aligned(a - b, m)
  {
    var p, q := a / m, b / m;
    assert a == p * m && b == q * m;
    assert (p + q) * m == p * m + q * m && (p - q) * m == p * m - q * m;
    DivModUnique(a + b, m, p + q, 0);
    DivModUnique(a - b, m, p - q, 0);
  }

  lemma AlignedMultiple(a: int, k: int, m: int)
    requires m > 0 && k > 0 && Aligned(a, k) && Aligned(k, m)
    ensures Aligned(a, m)
  {
    var p, q := a / k, k / m;
    assert a == p * k && k == q * m;
    assert p * (q * m) == (p * q) * m;
    DivModUnique(a, m, p * q, 0);
  }

  lemma AlignDownFacts(a: int, m: int)
    requires m > 0
    ensures AlignDown(a, m) <= a < AlignDown(a, m) + m && Aligned(AlignDown(a, m), m)
    ensures 0 <= a ==> 0 <= AlignDown(a, m)
    ensures Aligned(a, m) ==> AlignDown(a, m) == a
    ensures a >= m ==> AlignDown(a, m) >= m
  {
    var q := a / m;
    assert a == q * m + a % m;
    DivModUnique(AlignDown(a, m), m, q, 0);
    if 0 <= a && q < 0 {
      MulMonotone(q, -1, m);
    }
    if 0 <= a {
      MulMonotone(0, q, m);
    }
    if a >= m && q < 1 {
      MulMonotone(q, 0, m);
    }
    if a >= m {
      MulMonotone(1, q, m);
    }
  }

  lemma AlignUpFacts(a: int, m: int)
    requires m > 0
    ensures a <= AlignUp(a, m) < a + m && Aligned(AlignUp(a, m), m)
  {
    hide AlignDown, Aligned;
    AlignDownFacts(a + m - 1, m);
  }

  /** Aligned numbers are at least one step apart. */
  lemma AlignedApart(a: int, b: int, m: int)
    requires m > 0 && Aligned(a, m) && Aligned(b, m) && a < b
    ensures a + m <= b
  {
    var p, q := a / m, b / m;
    assert a == p * m && b == q * m;
    if q < p + 1 {
      MulMonotone(q, p, m);
    }
    MulMonotone(p + 1, q, m);
    assert (p + 1) * m == p * m + m;
  }

  // ---- when reads past the caches make progress ----

  /** A read that bypasses the cache up to the program cache always reads something exactly when program
      units are made of whole read units. */
  lemma BypassProgress(readSize: int, progSize: int)
    requires readSize > 0 && progSize > 0
    ensures Aligned(progSize, readSize) <==>
      forall off, cacheOff | 0 <= off < cacheOff && Aligned(off, readSize) && Aligned(cacheOff, progSize) ::
        AlignDown(cacheOff - off, readSize) > 0
  {
    hide Aligned, AlignDown;
    if Aligned(progSize, readSize) {
      forall off, cacheOff | 0 <= off < cacheOff && Aligned(off, readSize) && Aligned(cacheOff, progSize)
        ensures AlignDown(cacheOff - off, readSize) > 0
      {
        AlignedMultiple(cacheOff, progSize, readSize);
        AlignedApart(off, cacheOff, readSize);
        AlignDownFacts(cacheOff - off, readSize);
      }
    } else {
      var off := AlignDown(progSize, readSize);
      AlignDownFacts(progSize, readSize);
      AlignedSelf(progSize);
      Stuck(progSize - off, readSize);
      assert off < progSize;
    }
  }

  lemma AlignedSelf(m: int)
    requires m > 0
    ensures Aligned(m, m)
  {
    DivModUnique(m, m, 1, 0);
  }

  /** Less than a unit aligns down to nothing. */
  lemma Stuck(a: int, m: int)
    requires 0 <= a < m
    ensures AlignDown(a, m) == 0
  {
    DivModUnique(a, m, 0, a);
  }

  /** A load reaches past the offset exactly when the hint is positive or the offset lies within a unit. */
  lemma LoadProgress(off: int, hint: int, readSize: int)
    requires readSize > 0 && off >= 0 && hint >= 0
    ensures AlignUp(off + hint, readSize) > off <==> hint > 0 || !Aligned(off, readSize)
  {
    hide Aligned, AlignDown, AlignUp;
    AlignUpFacts(off + hint, readSize);
    if hint == 0 && Aligned(off, readSize) && AlignUp(off, readSize) > off {
      AlignedApart(off, AlignUp(off, readSize), readSize);
    }
  }

  // ---- caches ----

  class Cache {
    var block: int
    var off: int
    var size: int
    const buffer: array<Byte>

    constructor (cacheSize: nat)
      ensures block == NULL_BLOCK && buffer.Length == cacheSize && fresh(buffer)
    {
      block, off, size := NULL_BLOCK, 0, 0;
      buffer := new Byte[cacheSize](_ => 0xff);
    }

    /** The cache holds the byte at that offset of the block. */
    predicate Has(b: int, o: int)
      reads this
    {
      block == b && off <= o < off + size
    }
  }

  /** How the caches and the device are laid out. */
  datatype Geometry = Geometry(readSize: int, progSize: int, cacheSize: int, blockSize: int, blockCount: int) {
    /** Caches are made of whole read and program units, blocks of whole caches, and program units of whole
        read units. */
    predicate Valid() {
      && 0 < readSize && 0 < progSize && 0 < cacheSize && 0 < blockSize && 0 < blockCount < NULL_BLOCK
      && Aligned(progSize, readSize) && Aligned(cacheSize, progSize) && Aligned(blockSize, cacheSize)
    }
  }

  predicate Whole(dev: Blocks, g: Geometry) {
    forall b | 0 <= b < g.blockCount :: b in dev && |dev[b]| == g.blockSize
  }

  /** The cache holds, from an aligned offset on, what fits into it and into the block. */
  ghost predicate Fits(c: Cache, g: Geometry, unit: int)
    requires unit > 0
    reads c
  {
    && c.buffer.Length == g.cacheSize
    && (0 <= c.block < g.blockCount ==>
          0 <= c.off && 0 <= c.size <= g.cacheSize && c.off + c.size <= g.blockSize && Aligned(c.off, unit))
  }

  /** The read cache holds what is on the device. */
  ghost predicate Coherent(c: Cache, g: Geometry, dev: Blocks)
    requires g.Valid() && Whole(dev, g)
    reads c, c.buffer
  {
    && Fits(c, g, g.readSize)
    && (0 <= c.block < g.blockCount ==> c.buffer[..c.size] == dev[c.block][c.off..c.off + c.size])
  }

  /** A block as the program cache has it: the cached bytes in the place of those on the device. */
  ghost function View(p: Cache?, g: Geometry, dev: Blocks, b: int): (v: seq<Byte>)
    requires g.Valid() && Whole(dev, g) && 0 <= b < g.blockCount && (p != null ==> Fits(p, g, g.progSize))
    reads p, if p == null then {} else {p.buffer}
    ensures |v| == g.blockSize
  {
    if p != null && p.block == b then Overlay(dev[b], p.off, p.buffer[..p.size]) else dev[b]
  }

  /** Bytes from the program cache. */
  lemma ViewCached(p: Cache, g: Geometry, dev: Blocks, b: int, off: int, n: int)
    requires g.Valid() && Whole(dev, g) && 0 <= b < g.blockCount && Fits(p, g, g.progSize)
    requires p.block == b && p.off <= off && 0 <= n && off + n <= p.off + p.size
    ensures View(p, g, dev, b)[off..off + n] == p.buffer[off - p.off..off - p.off + n]
  {
  }

  /** Bytes the program cache does not hold. */
  lemma ViewRaw(p: Cache?, g: Geometry, dev: Blocks, b: int, off: int, n: int)
    requires g.Valid() && Whole(dev, g) && 0 <= b < g.blockCount && (p != null ==> Fits(p, g, g.progSize))
    requires 0 <= off && 0 <= n && off + n <= g.blockSize
    requires p != null && p.block == b ==> off + n <= p.off || p.off + p.size <= off
    ensures View(p, g, dev, b)[off..off + n] == dev[b][off..off + n]
  {
  }

  lemma ViewMore(v: seq<Byte>, from: int, to: int, n: int)
    requires 0 <= from <= to && 0 <= n && to + n <= |v|
    ensures v[from..to] + v[to..to + n] == v[from..to + n]
  {
  }

  /** What remains up to the next cached byte is worth a read. */
  lemma BypassPositive(g: Geometry, off: int, diff: int, next: int)
    requires g.Valid() && Aligned(off, g.readSize) && off < next && Aligned(next, g.readSize) && diff >= g.readSize
    ensures Min(diff, next - off) >= g.readSize
  {
    hide Aligned;
    AlignedApart(off, next, g.readSize);
  }

  lemma ReadAligned(g: Geometry, off: int)
    requires g.Valid() && Aligned(off, g.progSize)
    ensures Aligned(off, g.readSize)
  {
    hide Aligned;
    AlignedMultiple(off, g.progSize, g.readSize);
  }

  class Device {
    const g: Geometry
    var dev: Blocks

    ghost predicate Valid()
      reads this
    {
      g.Valid() && Whole(dev, g)
    }

    constructor (g: Geometry, dev: Blocks)
      requires g.Valid() && Whole(dev, g)
      ensures Valid() && this.g == g && this.dev == dev
    {
      this.g, this.dev := g, dev;
    }

    /** Fills the read cache with what surrounds an offset. */
    method Load(r: Cache, hint: int, block: int, off: int)
      requires Valid() && Coherent(r, g, dev) && hint > 0
      requires 0 <= block < g.blockCount && 0 <= off < g.blockSize
      modifies r, r.buffer
      ensures Coherent(r, g, dev) && r.Has(block, off)
    {
      hide Aligned, AlignDown, AlignUp;
      AlignDownFacts(off, g.readSize);
      AlignUpFacts(off + hint, g.readSize);
      CacheHoldsUnit(g);
      r.block := block;
      r.off := AlignDown(off, g.readSize);
      r.size := Min(Min(AlignUp(off + hint, g.readSize), g.blockSize) - r.off, g.cacheSize);
      LoadsUnits(g, r.off, AlignUp(off + hint, g.readSize));
      RawRead(r.buffer, block, r.off, r.size);
    }

    /** Reads whole units from the raw device to the front of a buffer. */
    method RawRead(buffer: array<Byte>, block: int, off: int, size: int)
      requires Valid() && 0 <= block < g.blockCount && 0 <= off && 0 <= size <= buffer.Length
        && off + size <= g.blockSize
      requires Aligned(off, g.readSize) && Aligned(size, g.readSize)
      modifies buffer
      ensures buffer[..size] == dev[block][off..off + size]
    {
      for k := 0 to size
        invariant buffer[..k] == dev[block][off..off + k]
      {
        buffer[k] := dev[block][off + k];
      }
    }

    /** One round of the loop of lfs_bd_read: some bytes from a cache or past the caches, or a load that
        the next round reads from. */
    method ReadSome(p: Cache?, r: Cache, hint: int, block: int, off: int, size: int) returns (data: seq<Byte>)
      requires Valid() && Coherent(r, g, dev) && hint > 0 && 0 <= off && 0 < size
      requires 0 <= block < g.blockCount && off + size <= g.blockSize
      requires p != null ==> Fits(p, g, g.progSize) && p != r && p.buffer != r.buffer
      modifies r, r.buffer
      ensures Coherent(r, g, dev)
      ensures |data| <= size && data == View(p, g, dev, block)[off..off + |data|]
      ensures data == [] ==> !old(r.Has(block, off)) && r.Has(block, off)
    {
      hide Aligned, AlignDown, AlignUp, View, Fits, Coherent;
      var diff := size;
      if p != null && block == p.block && off < p.off + p.size {
        if off >= p.off {
          // from the program cache
          diff := Min(diff, p.size - (off - p.off));
          ProgramCacheHit(p, g, dev, block, off, diff);
          return p.buffer[off - p.off..off - p.off + diff];
        }
        // up to what the program cache has
        diff := Min(diff, p.off - off);
      }
      if block == r.block && off < r.off + r.size {
        if off >= r.off {
          // from the read cache
          diff := Min(diff, r.size - (off - r.off));
          ReadCacheHit(p, r, g, dev, block, off, diff);
          return r.buffer[off - r.off..off - r.off + diff];
        }
        // up to what the read cache has
        diff := Min(diff, r.off - off);
      }
      if size >= hint && off % g.readSize == 0 && size >= g.readSize {
        // whole units go past the caches
        Bypassed(p, r, g, dev, block, off, size, diff);
        diff := AlignDown(diff, g.readSize);
        return dev[block][off..off + diff];
      }
      // otherwise the next round reads from the cache
      Load(r, hint, block, off);
      data := [];
    }

    /** One round of lfs_bd_read behind the bytes that have been read from off to o: more bytes, or a load
        of the one that comes next. */
    method ReadRound(p: Cache?, r: Cache, hint: int, block: int, ghost off: int, o: int, n: int, data: seq<Byte>)
      returns (more: seq<Byte>)
      requires Valid() && Coherent(r, g, dev) && hint > 0 && 0 <= off <= o && 0 < n
      requires 0 <= block < g.blockCount && o + n <= g.blockSize
      requires p != null ==> Fits(p, g, g.progSize) && p != r && p.buffer != r.buffer
      requires data == View(p, g, dev, block)[off..o]
      modifies r, r.buffer
      ensures Coherent(r, g, dev) && View(p, g, dev, block) == old(View(p, g, dev, block))
      ensures |data| <= |more| <= |data| + n && more == View(p, g, dev, block)[off..off + |more|]
      ensures |more| == |data| ==> !old(r.Has(block, o)) && r.Has(block, o)
    {
      hide Aligned, View, Coherent, Fits;
      ghost var v := View(p, g, dev, block);
      var some := ReadSome(p, r, hint, block, o, n);
      ViewMore(v, off, o, |some|);
      more := data + some;
    }

    /** lfs_bd_read: the bytes of the block as the program cache has them, for any offset, size and hint. */
    method Read(p: Cache?, r: Cache, hint: int, block: int, off: int, size: int) returns (err: int, data: seq<Byte>)
      requires Valid() && Coherent(r, g, dev) && hint > 0 && 0 <= off && 0 <= size && 0 <= block
      requires p != null ==> Fits(p, g, g.progSize) && p != r && p.buffer != r.buffer
      modifies r, r.buffer
      ensures Coherent(r, g, dev)
      ensures err == if block >= g.blockCount || off + size > g.blockSize then CORRUPT else 0
      ensures err == 0 ==> data == View(p, g, dev, block)[off..off + size]
    {
      hide Aligned, View, Coherent, Fits;
      data := [];
      if block >= g.blockCount || off + size > g.blockSize {
        return CORRUPT, data;
      }
      ghost var loaded := r.Has(block, off);
      while |data| < size
        invariant Coherent(r, g, dev) && |data| <= size
        invariant data == View(p, g, dev, block)[off..off + |data|]
        invariant loaded == r.Has(block, off + |data|)
        decreases size - |data|, if loaded then 0 else 1
      {
        data := ReadRound(p, r, hint, block, off, off + |data|, size - |data|, data);
        loaded := r.Has(block, off + |data|);
      }
      err := 0;
    }

    /** lfs_bd_cmp: compares a stretch of the block piece by piece, in the order of its bytes. */
    method Cmp(p: Cache?, r: Cache, hint: int, block: int, off: int, buffer: seq<Byte>) returns (res: int)
      requires Valid() && Coherent(r, g, dev) && hint >= |buffer|
      requires 0 <= block < g.blockCount && 0 <= off && off + |buffer| <= g.blockSize
      requires p != null ==> Fits(p, g, g.progSize) && p != r && p.buffer != r.buffer
      modifies r, r.buffer
      ensures Coherent(r, g, dev)
      ensures Compared(res, View(p, g, dev, block)[off..off + |buffer|], buffer)
    {
      hide Aligned, View, Coherent, Fits, Below;
      ghost var v := View(p, g, dev, block);
      ghost var s := v[off..off + |buffer|];
      var i := 0;
      while i < |buffer|
        invariant Coherent(r, g, dev) && View(p, g, dev, block) == v
        invariant 0 <= i <= |buffer| && s[..i] == buffer[..i]
        decreases |buffer| - i
      {
        var diff := Min(|buffer| - i, 8);
        var err, dat := Read(p, r, hint - i, block, off + i, diff);
        assert dat == s[i..i + diff] by { SubSlice(v, off, off + |buffer|, i, i + diff); }
        var c := Memcmp(dat, buffer[i..i + diff]);
        if c != 0 {
          Later(s, buffer, i, diff);
          return if c < 0 then CMP_LT else CMP_GT;
        }
        Further(s, buffer, i, diff);
        i := i + diff;
      }
      assert s == buffer by { assert s[..i] == s && buffer[..i] == buffer; }
      res := CMP_EQ;
    }

    /** Programs whole units on the raw device. */
    method RawProg(block: int, off: int, data: seq<Byte>)
      requires Valid() && 0 <= block < g.blockCount && 0 <= off && off + |data| <= g.blockSize
      requires Aligned(off, g.progSize) && Aligned(|data|, g.progSize)
      modifies this
      ensures Valid() && dev == old(dev)[block := Overlay(old(dev)[block], off, data)]
    {
      dev := dev[block := Overlay(dev[block], off, data)];
    }

    /** The units with the cached bytes are on the device. */
    ghost predicate FlushedTo(before: Blocks, after: Blocks, block: int, off: int, size: int, buffer: seq<Byte>)
      requires g.Valid() && Whole(before, g) && 0 <= block < g.blockCount
    {
      var diff := AlignUp(size, g.progSize);
      && 0 <= size <= diff <= |buffer| && 0 <= off && off + diff <= g.blockSize
      && after == before[block := Overlay(before[block], off, buffer[..diff])]
    }

    /** lfs_bd_flush: programs the whole units the cached bytes lie in, and checks them if asked to. The
        cache is left empty and cleared. */
    method Flush(p: Cache, r: Cache, validate: bool) returns (err: int)
      requires Valid() && Fits(p, g, g.progSize) && (p.block == NULL_BLOCK || 0 <= p.block < g.blockCount)
      requires r.buffer.Length == g.cacheSize && p != r && p.buffer != r.buffer
      modifies this, p, p.buffer, r, r.buffer
      ensures Valid() && err == 0 && p.block == NULL_BLOCK && Fits(p, g, g.progSize)
      ensures old(p.block) != NULL_BLOCK ==> Cleared(p, 0)
      ensures old(p.block) == NULL_BLOCK ==> dev == old(dev) && p.buffer[..] == old(p.buffer[..])
      ensures old(p.block) != NULL_BLOCK ==>
        FlushedTo(old(dev), dev, old(p.block), old(p.off), old(p.size), old(p.buffer[..]))
      ensures !validate ==> unchanged(r) && r.buffer[..] == old(r.buffer[..])
      ensures validate && old(p.block) != NULL_BLOCK ==> Coherent(r, g, dev)
      ensures validate && old(p.block) == NULL_BLOCK ==> unchanged(r) && r.buffer[..] == old(r.buffer[..])
    {
      hide Aligned, AlignUp, Overlay, View;
      if p.block != NULL_BLOCK {
        UnitsFit(p, g);
        var diff := AlignUp(p.size, g.progSize);
        assert p.buffer[..][..diff] == p.buffer[..diff];
        RawProg(p.block, p.off, p.buffer[..diff]);
        if validate {
          r.block := NULL_BLOCK;
          var res := Cmp(null, r, diff, p.block, p.off, p.buffer[..diff]);
          ReadsBack(old(dev)[p.block], p.off, p.buffer[..diff]);
          assert res == CMP_EQ by { ViewNull(g, dev, p.block); }
          if res != CMP_EQ {
            return CORRUPT;
          }
        }
        Zero(p);
      }
      err := 0;
    }

    /** Bytes can be cached for off of that block: the cache is empty, or has the block and room for the byte
        at off. What the cache takes along before off, from the start of the unit or behind the bytes that
        it has, is erased. */
    ghost predicate Open(p: Cache, block: int, off: int)
      requires g.Valid() && Whole(dev, g) && 0 <= block < g.blockCount && 0 <= off <= g.blockSize
      reads this, p, p.buffer
    {
      && Fits(p, g, g.progSize)
      && ((p.block == NULL_BLOCK && Cleared(p, 0) && ErasedIn(dev[block], AlignDown(off, g.progSize), off))
          || (p.block == block && 0 <= p.size < g.cacheSize && p.off <= off < p.off + g.cacheSize && Cleared(p, p.size)
              && ErasedIn(dev[block], p.off + p.size, off)))
    }

    /** Prepares an empty cache for a block, from the start of the unit that off lies in. */
    method Take(p: Cache, block: int, off: int)
      requires Valid() && 0 <= block < g.blockCount && 0 <= off < g.blockSize
      requires Open(p, block, off) && p.block == NULL_BLOCK
      modifies p
      ensures Open(p, block, off) && p.block == block
      ensures View(p, g, dev, block) == old(View(p, g, dev, block))
    {
      hide Aligned, AlignDown;
      CacheHoldsUnit(g);
      AlignDownFacts(off, g.progSize);
      p.block := block;
      p.off := AlignDown(off, g.progSize);
      p.size := 0;
    }

    /** Copies bytes into the cache at position o. */
    method Put(p: Cache, o: int, data: seq<Byte>)
      requires 0 <= o && 0 <= p.size <= p.buffer.Length && o + |data| <= p.buffer.Length && Cleared(p, p.size)
      modifies p`size, p.buffer
      ensures p.size == Max(old(p.size), o + |data|) && Cleared(p, p.size)
      ensures p.buffer[..] == Overlay(old(p.buffer[..]), o, data)
    {
      ghost var was := p.buffer[..];
      for k := 0 to |data|
        modifies p.buffer
        invariant forall j | 0 <= j < p.buffer.Length :: p.buffer[j] == if o <= j < o + k then data[j - o] else was[j]
      {
        p.buffer[o + k] := data[k];
      }
      p.size := Max(p.size, o + |data|);
    }

    /** Bytes put into the cache of the block show in its view. */
    method PutSome(p: Cache, block: int, off: int, data: seq<Byte>)
      requires Valid() && 0 <= block < g.blockCount && 0 <= off && off + |data| <= g.blockSize
      requires Open(p, block, off) && p.block == block && 0 < |data| <= g.cacheSize - (off - p.off)
      modifies p`size, p.buffer
      ensures Fits(p, g, g.progSize) && Cleared(p, p.size) && p.size == Max(old(p.size), off - p.off + |data|)
      ensures View(p, g, dev, block) == Overlay(old(View(p, g, dev, block)), off, data)
    {
      hide Aligned, AlignDown;
      ghost var was, size := p.buffer[..], p.size;
      assert p.buffer[..size] == was[..size];
      Put(p, off - p.off, data);
      assert p.buffer[..p.size] == p.buffer[..][..p.size];
      OverlayInto(dev[block], p.off, was, size, off - p.off, data);
    }

    /** A full cache is flushed: the block reads as before, without the cache. */
    method FlushFull(p: Cache, r: Cache, validate: bool, block: int)
      requires Valid() && Fits(p, g, g.progSize) && p.block == block && 0 <= block < g.blockCount
      requires p.size == g.cacheSize && r.buffer.Length == g.cacheSize && p != r && p.buffer != r.buffer
      modifies this, p, p.buffer, r, r.buffer
      ensures Valid() && p.block == NULL_BLOCK && old(p.off) + g.cacheSize <= g.blockSize
      ensures Open(p, block, old(p.off) + g.cacheSize)
      ensures View(p, g, dev, block) == old(View(p, g, dev, block))
      ensures forall b | 0 <= b < g.blockCount && b != block :: dev[b] == old(dev)[b]
    {
      hide Aligned, AlignUp, AlignDown, Overlay;
      WholeCache(g, p.off);
      AlignDownFacts(p.off + g.cacheSize, g.progSize);
      assert p.buffer[..p.size] == p.buffer[..][..p.size];
      var err := Flush(p, r, validate);
    }

    /** One round of the loop of lfs_bd_prog: as much as fits goes into the cache. */
    method ProgSome(p: Cache, r: Cache, validate: bool, block: int, off: int, data: seq<Byte>) returns (n: int)
      requires Valid() && 0 <= block < g.blockCount && 0 < |data| && 0 <= off && off + |data| <= g.blockSize
      requires Open(p, block, off) && r.buffer.Length == g.cacheSize && p != r && p.buffer != r.buffer
      modifies this, p, p.buffer, r, r.buffer
      ensures Valid() && 0 < n <= |data| && Open(p, block, off + n) && Behind(p, block, off + n)
      ensures View(p, g, dev, block) == Overlay(old(View(p, g, dev, block)), off, data[..n])
      ensures forall b | 0 <= b < g.blockCount && b != block :: dev[b] == old(dev)[b]
    {
      hide Aligned, AlignDown, View, Overlay, Cleared, Whole;
      if p.block == NULL_BLOCK {
        Take(p, block, off);
      }
      n := Min(|data|, g.cacheSize - (off - p.off));
      PutSome(p, block, off, data[..n]);
      if p.size == g.cacheSize {
        FlushFull(p, r, validate, block);
      }
    }

    /** What the cache holds of the block reaches at least up to off. */
    ghost predicate Behind(p: Cache, block: int, off: int)
      reads p
    {
      p.block == block ==> off <= p.off + p.size
    }

    /** lfs_bd_prog: the block reads as if the bytes were programmed. */
    method Prog(p: Cache, r: Cache, validate: bool, block: int, off: int, data: seq<Byte>)
      requires Valid() && 0 <= block < g.blockCount && 0 <= off && off + |data| <= g.blockSize
      requires Open(p, block, off) && r.buffer.Length == g.cacheSize && p != r && p.buffer != r.buffer
      modifies this, p, p.buffer, r, r.buffer
      ensures Valid() && Open(p, block, off + |data|)
      ensures data != [] || old(Behind(p, block, off)) ==> Behind(p, block, off + |data|)
      ensures View(p, g, dev, block) == Overlay(old(View(p, g, dev, block)), off, data)
      ensures forall b | 0 <= b < g.blockCount && b != block :: dev[b] == old(dev)[b]
    {
      hide Aligned, AlignDown, View, Overlay, Cleared, Open, Behind;
      OpenFits(p, block, off);
      ghost var v := View(p, g, dev, block);
      var n := 0;
      OverlayNothing(v, off);
      assert data[..0] == [];
      while n < |data|
        invariant Valid() && 0 <= n <= |data| && Open(p, block, off + n) && Fits(p, g, g.progSize)
        invariant n > 0 || old(Behind(p, block, off)) ==> Behind(p, block, off + n)
        invariant View(p, g, dev, block) == Overlay(v, off, data[..n])
        invariant forall b | 0 <= b < g.blockCount && b != block :: dev[b] == old(dev)[b]
        decreases |data| - n
      {
        var k := ProgSome(p, r, validate, block, off + n, data[n..]);
        OpenFits(p, block, off + n + k);
        OverlayMore(v, off, data[..n], data[n..][..k]);
        assert data[..n + k] == data[..n] + data[n..][..k];
        n := n + k;
      }
      assert data[..n] == data;
    }

    lemma OpenFits(p: Cache, block: int, off: int)
      requires Valid() && 0 <= block < g.blockCount && 0 <= off <= g.blockSize && Open(p, block, off)
      ensures Fits(p, g, g.progSize)
    {
    }

    /** lfs_bd_sync: when the storage behind the cached bytes is erased, what was cached is on the device,
        and nothing else is changed. */
    method Sync(p: Cache, r: Cache, validate: bool, block: int, off: int)
      requires Valid() && 0 <= block < g.blockCount && 0 <= off <= g.blockSize
      requires Open(p, block, off) && Behind(p, block, off) && Blank(View(p, g, dev, block), off)
      requires r.buffer.Length == g.cacheSize && p != r && p.buffer != r.buffer
      modifies this, p, p.buffer, r, r.buffer
      ensures Valid() && p.block == NULL_BLOCK && Cleared(p, 0) && Coherent(r, g, dev)
      ensures dev[block] == old(View(p, g, dev, block))
      ensures forall b | 0 <= b < g.blockCount && b != block :: dev[b] == old(dev)[b]
    {
      hide Aligned, AlignUp, AlignDown, Overlay;
      r.block := NULL_BLOCK;
      if p.block == block {
        UnitsFit(p, g);
        PaddedBlank(dev[block], p.off, p.buffer[..], p.size, AlignUp(p.size, g.progSize));
        assert p.buffer[..][..p.size] == p.buffer[..p.size];
      }
      var err := Flush(p, r, validate);
    }

    /** However a stretch of bytes is split into contiguous writes, programming them and syncing puts it on
        the block, which is erased from the start of the first unit on. */
    method ProgAll(p: Cache, r: Cache, validate: bool, block: int, off: int, chunks: seq<seq<Byte>>)
      requires Valid() && Fits(p, g, g.progSize) && p.block == NULL_BLOCK && Cleared(p, 0)
      requires 0 <= block < g.blockCount && 0 <= off && off + |Concat(chunks)| <= g.blockSize
      requires ErasedIn(dev[block], AlignDown(off, g.progSize), off) && Blank(dev[block], off)
      requires r.buffer.Length == g.cacheSize && p != r && p.buffer != r.buffer
      modifies this, p, p.buffer, r, r.buffer
      ensures Valid() && p.block == NULL_BLOCK && Cleared(p, 0) && Coherent(r, g, dev)
      ensures dev[block] == Overlay(old(dev)[block], off, Concat(chunks))
      ensures forall b | 0 <= b < g.blockCount && b != block :: dev[b] == old(dev)[b]
    {
      hide Aligned, AlignDown, View, Overlay, Cleared, Blank, Open, Behind;
      ghost var v := View(p, g, dev, block);
      assert v == dev[block] by { ViewEmpty(p, g, dev, block); }
      OpenEmpty(p, block, off);
      OverlayNothing(v, off);
      assert chunks[..0] == [];
      for i := 0 to |chunks|
        invariant |Concat(chunks[..i])| <= |Concat(chunks)| && Fits(p, g, g.progSize)
        invariant Valid() && Open(p, block, off + |Concat(chunks[..i])|)
          && Behind(p, block, off + |Concat(chunks[..i])|)
        invariant View(p, g, dev, block) == Overlay(v, off, Concat(chunks[..i]))
        invariant forall b | 0 <= b < g.blockCount && b != block :: dev[b] == old(dev)[b]
      {
        ConcatMore(chunks, i);
        Prog(p, r, validate, block, off + |Concat(chunks[..i])|, chunks[i]);
        OpenFits(p, block, off + |Concat(chunks[..i + 1])|);
        OverlayMore(v, off, Concat(chunks[..i]), chunks[i]);
      }
      assert chunks[..|chunks|] == chunks;
      BlankBehind(v, off, Concat(chunks));
      Sync(p, r, validate, block, off + |Concat(chunks)|);
    }

    lemma OpenEmpty(p: Cache, block: int, off: int)
      requires Valid() && 0 <= block < g.blockCount && 0 <= off <= g.blockSize && Fits(p, g, g.progSize)
      requires p.block == NULL_BLOCK && Cleared(p, 0) && ErasedIn(dev[block], AlignDown(off, g.progSize), off)
      ensures Open(p, block, off) && Behind(p, block, off)
    {
      hide AlignDown, Cleared;
    }

    /** lfs_cache_zero. */
    method Zero(p: Cache)
      modifies p`block, p.buffer
      ensures p.block == NULL_BLOCK && Cleared(p, 0)
    {
      for k := 0 to p.buffer.Length
        modifies p.buffer
        invariant forall j | 0 <= j < k :: p.buffer[j] == 0xff
      {
        p.buffer[k] := 0xff;
      }
      p.block := NULL_BLOCK;
    }
  }

  /** The cache is clear from there on. */
  ghost predicate Cleared(p: Cache, from: int)
    requires 0 <= from
    reads p, p.buffer
  {
    forall k | from <= k < p.buffer.Length :: p.buffer[k] == 0xff
  }

  function Concat(chunks: seq<seq<Byte>>): seq<Byte> {
    if chunks == [] then [] else Concat(chunks[..|chunks| - 1]) + chunks[|chunks| - 1]
  }

  lemma {:induction false} ConcatMore(chunks: seq<seq<Byte>>, i: nat)
    requires i < |chunks|
    ensures Concat(chunks[..i + 1]) == Concat(chunks[..i]) + chunks[i]
    ensures |Concat(chunks[..i + 1])| <= |Concat(chunks)|
    decreases |chunks|
  {
    assert chunks[..i + 1][..i] == chunks[..i];
    if i + 1 < |chunks| {
      ConcatMore(chunks[..|chunks| - 1], i);
      assert chunks[..|chunks| - 1][..i + 1] == chunks[..i + 1];
    } else {
      assert chunks[..i + 1] == chunks;
    }
  }

  /** Padding the cached bytes to whole units changes nothing where the storage is erased. */
  lemma PaddedBlank(s: seq<Byte>, off: int, buffer: seq<Byte>, size: int, padded: int)
    requires 0 <= size <= padded <= |buffer| && 0 <= off && off + padded <= |s|
    requires forall k | size <= k < |buffer| :: buffer[k] == 0xff
    requires Blank(Overlay(s, off, buffer[..size]), off + size)
    ensures Overlay(s, off, buffer[..padded]) == Overlay(s, off, buffer[..size])
  {
    var a, b := Overlay(s, off, buffer[..padded]), Overlay(s, off, buffer[..size]);
    forall k | 0 <= k < |s|
      ensures a[k] == b[k]
    {
      if off + size <= k {
        assert b[k] == 0xff;
      }
    }
  }

  lemma ViewEmpty(p: Cache, g: Geometry, dev: Blocks, b: int)
    requires g.Valid() && Whole(dev, g) && 0 <= b < g.blockCount && Fits(p, g, g.progSize) && p.block == NULL_BLOCK
    ensures View(p, g, dev, b) == dev[b]
  {
  }

  lemma OverlayMore(s: seq<Byte>, off: int, a: seq<Byte>, b: seq<Byte>)
    requires 0 <= off && off + |a| + |b| <= |s|
    ensures Overlay(s, off, a + b) == Overlay(Overlay(s, off, a), off + |a|, b)
  {
  }

  function Max(a: int, b: int): int {
    if a < b then b else a
  }

  /** Bytes put into a cached stretch or behind it, over a gap that is erased on the device and clear in the
      cache, show as if they were programmed. */
  lemma OverlayInto(s: seq<Byte>, at: int, buffer: seq<Byte>, size: int, o: int, d: seq<Byte>)
    requires 0 <= size <= |buffer| && 0 <= o && o + |d| <= |buffer| && 0 <= at && at + Max(size, o + |d|) <= |s|
    requires forall k | size <= k < |buffer| :: buffer[k] == 0xff
    requires ErasedIn(s, at + size, at + o)
    ensures Overlay(s, at, Overlay(buffer, o, d)[..Max(size, o + |d|)])
      == Overlay(Overlay(s, at, buffer[..size]), at + o, d)
  {
    hide Overlay;
    var n := Max(size, o + |d|);
    var into, under := Overlay(buffer, o, d), Overlay(s, at, buffer[..size]);
    var a, b := Overlay(s, at, into[..n]), Overlay(under, at + o, d);
    forall k | 0 <= k < |s|
      ensures a[k] == b[k]
    {
      OverlayAt(s, at, into[..n], k);
      OverlayAt(under, at + o, d, k);
      OverlayAt(s, at, buffer[..size], k);
      if at <= k < at + n {
        OverlayAt(buffer, o, d, k - at);
      }
    }
  }

  lemma OverlayAt(s: seq<Byte>, off: int, d: seq<Byte>, k: int)
    requires 0 <= off && off + |d| <= |s| && 0 <= k < |s|
    ensures Overlay(s, off, d)[k] == if off <= k < off + |d| then d[k - off] else s[k]
  {
  }

  lemma OverlayNothing(s: seq<Byte>, off: int)
    requires 0 <= off <= |s|
    ensures Overlay(s, off, []) == s
  {
  }

  /** A whole cache is made of whole units. */
  lemma WholeCache(g: Geometry, off: int)
    requires g.Valid()
    ensures AlignUp(g.cacheSize, g.progSize) == g.cacheSize
    ensures Aligned(off, g.progSize) ==> Aligned(off + g.cacheSize, g.progSize)
  {
    hide Aligned, AlignUp;
    AlignUpFacts(g.cacheSize, g.progSize);
    if AlignUp(g.cacheSize, g.progSize) > g.cacheSize {
      AlignedApart(g.cacheSize, AlignUp(g.cacheSize, g.progSize), g.progSize);
    }
    if Aligned(off, g.progSize) {
      AlignedSum(off, g.cacheSize, g.progSize);
    }
  }

  const CMP_EQ := 0
  const CMP_LT := 1
  const CMP_GT := 2

  /** The bytes agree up to a place where the first ones are smaller. */
  ghost predicate Below(a: seq<Byte>, b: seq<Byte>)
    requires |a| == |b|
  {
    exists k | 0 <= k < |a| :: a[..k] == b[..k] && a[k] < b[k]
  }

  function Memcmp(a: seq<Byte>, b: seq<Byte>): (c: int)
    requires |a| == |b|
    ensures c == 0 ==> a == b
    ensures c < 0 ==> Below(a, b)
    ensures c > 0 ==> Below(b, a)
  {
    if a == [] then 0
    else if a[0] != b[0] then
      assert a[..0] == b[..0];
      a[0] - b[0]
    else
      FirstSame(a, b);
      Memcmp(a[1..], b[1..])
  }

  lemma FirstSame(a: seq<Byte>, b: seq<Byte>)
    requires |a| == |b| > 0 && a[0] == b[0]
    ensures a[1..] == b[1..] ==> a == b
    ensures Below(a[1..], b[1..]) ==> Below(a, b)
    ensures Below(b[1..], a[1..]) ==> Below(b, a)
  {
    hide Below;
    assert a == [a[0]] + a[1..] && b == [b[0]] + b[1..];
    assert a[..1] == [a[0]] == b[..1];
    assert a[1..1 + (|a| - 1)] == a[1..] && b[1..1 + (|a| - 1)] == b[1..];
    Later(a, b, 1, |a| - 1);
  }

  /** What a comparison of two stretches of bytes returns. */
  ghost predicate Compared(res: int, a: seq<Byte>, b: seq<Byte>)
    requires |a| == |b|
  {
    || (res == CMP_EQ && a == b)
    || (res == CMP_LT && Below(a, b))
    || (res == CMP_GT && Below(b, a))
  }

  /** At most one of the answers is right. */
  lemma ComparedOnce(a: seq<Byte>, b: seq<Byte>, r: int, s: int)
    requires |a| == |b| && Compared(r, a, b) && Compared(s, a, b)
    ensures r == s
  {
    if Below(a, b) {
      NotAbove(a, b);
    }
  }

  lemma NotAbove(a: seq<Byte>, b: seq<Byte>)
    requires |a| == |b| && Below(a, b)
    ensures !Below(b, a)
  {
    var i :| 0 <= i < |a| && a[..i] == b[..i] && a[i] < b[i];
    forall j | 0 <= j < |a| && b[..j] == a[..j]
      ensures a[j] <= b[j]
    {
      if j < i {
        SameBefore(a, b, i, j);
      } else if i < j {
        SameBefore(a, b, j, i);
      }
    }
  }

  lemma SameBefore(a: seq<Byte>, b: seq<Byte>, k: int, j: int)
    requires 0 <= j < k <= |a| == |b| && a[..k] == b[..k]
    ensures a[j] == b[j]
  {
    assert a[..k][j] == b[..k][j];
  }

  /** Where the bytes agree before a piece, the order of the pieces is that of the whole. */
  lemma Later(a: seq<Byte>, b: seq<Byte>, i: int, n: int)
    requires |a| == |b| && 0 <= i && 0 <= n && i + n <= |a| && a[..i] == b[..i]
    ensures Below(a[i..i + n], b[i..i + n]) ==> Below(a, b)
    ensures Below(b[i..i + n], a[i..i + n]) ==> Below(b, a)
  {
    LaterBelow(a, b, i, n);
    LaterBelow(b, a, i, n);
  }

  lemma LaterBelow(a: seq<Byte>, b: seq<Byte>, i: int, n: int)
    requires |a| == |b| && 0 <= i && 0 <= n && i + n <= |a| && a[..i] == b[..i]
    ensures Below(a[i..i + n], b[i..i + n]) ==> Below(a, b)
  {
    var x, y := a[i..i + n], b[i..i + n];
    if Below(x, y) {
      var k :| 0 <= k < n && x[..k] == y[..k] && x[k] < y[k];
      SubSlice(a, i, i + n, 0, k);
      SubSlice(b, i, i + n, 0, k);
      assert a[..i + k] == a[..i] + a[i..i + k] && b[..i + k] == b[..i] + b[i..i + k];
      assert a[..i + k] == b[..i + k] && a[i + k] < b[i + k];
    }
  }

  lemma Further(a: seq<Byte>, b: seq<Byte>, i: int, n: int)
    requires |a| == |b| && 0 <= i && 0 <= n && i + n <= |a| && a[..i] == b[..i] && a[i..i + n] == b[i..i + n]
    ensures a[..i + n] == b[..i + n]
  {
    assert a[..i + n] == a[..i] + a[i..i + n] && b[..i + n] == b[..i] + b[i..i + n];
  }

  lemma ReadsBack(s: seq<Byte>, off: int, d: seq<Byte>)
    requires 0 <= off && off + |d| <= |s|
    ensures Overlay(s, off, d)[off..off + |d|] == d
  {
  }

  lemma ViewNull(g: Geometry, dev: Blocks, b: int)
    requires g.Valid() && Whole(dev, g) && 0 <= b < g.blockCount
    ensures View(null, g, dev, b) == dev[b]
  {
  }

  /** The units the cached bytes lie in are within the cache and within the block. */
  lemma UnitsFit(p: Cache, g: Geometry)
    requires g.Valid() && Fits(p, g, g.progSize) && 0 <= p.block < g.blockCount
    ensures p.size <= AlignUp(p.size, g.progSize) <= p.buffer.Length
    ensures p.off + AlignUp(p.size, g.progSize) <= g.blockSize
    ensures Aligned(p.off, g.progSize) && Aligned(AlignUp(p.size, g.progSize), g.progSize)
  {
    hide Aligned, AlignUp;
    AlignUpFacts(p.size, g.progSize);
    AlignedMultiple(g.blockSize, g.cacheSize, g.progSize);
    AlignedSum(g.blockSize, p.off, g.progSize);
    if AlignUp(p.size, g.progSize) > g.cacheSize {
      AlignedApart(g.cacheSize, AlignUp(p.size, g.progSize), g.progSize);
    }
    if AlignUp(p.size, g.progSize) > g.blockSize - p.off {
      AlignedApart(g.blockSize - p.off, AlignUp(p.size, g.progSize), g.progSize);
    }
  }

  lemma LoadsUnits(g: Geometry, off: int, end: int)
    requires g.Valid() && Aligned(off, g.readSize) && Aligned(end, g.readSize)
    ensures Aligned(Min(Min(end, g.blockSize) - off, g.cacheSize), g.readSize)
  {
    hide Aligned;
    AlignedMultiple(g.cacheSize, g.progSize, g.readSize);
    AlignedMultiple(g.blockSize, g.cacheSize, g.readSize);
    AlignedSum(end, off, g.readSize);
    AlignedSum(g.blockSize, off, g.readSize);
  }

  lemma CacheHoldsUnit(g: Geometry)
    requires g.Valid()
    ensures g.readSize <= g.progSize <= g.cacheSize <= g.blockSize
  {
    hide Aligned;
    AlignedAtLeast(g.progSize, g.readSize);
    AlignedAtLeast(g.cacheSize, g.progSize);
    AlignedAtLeast(g.blockSize, g.cacheSize);
  }

  lemma AlignedAtLeast(a: int, m: int)
    requires m > 0 && a > 0 && Aligned(a, m)
    ensures a >= m
  {
  }

  lemma ProgramCacheHit(p: Cache, g: Geometry, dev: Blocks, block: int, off: int, n: int)
    requires g.Valid() && Whole(dev, g) && 0 <= block < g.blockCount && Fits(p, g, g.progSize)
    requires p.block == block && p.off <= off && 0 <= n && off + n <= p.off + p.size
    ensures 0 <= off - p.off && off - p.off + n <= p.buffer.Length && off + n <= g.blockSize
    ensures View(p, g, dev, block)[off..off + n] == p.buffer[off - p.off..off - p.off + n]
  {
    hide View, Aligned;
    ViewCached(p, g, dev, block, off, n);
  }

  lemma ReadCacheHit(p: Cache?, r: Cache, g: Geometry, dev: Blocks, block: int, off: int, n: int)
    requires g.Valid() && Whole(dev, g) && 0 <= block < g.blockCount && Coherent(r, g, dev)
    requires p != null ==> Fits(p, g, g.progSize)
    requires p != null && p.block == block ==> off + n <= p.off || p.off + p.size <= off
    requires r.block == block && r.off <= off && 0 <= n && off + n <= r.off + r.size
    ensures 0 <= off - r.off && off - r.off + n <= r.buffer.Length && off + n <= g.blockSize
    ensures View(p, g, dev, block)[off..off + n] == r.buffer[off - r.off..off - r.off + n]
  {
    hide View, Aligned;
    ViewRaw(p, g, dev, block, off, n);
    FromReadCache(r, g, dev, off, n);
  }

  lemma Bypassed(p: Cache?, r: Cache, g: Geometry, dev: Blocks, block: int, off: int, size: int, diff: int)
    requires g.Valid() && Whole(dev, g) && 0 <= block < g.blockCount && Coherent(r, g, dev)
    requires p != null ==> Fits(p, g, g.progSize)
    requires 0 <= off && off % g.readSize == 0 && size >= g.readSize && off + size <= g.blockSize
    requires p != null && block == p.block && off < p.off + p.size ==> off < p.off
    requires block == r.block && off < r.off + r.size ==> off < r.off
    requires
      var d := if p != null && block == p.block && off < p.off + p.size then Min(size, p.off - off) else size;
      diff == if block == r.block && off < r.off + r.size then Min(d, r.off - off) else d
    ensures
      var n := AlignDown(diff, g.readSize);
      && 0 < n <= size && View(p, g, dev, block)[off..off + n] == dev[block][off..off + n]
  {
    hide View, AlignDown;
    BypassLength(p, r, g, block, off, size, diff);
    ViewRaw(p, g, dev, block, off, AlignDown(diff, g.readSize));
  }

  lemma FromReadCache(r: Cache, g: Geometry, dev: Blocks, o: int, n: int)
    requires g.Valid() && Whole(dev, g) && Coherent(r, g, dev) && 0 <= r.block < g.blockCount
    requires r.off <= o && 0 <= n && o + n <= r.off + r.size
    ensures r.buffer[o - r.off..o - r.off + n] == dev[r.block][o..o + n]
  {
    SubSlice(dev[r.block], r.off, r.off + r.size, o - r.off, o - r.off + n);
    assert r.buffer[..r.size][o - r.off..o - r.off + n] == r.buffer[o - r.off..o - r.off + n];
  }

  /** The bypass reads at least one unit, up to the next cached byte at most. */
  lemma BypassLength(p: Cache?, r: Cache, g: Geometry, block: int, o: int, n: int, diff: int)
    requires g.Valid() && 0 <= block < g.blockCount && 0 <= o && o % g.readSize == 0 && n >= g.readSize
    requires (p != null ==> Fits(p, g, g.progSize)) && Fits(r, g, g.readSize)
    requires p != null && block == p.block && o < p.off + p.size ==> o < p.off
    requires block == r.block && o < r.off + r.size ==> o < r.off
    requires
      var d := if p != null && block == p.block && o < p.off + p.size then Min(n, p.off - o) else n;
      diff == if block == r.block && o < r.off + r.size then Min(d, r.off - o) else d
    ensures 0 < AlignDown(diff, g.readSize) <= diff <= n
  {
    hide AlignDown;
    var d := n;
    if p != null && block == p.block && o < p.off + p.size {
      ReadAligned(g, p.off);
      BypassPositive(g, o, d, p.off);
      d := Min(d, p.off - o);
    }
    if block == r.block && o < r.off + r.size {
      BypassPositive(g, o, d, r.off);
      d := Min(d, r.off - o);
    }
    AlignDownFacts(diff, g.readSize);
  }
}
