/** The block allocator: a window of lookahead bits that moves over all blocks, and a budget of blocks to
    look at until the next acknowledgement. */
module Allocator {
  import opened LfsBase

  lemma ModOf(x: int, n: int)
    requires 0 <= x < 2 * n
    ensures x % n == if x < n then x else x - n
  {
    if x >= n {
      assert x == 1 * n + (x - n);
    }
  }

  /** Position k of a window that starts at off, in n blocks. */
  function At(off: int, k: int, n: int): int {
    if off + k < n then off + k else off + k - n
  }

  /** How many steps back from position p block b lies, all n of them for p itself. */
  function Back(p: int, b: int, n: int): int {
    if b < p then p - b else p - b + n
  }

  /** Looking at one more block: it is a new one, since the budget is not spent. */
  lemma LookedMore(p: int, n: int, ack: int, looked: set<int>)
    requires 0 <= p < n && 0 < ack <= n
    requires forall b | 0 <= b < n :: b in looked <==> Back(p, b, n) <= n - ack
    ensures p !in looked
    ensures forall b | 0 <= b < n :: b in looked || b == p <==> Back(At(p, 1, n), b, n) <= n - (ack - 1)
  {
  }

  class Free {
    const blockCount: int
    /** The blocks of the window, from off on; those up to i were looked at, and a bit tells whether the
        block was in use when the window was scanned. */
    var off: int
    var size: int
    var i: int
    var ack: int
    var buffer: array<bool>

    /** The blocks handed out since the last acknowledgement, the other ones looked at since, what the
        scan of the window reported, and what any scan reported whose window was used since. */
    ghost var handed: set<int>
    ghost var busy: set<int>
    ghost var reported: set<int>
    ghost var seen: set<int>

    /** The block to look at next. */
    ghost function Position(): int
      reads this
    {
      At(off, i, blockCount)
    }

    ghost predicate Shape()
      reads this
    {
      && 0 < blockCount && 0 <= off < blockCount && 0 <= i <= size <= buffer.Length && size <= blockCount
      && buffer.Length > 0
    }

    /** The bits say what the scan reported. */
    ghost predicate Window()
      reads this, buffer
      requires Shape()
    {
      forall k | 0 <= k < size :: buffer[k] <==> At(off, k, blockCount) in reported
    }

    /** Exactly the blocks the budget was spent on since the acknowledgement were looked at. */
    ghost predicate Looked()
      reads this
      requires Shape()
    {
      && handed !! busy && busy <= seen && reported <= seen
      && forall b | 0 <= b < blockCount ::
           b in handed || b in busy <==> Back(Position(), b, blockCount) <= blockCount - ack
    }

    /** The budget always suffices for the rest of the window. */
    ghost predicate Valid()
      reads this, buffer
    {
      Shape() && size - i <= ack <= blockCount && Window() && Looked()
    }

    /** Mounting starts at a random block with an empty window. */
    constructor (blockCount: int, lookaheadSize: nat, seed: nat)
      requires blockCount > 0 && lookaheadSize > 0
      ensures Valid() && handed == {} && busy == {} && fresh(buffer) && this.blockCount == blockCount
      ensures off == seed % blockCount && size == i == 0 && buffer.Length == 8 * lookaheadSize
    {
      this.blockCount := blockCount;
      off := seed % blockCount;
      size, i, ack := 0, 0, blockCount;
      buffer := new bool[8 * lookaheadSize](_ => false);
      handed, busy, reported, seen := {}, {}, {}, {};
    }

    /** lfs_alloc_ack: what was handed out is on record now. */
    method Ack()
      requires Valid()
      modifies `ack, `handed, `busy, `seen
      ensures Valid() && handed == {} && busy == {} && ack == blockCount
    {
      ack := blockCount;
      handed, busy, seen := {}, {}, reported;
    }

    /** lfs_alloc_drop: forgets the window. */
    method Drop()
      requires Shape() && ack <= blockCount
      modifies `size, `i, `ack, `handed, `busy, `seen
      ensures Valid() && handed == {} && busy == {} && size == i == 0
    {
      size, i := 0, 0;
      ack := blockCount;
      handed, busy, seen := {}, {}, reported;
    }

    /** lfs_alloc_lookahead: a block reported by the traversal of the filesystem. */
    method Lookahead(block: int)
      requires Shape() && 0 <= block < blockCount
      modifies buffer
      ensures forall k | 0 <= k < size :: buffer[k] <==> old(buffer[k]) || At(off, k, blockCount) == block
    {
      ModOf(block - off + blockCount, blockCount);
      var o := (block - off + blockCount) % blockCount;
      if o < size {
        buffer[o] := true;
      }
    }

    /** Moves the window on and scans it. */
    method NewWindow(live: seq<int>)
      requires Valid() && i == size && ack > 0
      requires forall k | 0 <= k < |live| :: 0 <= live[k] < blockCount
      modifies `off, `size, `i, `reported, `seen, buffer
      ensures Valid() && i == 0 && size == Min(buffer.Length, ack) && reported == set b | b in live
      ensures Position() == old(Position())
      ensures seen == old(seen) + reported
    {
      ghost var p := Position();
      ModOf(off + size, blockCount);
      off := (off + size) % blockCount;
      size := Min(buffer.Length, ack);
      i := 0;
      for k := 0 to buffer.Length
        modifies buffer
        invariant forall j | 0 <= j < k :: !buffer[j]
      {
        buffer[k] := false;
      }
      for k := 0 to |live|
        modifies buffer
        invariant forall j | 0 <= j < size :: buffer[j] <==> At(off, j, blockCount) in live[..k]
      {
        Lookahead(live[k]);
        assert live[..k + 1] == live[..k] + [live[k]];
      }
      reported := set b | b in live;
      seen := seen + reported;
      assert live[..|live|] == live;
      assert Position() == p;
    }

    /** Looks at the next block of the window. */
    method Look() returns (o: int)
      requires Valid() && i < size
      modifies `i, `ack, `handed, `busy
      ensures Valid() && o == old(i) && i == old(i) + 1 && ack == old(ack) - 1
      ensures
        var b := At(off, o, blockCount);
        && 0 <= b < blockCount && b !in old(handed) && b !in old(busy) && (buffer[o] <==> b in reported)
        && (if buffer[o] then busy == old(busy) + {b} && handed == old(handed)
            else handed == old(handed) + {b} && busy == old(busy))
    {
      o := i;
      ghost var p, b := Position(), At(off, o, blockCount);
      LookedMore(p, blockCount, ack, handed + busy);
      i := i + 1;
      ack := ack - 1;
      if buffer[o] {
        busy := busy + {b};
      } else {
        handed := handed + {b};
      }
    }

    /** Passes over the blocks in use that come next, so that an acknowledgement discredits them. */
    method SkipUsed()
      requires Valid()
      modifies `i, `ack, `handed, `busy
      ensures Valid() && handed == old(handed) && ack <= old(ack)
      ensures i == size || !buffer[i]
    {
      while i != size && buffer[i]
        invariant Valid() && handed == old(handed) && ack <= old(ack)
        decreases size - i
      {
        var o := Look();
      }
    }

    /** With the budget spent, every block was looked at. */
    lemma AllLooked()
      requires Valid() && ack == 0
      ensures forall b | 0 <= b < blockCount :: b in handed || b in seen
    {
    }

    /** lfs_alloc. The traversal reports the blocks in live, or fails with scanErr. */
    method Alloc(live: seq<int>, scanErr: int) returns (err: int, block: int)
      requires Valid() && scanErr <= 0
      requires forall k | 0 <= k < |live| :: 0 <= live[k] < blockCount
      modifies `off, `size, `i, `ack, `handed, `busy, `reported, `seen, buffer
      ensures Valid()
      ensures err == 0 || err == NOSPC || err == scanErr
      ensures err == 0 ==>
        && 0 <= block < blockCount && block !in old(handed) && handed == old(handed) + {block}
        && block !in reported && (reported == old(reported) || reported == set b | b in live)
        && (i == size || !buffer[i])
      ensures err == scanErr && err != 0 && err != NOSPC ==> handed == {} && size == i == 0
      ensures err == NOSPC && scanErr != NOSPC ==>
        && handed == old(handed) && forall b | 0 <= b < blockCount :: b in handed || b in seen
    {
      hide At, Back, Window, Looked;
      while true
        invariant Valid() && handed == old(handed)
        invariant reported == old(reported) || reported == set b | b in live
        decreases ack, if i == size then 1 else 0
      {
        ghost var budget, start := ack, i;
        while i != size
          invariant Valid() && handed == old(handed) && ack == budget - (i - start)
          modifies `i, `ack, `handed, `busy
          decreases size - i
        {
          var o := Look();
          if !buffer[o] {
            block := At(off, o, blockCount);
            SkipUsed();
            return 0, block;
          }
        }
        if ack == 0 {
          AllLooked();
          return NOSPC, 0;
        }
        if scanErr != 0 {
          Drop();
          return scanErr, 0;
        }
        NewWindow(live);
      }
    }
  }
}
