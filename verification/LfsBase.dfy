/** What several parts of littlefs have in common. */
module LfsBase {
  datatype Option<T> = None | Some(value: T)

  type Byte = x: int | 0 <= x < 256 witness 0

  /** The bytes of the blocks of a device. */
  type Blocks = map<int, seq<Byte>>

  /** The block number that stands for no block. */
  const NULL_BLOCK := 0xffff_ffff

  const ISDIR := -21
  const FBIG := -27
  const NOSPC := -28
  const NAMETOOLONG := -36
  const NOTEMPTY := -39
  const CORRUPT := -84

  function Min(a: int, b: int): int {
    if a < b then a else b
  }

  /** Bytes in the place of those from off on. */
  function Overlay(s: seq<Byte>, off: int, d: seq<Byte>): (r: seq<Byte>)
    requires 0 <= off && off + |d| <= |s|
    ensures |r| == |s|
  {
    s[..off] + d + s[off + |d|..]
  }

  /** The storage is erased from there on. */
  predicate Blank(s: seq<Byte>, from: int)
    requires 0 <= from
  {
    forall k | from <= k < |s| :: s[k] == 0xff
  }

  /** The storage between the two offsets is erased. */
  predicate ErasedIn(s: seq<Byte>, from: int, to: int) {
    forall k | 0 <= k < |s| && from <= k < to :: s[k] == 0xff
  }

  /** Programming erased storage leaves what is behind erased. */
  lemma BlankBehind(s: seq<Byte>, off: int, d: seq<Byte>)
    requires 0 <= off && off + |d| <= |s| && Blank(s, off)
    ensures Blank(Overlay(s, off, d), off + |d|)
  {
  }

  lemma SubSlice<T>(s: seq<T>, lo: int, hi: int, i: int, j: int)
    requires 0 <= lo <= hi <= |s| && 0 <= i <= j <= hi - lo
    ensures s[lo..hi][i..j] == s[lo + i..lo + j]
  {
    forall k | 0 <= k < j - i
      ensures s[lo..hi][i..j][k] == s[lo + i..lo + j][k]
    {
      assert s[lo..hi][i + k] == s[lo + (i + k)];
    }
  }
}
