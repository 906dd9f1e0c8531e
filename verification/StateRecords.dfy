/** The global state as it is spread over the logs: records of its exclusive-or deltas, and the pending move
    in it. */
module StateRecords {
  import opened LfsBase
  import opened TagLog
  import opened NameMatch
  import opened GlobalState
  import C = Compaction
  import M = MetadataPair

  const MOVESTATE: bv16 := 0x7ff

  // ---- deltas as records ----

  /** A word as it is stored, the lowest byte first. */
  function WordBytes(w: bv32): (s: seq<bv8>)
    ensures |s| == 4
  {
    [(w & 0xff) as bv8, ((w >> 8) & 0xff) as bv8, ((w >> 16) & 0xff) as bv8, (w >> 24) as bv8]
  }

  function WordAt(s: seq<bv8>, i: nat): bv32
    requires i + 4 <= |s|
  {
    (s[i] as bv32) | ((s[i + 1] as bv32) << 8) | ((s[i + 2] as bv32) << 16) | ((s[i + 3] as bv32) << 24)
  }

  /** The lowest byte comes first. */
  lemma LittleEndian(s: seq<bv8>, i: nat)
    requires i + 4 <= |s|
    ensures WordAt(s, i) == (s[i] as bv32) + (s[i + 1] as bv32) * 0x100 + (s[i + 2] as bv32) * 0x1_0000
                            + (s[i + 3] as bv32) * 0x100_0000
  {
    LittleEndianBytes(s[i], s[i + 1], s[i + 2], s[i + 3]);
  }

  lemma LittleEndianBytes(b0: bv8, b1: bv8, b2: bv8, b3: bv8)
    ensures (b0 as bv32) | ((b1 as bv32) << 8) | ((b2 as bv32) << 16) | ((b3 as bv32) << 24)
         == (b0 as bv32) + (b1 as bv32) * 0x100 + (b2 as bv32) * 0x1_0000 + (b3 as bv32) * 0x100_0000
  {
  }

  lemma WordRoundTrip(w: bv32)
    ensures WordAt(WordBytes(w), 0) == w
  {
  }

  /** lfs_gstate_tole32 and its counterpart: three words. */
  function Encode(g: Gs): (s: seq<bv8>)
    ensures |s| == 12
  {
    WordBytes(g.tag) + WordBytes(g.first) + WordBytes(g.second)
  }

  function Decode(s: seq<bv8>): Gs {
    if |s| < 12 then ZERO else Gs(WordAt(s, 0), WordAt(s, 4), WordAt(s, 8))
  }

  lemma WordWithin(s: seq<bv8>, i: nat, w: bv32)
    requires i + 4 <= |s| && s[i..i + 4] == WordBytes(w)
    ensures WordAt(s, i) == w
  {
    hide WordBytes;
    WordRoundTrip(w);
    var b := s[i..i + 4];
    assert b[0] == s[i] && b[1] == s[i + 1] && b[2] == s[i + 2] && b[3] == s[i + 3];
  }

  /** The tag comes first, then the blocks of the pair in their order; nothing is lost. */
  lemma StateRoundTrip(g: Gs)
    ensures Decode(Encode(g)) == g
    ensures WordAt(Encode(g), 0) == g.tag && WordAt(Encode(g), 4) == g.first && WordAt(Encode(g), 8) == g.second
  {
    hide WordBytes, WordAt;
    var s := Encode(g);
    assert s[0..4] == WordBytes(g.tag) && s[4..8] == WordBytes(g.first) && s[8..12] == WordBytes(g.second);
    WordWithin(s, 0, g.tag);
    WordWithin(s, 4, g.first);
    WordWithin(s, 8, g.second);
  }

  function StateRecord(d: Gs): Record {
    Record(Tag(MOVESTATE, NO_ID, 12), Encode(d))
  }

  /** lfs_dir_getgstate: the delta that the log of a pair holds. */
  function DeltaOf(log: seq<Record>): Gs {
    match LookupAny(log, MOVESTATE, MOVESTATE)
    case None => ZERO
    case Some(a) => Decode(a.data)
  }

  /** Nothing in the records is about the global state. */
  predicate Stateless(log: seq<Record>) {
    forall k | 0 <= k < |log| :: !Agree(MOVESTATE, log[k].tag.ty, MOVESTATE)
  }

  lemma {:induction false} DeltaBehind(log: seq<Record>, more: seq<Record>)
    requires Stateless(more)
    ensures DeltaOf(log + more) == DeltaOf(log)
    decreases |more|
  {
    hide Agree, Decode;
    if more == [] {
      assert log + more == log;
    } else {
      var all := log + more;
      assert all[..|all| - 1] == log + more[..|more| - 1] && all[|all| - 1] == more[|more| - 1];
      DeltaBehind(log, more[..|more| - 1]);
    }
  }

  lemma DeltaLast(log: seq<Record>, d: Gs)
    ensures DeltaOf(log + [StateRecord(d)]) == d
  {
    hide Decode, Encode;
    StateRoundTrip(d);
    assert (log + [StateRecord(d)])[..|log|] == log;
  }

  lemma DeltaNone(log: seq<Record>)
    requires Stateless(log)
    ensures DeltaOf(log) == ZERO
  {
    DeltaBehind([], log);
    assert [] + log == log;
  }

  lemma StateTrailer(d: Gs)
    ensures M.TrailerTag(StateRecord(d).tag)
  {
  }

  lemma {:induction false} KeptStateless(log: seq<Record>)
    requires C.AllKept(log)
    ensures Stateless(log)
  {
    forall k | 0 <= k < |log|
      ensures !Agree(MOVESTATE, log[k].tag.ty, MOVESTATE)
    {
      assert C.Kept(log[k].tag);
    }
  }

  // ---- the pending move ----

  /** lfs_pair_cmp: pairs are the same when they have a block in common. */
  predicate SamePair(a: (bv32, bv32), b: (bv32, bv32)) {
    a.0 == b.0 || a.1 == b.1 || a.0 == b.1 || a.1 == b.0
  }

  function MoveWord(tag: bv32): bv32 {
    (tag & 0x000ffc00) >> 10
  }

  /** The entry of the pair that is about to be moved away. */
  function MoveHere(g: Gs, pair: (bv32, bv32)): Option<int> {
    if g.tag & 0x70000000 != 0 && SamePair((g.first, g.second), pair) then Some(MoveWord(g.tag) as int) else None
  }

  /** lfs_fs_prepmove: a pending move, or none. */
  function PrepMove(g: Gs, move: Option<(bv32, (bv32, bv32))>): Gs {
    match move
    case None => Gs(g.tag & 0x800003ff, 0, 0)
    case Some(m) => Gs((g.tag & 0x800003ff) | ((0x4ff << 20) | (m.0 << 10)), m.1.0, m.1.1)
  }

  /** The part of the state that is written tells the move. */
  lemma MoveWritten(g: Gs, h: Gs, pair: (bv32, bv32))
    requires Masked(g) == Masked(h)
    ensures MoveHere(g, pair) == MoveHere(h, pair)
  {
    MaskedWords(g.tag, h.tag);
  }

  lemma MaskedWords(a: bv32, b: bv32)
    requires WordMask(a) == WordMask(b)
    ensures a & 0x70000000 == b & 0x70000000 && MoveWord(a) == MoveWord(b)
  {
    assert a & 0x000ffc00 == (a & 0xfffffc00) & 0x000ffc00;
    assert b & 0x000ffc00 == (b & 0xfffffc00) & 0x000ffc00;
    assert a & 0x70000000 == (a & 0xfffffc00) & 0x70000000;
    assert b & 0x70000000 == (b & 0xfffffc00) & 0x70000000;
  }

  lemma PrepWord(tag: bv32, id: bv32)
    requires id < 0x3ff
    ensures
      var t := (tag & 0x800003ff) | ((0x4ff << 20) | (id << 10));
      t & 0x70000000 != 0 && MoveWord(t) == id
    ensures (tag & 0x800003ff) & 0x70000000 == 0
  {
  }

  lemma PrepWordKeeps(tag: bv32, id: bv32)
    requires id < 0x3ff
    ensures
      var t := (tag & 0x800003ff) | ((0x4ff << 20) | (id << 10));
      t & 0x3ff == tag & 0x3ff && (t >= 0x80000000 <==> tag >= 0x80000000)
    ensures
      var t := tag & 0x800003ff;
      t & 0x3ff == tag & 0x3ff && (t >= 0x80000000 <==> tag >= 0x80000000)
  {
  }

  /** A move says nothing about orphans. */
  lemma OrphansKept(g: Gs, move: Option<(bv32, (bv32, bv32))>)
    requires move.Some? ==> move.value.0 < 0x3ff
    ensures
      var h := PrepMove(g, move);
      OrphanCount(h) == OrphanCount(g) && (OrphansMarked(h) <==> OrphansMarked(g))
  {
    PrepWordKeeps(g.tag, if move.Some? then move.value.0 else 0);
  }

  /** The blocks of a pair. */
  function BlocksOf(pair: (bv32, bv32)): set<bv32> {
    {pair.0, pair.1}
  }

  lemma SamePairMeans(a: (bv32, bv32), b: (bv32, bv32))
    ensures SamePair(a, b) <==> BlocksOf(a) * BlocksOf(b) != {}
  {
    if SamePair(a, b) {
      var x := if a.0 == b.0 || a.0 == b.1 then a.0 else a.1;
      assert x in BlocksOf(a) * BlocksOf(b);
    }
  }

  /** A prepared move is that of a pair exactly when the two have a block in common. */
  lemma MovePrepared(g: Gs, id: bv32, pair: (bv32, bv32), other: (bv32, bv32))
    requires id < 0x3ff
    ensures MoveHere(PrepMove(g, Some((id, pair))), other)
         == if BlocksOf(pair) * BlocksOf(other) != {} then Some(id as int) else None
    ensures MoveHere(PrepMove(g, None), other) == None
  {
    hide MoveWord, SamePair, BlocksOf;
    PrepWord(g.tag, id);
    SamePairMeans(pair, other);
  }

  /** The blocks of a pair come in either order. */
  predicate EitherOrder(a: (bv32, bv32), b: (bv32, bv32)) {
    a == b || a == (b.1, b.0)
  }

  lemma OrderIgnored(g: Gs, a: (bv32, bv32), b: (bv32, bv32))
    requires EitherOrder(a, b)
    ensures MoveHere(g, a) == MoveHere(g, b) && BlocksOf(a) == BlocksOf(b)
  {
    hide MoveWord;
  }

  // ---- what a commit does to the sum ----

  /** The record, if any, that a commit to the log writes to take the state on disk from was to now. */
  function StateToAppend(log: seq<Record>, was: Gs, now: Gs): seq<Record> {
    var delta := Masked(Xor(now, was));
    if delta == ZERO then [] else [StateRecord(Xor(delta, DeltaOf(log)))]
  }

  function StateToCompact(log: seq<Record>, was: Gs, now: Gs): seq<Record> {
    var delta := Xor(Masked(Xor(now, was)), DeltaOf(log));
    if delta == ZERO then [] else [StateRecord(delta)]
  }

  /** Either way the delta of the pair changes by the masked difference of the states. */
  lemma AppendDelta(log: seq<Record>, attrs: seq<Record>, was: Gs, now: Gs)
    requires Stateless(attrs)
    ensures DeltaOf(log + (attrs + StateToAppend(log, was, now))) == Xor(Masked(Xor(now, was)), DeltaOf(log))
  {
    hide Xor, Masked, DeltaOf, StateRecord;
    var delta := Masked(Xor(now, was));
    DeltaBehind(log, attrs);
    XorSelf(DeltaOf(log));
    if delta == ZERO {
      assert attrs + [] == attrs;
    } else {
      DeltaLast(log + attrs, Xor(delta, DeltaOf(log)));
      assert log + (attrs + StateToAppend(log, was, now)) == log + attrs + [StateRecord(Xor(delta, DeltaOf(log)))];
    }
  }

  lemma CompactDelta(log: seq<Record>, compacted: seq<Record>, tail: seq<Record>, was: Gs, now: Gs)
    requires C.AllKept(compacted) && Stateless(tail)
    ensures DeltaOf(compacted + (tail + StateToCompact(log, was, now))) == Xor(Masked(Xor(now, was)), DeltaOf(log))
  {
    hide Xor, Masked, DeltaOf, StateRecord, C.AllKept;
    var delta := Xor(Masked(Xor(now, was)), DeltaOf(log));
    KeptStateless(compacted);
    DeltaNone(compacted);
    DeltaBehind(compacted, tail);
    if delta == ZERO {
      assert tail + [] == tail;
    } else {
      DeltaLast(compacted + tail, delta);
      assert compacted + (tail + [StateRecord(delta)]) == compacted + tail + [StateRecord(delta)];
    }
  }

  /** The sum over the pairs of a file system, of which two are told apart. */
  function Sum(rest: Gs, a: seq<Record>, b: seq<Record>): Gs {
    Xor(rest, Xor(DeltaOf(a), DeltaOf(b)))
  }

  /** A change of one delta by the difference of two states takes the sum from the one to the other. */
  lemma SumMoves(rest: Gs, x: Gs, y: Gs, was: Gs, now: Gs)
    requires Masked(Xor(rest, Xor(x, y))) == Masked(was)
    ensures Masked(Xor(rest, Xor(Xor(Masked(Xor(now, was)), x), y))) == Masked(now)
    ensures Masked(Xor(rest, Xor(x, Xor(Masked(Xor(now, was)), y)))) == Masked(now)
  {
    hide Xor, Masked;
    var d, s := Masked(Xor(now, was)), Xor(rest, Xor(x, y));
    XorAssoc(d, x, y);
    XorComm(d, Xor(x, y));
    XorAssoc(rest, Xor(x, y), d);
    XorComm(d, y);
    XorAssoc(x, y, d);
    assert Xor(rest, Xor(Xor(d, x), y)) == Xor(s, d);
    assert Xor(rest, Xor(x, Xor(d, y))) == Xor(s, d);
    MaskedXor(s, d);
    MaskedXor(now, was);
    MaskedXor(Xor(now, was), was);
    XorComm(Masked(now), Masked(was));
    XorAssoc(Masked(was), Masked(was), Masked(now));
    XorSelf(Masked(was));
    XorSelf(Masked(now));
  }
}
