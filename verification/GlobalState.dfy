/** The global state of littlefs: kept in memory, and on disk as the exclusive-or of deltas that are
    spread over all metadata pairs. */
module GlobalState {
  /** A tag and the pair it is about: a pending move, orphans, a superblock to rewrite. */
  datatype Gs = Gs(tag: bv32, first: bv32, second: bv32)

  const ZERO := Gs(0, 0, 0)

  function WordXor(a: bv32, b: bv32): bv32 {
    a ^ b
  }

  function WordMask(a: bv32): bv32 {
    a & 0xfffffc00
  }

  function Xor(a: Gs, b: Gs): Gs {
    Gs(WordXor(a.tag, b.tag), WordXor(a.first, b.first), WordXor(a.second, b.second))
  }

  /** The part that is written to disk: all but the low ten bits of the tag. */
  function Masked(a: Gs): Gs {
    Gs(WordMask(a.tag), a.first, a.second)
  }

  lemma WordLaws(a: bv32, b: bv32, c: bv32)
    ensures WordXor(a, b) == WordXor(b, a)
    ensures WordXor(WordXor(a, b), c) == WordXor(a, WordXor(b, c))
  {
  }

  lemma WordSelf(a: bv32)
    ensures WordXor(a, a) == 0 && WordXor(a, 0) == a && WordXor(0, a) == a
  {
  }

  lemma WordMaskXor(a: bv32, b: bv32)
    ensures WordMask(WordXor(a, b)) == WordXor(WordMask(a), WordMask(b))
    ensures WordMask(WordMask(a)) == WordMask(a)
  {
  }

  lemma XorComm(a: Gs, b: Gs)
    ensures Xor(a, b) == Xor(b, a)
  {
    hide WordXor;
    WordLaws(a.tag, b.tag, 0);
    WordLaws(a.first, b.first, 0);
    WordLaws(a.second, b.second, 0);
  }

  lemma XorAssoc(a: Gs, b: Gs, c: Gs)
    ensures Xor(Xor(a, b), c) == Xor(a, Xor(b, c))
  {
    hide WordXor;
    WordLaws(a.tag, b.tag, c.tag);
    WordLaws(a.first, b.first, c.first);
    WordLaws(a.second, b.second, c.second);
  }

  lemma XorSelf(a: Gs)
    ensures Xor(a, a) == ZERO && Xor(a, ZERO) == a && Xor(ZERO, a) == a
  {
    hide WordXor;
    WordSelf(a.tag);
    WordSelf(a.first);
    WordSelf(a.second);
  }

  lemma MaskedXor(a: Gs, b: Gs)
    ensures Masked(Xor(a, b)) == Xor(Masked(a), Masked(b))
    ensures Masked(Masked(a)) == Masked(a)
  {
    hide WordXor, WordMask;
    WordMaskXor(a.tag, b.tag);
  }

  lemma XorSwap(a: Gs, b: Gs, c: Gs)
    ensures Xor(Xor(a, b), c) == Xor(Xor(a, c), b)
  {
    hide Xor;
    XorAssoc(a, b, c);
    XorAssoc(a, c, b);
    XorComm(b, c);
  }

  // ---- the pairs on disk ----

  /** A metadata pair: its delta, zero when its log has none, and the pair its tail names. */
  datatype Node = Node(delta: Gs, tail: int)

  const ROOT := 0
  const NULL_PAIR := -1

  ghost predicate Distinct(ids: seq<int>) {
    forall j, k | 0 <= j < k < |ids| :: ids[j] != ids[k]
  }

  /** The pairs from the root along the tails. */
  ghost predicate Linked(disk: map<int, Node>, chain: seq<int>) {
    && chain != [] && chain[0] == ROOT && Distinct(chain)
    && (forall k | 0 <= k < |chain| :: chain[k] in disk && chain[k] != NULL_PAIR)
    && (forall k | 0 <= k < |chain| - 1 :: disk[chain[k]].tail == chain[k + 1])
    && disk[chain[|chain| - 1]].tail == NULL_PAIR
  }

  ghost predicate Present(disk: map<int, Node>, ids: seq<int>) {
    forall k | 0 <= k < |ids| :: ids[k] in disk
  }

  /** The exclusive-or of the deltas of the pairs. */
  function XorOver(disk: map<int, Node>, ids: seq<int>): Gs
    requires forall k | 0 <= k < |ids| :: ids[k] in disk
  {
    if ids == [] then ZERO else Xor(XorOver(disk, ids[..|ids| - 1]), disk[ids[|ids| - 1]].delta)
  }

  /** Only the deltas of the pairs matter. */
  lemma {:induction false} XorOutside(disk: map<int, Node>, disk': map<int, Node>, ids: seq<int>)
    requires Present(disk, ids) && Present(disk', ids)
    requires forall k | 0 <= k < |ids| :: disk[ids[k]].delta == disk'[ids[k]].delta
    ensures XorOver(disk, ids) == XorOver(disk', ids)
  {
    hide Xor;
    if ids != [] {
      XorOutside(disk, disk', ids[..|ids| - 1]);
    }
  }

  /** A change to the delta of one pair. */
  lemma {:induction false} XorChanged(disk: map<int, Node>, disk': map<int, Node>, ids: seq<int>, i: nat, d: Gs)
    requires Present(disk, ids) && Present(disk', ids) && Distinct(ids) && i < |ids|
    requires disk'[ids[i]].delta == Xor(disk[ids[i]].delta, d)
    requires forall k | 0 <= k < |ids| && k != i :: disk'[ids[k]].delta == disk[ids[k]].delta
    ensures XorOver(disk', ids) == Xor(XorOver(disk, ids), d)
    decreases |ids|
  {
    hide Xor;
    var n := |ids| - 1;
    if i == n {
      XorOutside(disk, disk', ids[..n]);
      XorAssoc(XorOver(disk, ids[..n]), disk[ids[n]].delta, d);
    } else {
      XorChanged(disk, disk', ids[..n], i, d);
      XorSwap(XorOver(disk, ids[..n]), d, disk[ids[n]].delta);
    }
  }

  /** One pair taken out, or put in. */
  lemma {:induction false} XorSplit(disk: map<int, Node>, ids: seq<int>, i: nat)
    requires Present(disk, ids) && i < |ids|
    ensures XorOver(disk, ids) == Xor(XorOver(disk, ids[..i] + ids[i + 1..]), disk[ids[i]].delta)
    decreases |ids|
  {
    hide Xor;
    var n := |ids| - 1;
    var rest := ids[..i] + ids[i + 1..];
    if i == n {
      assert rest == ids[..n];
    } else {
      XorSplit(disk, ids[..n], i);
      assert rest[..|rest| - 1] == ids[..n][..i] + ids[..n][i + 1..];
      XorSwap(XorOver(disk, rest[..|rest| - 1]), disk[ids[i]].delta, disk[ids[n]].delta);
    }
  }

  // ---- what a commit adds ----

  lemma WordCommit(x: bv32, t: bv32, gstate: bv32)
    ensures WordXor(x, WordXor(WordXor(gstate, WordXor(x, t)), t)) == gstate
  {
    hide WordXor;
    WordLaws(gstate, WordXor(x, t), t);
    WordLaws(x, t, t);
    WordSelf(t);
    WordSelf(x);
    WordLaws(gstate, x, x);
    WordLaws(x, WordXor(gstate, x), x);
    WordSelf(gstate);
  }

  /** The delta a commit adds takes the exclusive-or from the old state on disk to the new one; t is what
      was stolen from a dropped pair. */
  lemma CommitDelta(x: Gs, t: Gs, gstate: Gs, gdisk: Gs)
    requires Masked(Xor(x, t)) == Masked(gdisk)
    ensures Masked(Xor(x, Masked(Xor(Xor(gstate, gdisk), t)))) == Masked(gstate)
  {
    hide WordXor, WordMask;
    var m, n, s := Masked(x), Masked(t), Masked(gstate);
    MaskedXor(x, t);
    MaskedXor(gstate, gdisk);
    MaskedXor(Xor(gstate, gdisk), t);
    MaskedXor(x, Masked(Xor(Xor(gstate, gdisk), t)));
    MaskedXor(Xor(Xor(gstate, gdisk), t), t);
    WordCommit(m.tag, n.tag, s.tag);
    WordCommit(m.first, n.first, s.first);
    WordCommit(m.second, n.second, s.second);
  }

  /** Taking over what was stolen, without the state in memory. */
  lemma StolenDelta(x: Gs, t: Gs, gdisk: Gs)
    requires Masked(Xor(x, t)) == Masked(gdisk)
    ensures Masked(Xor(x, Masked(t))) == Masked(gdisk)
  {
    hide WordXor, WordMask;
    MaskedXor(x, t);
    MaskedXor(x, Masked(t));
    MaskedXor(t, t);
  }

  ghost predicate AllMasked(disk: map<int, Node>) {
    forall id | id in disk :: Masked(disk[id].delta) == disk[id].delta
  }

  lemma {:induction false} XorOverMasked(disk: map<int, Node>, ids: seq<int>)
    requires Present(disk, ids) && AllMasked(disk)
    ensures Masked(XorOver(disk, ids)) == XorOver(disk, ids)
  {
    hide Xor, Masked;
    if ids == [] {
      MaskedZero();
    } else {
      XorOverMasked(disk, ids[..|ids| - 1]);
      var n := ids[|ids| - 1];
      assert n in disk && Masked(disk[n].delta) == disk[n].delta;
      MaskedXor(XorOver(disk, ids[..|ids| - 1]), disk[n].delta);
      XorMore(disk, ids);
    }
  }

  lemma MaskedZero()
    ensures Masked(ZERO) == ZERO
  {
  }

  /** Mounting counts one orphan when the tag says that there are any; the written part stays. */
  function WithOrphans(g: Gs): Gs {
    g.(tag := if g.tag & 0x80000000 != 0 then g.tag + 1 else g.tag)
  }

  lemma OrphansMasked(g: Gs)
    requires Masked(g) == g
    ensures Masked(WithOrphans(g)) == g
    ensures OrphanCount(WithOrphans(g)) == if OrphansMarked(WithOrphans(g)) then 1 else 0
  {
    OrphanWord(g.tag);
  }

  lemma OrphanWord(w: bv32)
    requires WordMask(w) == w
    ensures WordMask(w + 1) == w && w & 0x3ff == 0 && (w + 1) & 0x3ff == 1
    ensures (w + 1) & 0x80000000 == w & 0x80000000
  {
  }

  /** The number of orphans, which is kept in memory only, and the mark that there are any, which is written. */
  function OrphanCount(g: Gs): bv32 {
    g.tag & 0x3ff
  }

  predicate OrphansMarked(g: Gs) {
    g.tag >= 0x80000000
  }

  /** The rest of the tag. */
  function HighBits(w: bv32): bv32 {
    w >> 10
  }

  /** What is written of a state says everything but that number. */
  lemma MaskedMeans(g: Gs, h: Gs)
    ensures Masked(g) == Masked(h) <==>
      HighBits(g.tag) == HighBits(h.tag) && g.first == h.first && g.second == h.second
    ensures OrphanCount(Masked(g)) == 0 && HighBits(Masked(g).tag) == HighBits(g.tag)
    ensures OrphansMarked(Masked(g)) <==> OrphansMarked(g)
  {
    WordMaskLow(g.tag);
    WordMaskHigh(g.tag);
    WordMaskTop(g.tag);
    WordMaskSame(g.tag, h.tag);
    hide WordMask, HighBits;
  }

  lemma WordMaskLow(a: bv32)
    ensures WordMask(a) & 0x3ff == 0
  {
  }

  lemma WordMaskHigh(a: bv32)
    ensures HighBits(WordMask(a)) == HighBits(a)
  {
  }

  lemma WordMaskTop(a: bv32)
    ensures WordMask(a) >= 0x80000000 <==> a >= 0x80000000
  {
  }

  lemma WordMaskSame(a: bv32, b: bv32)
    ensures WordMask(a) == WordMask(b) ==> HighBits(a) == HighBits(b)
    ensures HighBits(a) == HighBits(b) ==> WordMask(a) == WordMask(b)
  {
  }

  class Lfs {
    var disk: map<int, Node>
    /** The state in memory, the state the pairs on disk add up to, and what is to be added to the next
        commit besides their difference. */
    var gstate: Gs
    var gdisk: Gs
    var gdelta: Gs
    /** The pairs linked on disk, and the same with a relocated pair in the place of its predecessor. */
    ghost var chain: seq<int>
    ghost var logical: seq<int>

    ghost predicate Pairs()
      reads this
    {
      && Linked(disk, chain) && Present(disk, logical) && Distinct(logical) && AllMasked(disk)
    }

    /** The deltas on disk add up to gdisk, outside the part that is not written, whether relocated pairs
        are counted or not. */
    ghost predicate Valid()
      reads this
    {
      && Pairs() && gdelta == ZERO
      && Masked(XorOver(disk, chain)) == Masked(gdisk)
      && Masked(XorOver(disk, logical)) == Masked(gdisk)
    }

    /** The part of lfs_dir_relocatingcommit and of lfs_dir_compact that writes the state: the node of
        pair q after a commit that sets its tail. An append writes no delta when there is nothing to add. */
    method Written(q: int, tail: int, appending: bool, relocated: bool) returns (node: Node)
      requires q in disk
      ensures node == Node(Xor(disk[q].delta,
        Masked(if relocated then gdelta else Xor(Xor(gstate, gdisk), gdelta))), tail)
    {
      hide Xor, Masked;
      var delta := if relocated then gdelta else Xor(Xor(gstate, gdisk), gdelta);
      delta := Masked(delta);
      XorSelf(disk[q].delta);
      XorComm(delta, disk[q].delta);
      if appending && !relocated && delta == ZERO {
        return Node(disk[q].delta, tail);
      }
      node := Node(Xor(delta, disk[q].delta), tail);
    }

    /** A commit, appended or by compaction in place: from now on the disk adds up to gstate. */
    method Commit(q: int, appending: bool, ghost i: nat, ghost j: nat)
      requires Valid() && i < |chain| && j < |logical| && chain[i] == logical[j] == q
      modifies this
      ensures Valid() && chain == old(chain) && logical == old(logical)
      ensures gstate == old(gstate) && gdisk == gstate
    {
      hide Xor, Masked, XorOver, Linked, Distinct;
      ghost var before, d := disk, Xor(Xor(gstate, gdisk), gdelta);
      LinkedPresent(disk, chain);
      var node := Written(q, disk[q].tail, appending, false);
      disk := disk[q := node];
      Relinked(before, disk, chain);
      ChangedAt(before, disk, chain, i, Masked(d));
      ChangedAt(before, disk, logical, j, Masked(d));
      NothingStolen(XorOver(before, chain), gstate, gdisk);
      NothingStolen(XorOver(before, logical), gstate, gdisk);
      StaysMasked(before, before[q].delta, q, d, node.tail);
      gdisk := gstate;
      gdelta := ZERO;
    }

    /** A relocating compaction: the pair gets a new place, which nothing on disk leads to yet. The
        disk goes on adding up to gdisk. */
    method Relocate(q: int, n: int, ghost j: nat)
      requires Valid() && j < |logical| && logical[j] == q && q != ROOT
      requires n !in disk && n != NULL_PAIR
      modifies this
      ensures Valid() && chain == old(chain) && logical == old(logical)[j := n]
      ensures gstate == old(gstate) && gdisk == old(gdisk)
      ensures disk == old(disk)[n := old(disk)[q]]
    {
      hide Xor, Masked, XorOver, Linked;
      ghost var before := disk;
      LinkedPresent(disk, chain);
      MaskedZero();
      XorSelf(disk[q].delta);
      var node := Written(q, disk[q].tail, false, true);
      disk := disk[n := node];
      StaysLinked(before, chain, n, node);
      gdelta := ZERO;
      XorOutside(before, disk, chain);
      Moved(before, disk, logical, j, n);
      StaysMasked(before, before[q].delta, n, ZERO, node.tail);
      logical := logical[j := n];
    }

    /** Dropping the pair behind q: its delta is stolen into memory, and q takes over its tail. */
    method Drop(q: int, t: int, appending: bool, ghost i: nat)
      requires Valid() && logical == chain && i + 1 < |chain| && chain[i] == q && chain[i + 1] == t
      modifies this
      ensures Valid() && logical == chain == old(chain[..i + 1] + chain[i + 2..])
      ensures gstate == old(gstate) && gdisk == gstate
    {
      hide Xor, Masked, XorOver, Linked;
      ghost var before, rest := disk, chain[..i + 1] + chain[i + 2..];
      InChain(disk, chain, i);
      Steal(t, i);
      ghost var d := Xor(Xor(gstate, gdisk), gdelta);
      var node := Written(q, disk[t].tail, appending, false);
      disk := disk[q := node];
      XorChanged(before, disk, rest, i, Masked(d));
      CommitDelta(XorOver(before, rest), gdelta, gstate, gdisk);
      StaysMasked(before, before[q].delta, q, d, node.tail);
      Unlinked(before, chain, i, disk);
      gdisk := gstate;
      gdelta := ZERO;
      chain := rest;
      logical := rest;
    }

    /** Stealing the delta of the pair behind the i-th one. */
    method Steal(t: int, ghost i: nat)
      requires Valid() && i + 1 < |chain| && chain[i + 1] == t
      modifies `gdelta
      ensures gdelta == disk[t].delta
      ensures
        var rest := chain[..i + 1] + chain[i + 2..];
        Present(disk, rest) && Distinct(rest) && Masked(Xor(XorOver(disk, rest), gdelta)) == Masked(gdisk)
    {
      hide Xor, Masked, XorOver;
      XorSelf(disk[t].delta);
      XorSplit(disk, chain, i + 1);
      gdelta := Xor(gdelta, disk[t].delta);
    }

    /** The same when the commit moves q to a new place n: the disk still leads to both old pairs. */
    method DropAndRelocate(q: int, t: int, n: int, ghost i: nat)
      requires Valid() && logical == chain && i + 1 < |chain| && chain[i] == q && chain[i + 1] == t
      requires n !in disk && n != NULL_PAIR
      modifies this
      ensures Valid() && chain == old(chain) && logical == old(chain[..i] + [n] + chain[i + 2..])
      ensures gstate == old(gstate) && gdisk == old(gdisk)
    {
      hide Xor, Masked, XorOver, Linked;
      ghost var before, rest := disk, chain[..i + 1] + chain[i + 2..];
      InChain(disk, chain, i);
      Steal(t, i);
      var node := Written(q, disk[t].tail, false, true);
      disk := disk[n := node];
      assert Linked(disk, chain) by { StaysLinked(before, chain, n, node); }
      XorOutside(before, disk, chain);
      XorOutside(before, disk, rest);
      MovedWith(disk, rest, i, n, Masked(gdelta));
      StolenDelta(XorOver(before, rest), gdelta, gdisk);
      StaysMasked(before, before[q].delta, n, gdelta, node.tail);
      gdelta := ZERO;
      logical := rest[i := n];
    }

    /** The commit to the predecessor that links a relocated pair in: the tail of q becomes n. */
    method Link(q: int, n: int, appending: bool, ghost i: nat)
      requires Valid() && i + 1 < |logical| && logical[i] == q && logical[i + 1] == n
      requires i < |chain| && chain[i] == q && Linked(disk[q := disk[q].(tail := n)], logical)
      modifies this
      ensures Valid() && chain == logical == old(logical)
      ensures gstate == old(gstate) && gdisk == gstate
    {
      hide Xor, Masked, XorOver, Linked, Distinct;
      ghost var before, d := disk, Xor(Xor(gstate, gdisk), gdelta);
      var node := Written(q, n, appending, false);
      disk := disk[q := node];
      Relinked(before[q := before[q].(tail := n)], disk, logical);
      ChangedAt(before, disk, logical, i, Masked(d));
      NothingStolen(XorOver(before, logical), gstate, gdisk);
      StaysMasked(before, before[q].delta, q, d, n);
      gdisk := gstate;
      gdelta := ZERO;
      chain := logical;
    }

    /** Mounting after a power loss: whatever was in memory, the deltas of the linked pairs give the
        state of the last commit that reached the chain. */
    method Mount()
      requires Valid()
      modifies this
      ensures Valid() && chain == logical == old(chain) && disk == old(disk)
      ensures gstate == gdisk && Masked(gstate) == Masked(old(gdisk))
      ensures OrphanCount(gstate) == if OrphansMarked(gstate) then 1 else 0
    {
      hide Xor, Masked, XorOver, WithOrphans, OrphanCount, OrphansMarked;
      ghost var k := 0;
      var tail, state := ROOT, ZERO;
      XorNothing(disk);
      assert chain[..0] == [];
      while tail != NULL_PAIR
        invariant unchanged(this) && Present(disk, chain)
        invariant 0 <= k <= |chain| && tail == (if k < |chain| then chain[k] else NULL_PAIR)
        invariant state == XorOver(disk, chain[..k])
        decreases |chain| - k
      {
        assert chain[..k + 1][..k] == chain[..k];
        XorMore(disk, chain[..k + 1]);
        state := Xor(state, disk[tail].delta);
        assert k < |chain| - 1 ==> disk[chain[k]].tail == chain[k + 1];
        tail := disk[tail].tail;
        k := k + 1;
      }
      assert chain[..k] == chain;
      XorOverMasked(disk, chain);
      OrphansMasked(state);
      gstate := WithOrphans(state);
      gdisk := gstate;
      gdelta := ZERO;
      logical := chain;
    }
  }

  lemma InChain(disk: map<int, Node>, chain: seq<int>, i: nat)
    requires Linked(disk, chain) && i + 1 < |chain|
    ensures Present(disk, chain) && chain[i] in disk && chain[i + 1] in disk && chain[i] != chain[i + 1]
  {
  }

  /** Taking over the tail of the next pair takes that pair out of the chain. */
  lemma Unlinked(disk: map<int, Node>, chain: seq<int>, i: nat, disk': map<int, Node>)
    requires Linked(disk, chain) && i + 1 < |chain|
    requires disk'.Keys == disk.Keys && disk'[chain[i]].tail == disk[chain[i + 1]].tail
    requires forall id | id in disk && id != chain[i] :: disk'[id] == disk[id]
    ensures Linked(disk', chain[..i + 1] + chain[i + 2..])
  {
    hide Xor;
    var rest := chain[..i + 1] + chain[i + 2..];
    forall k | 0 <= k < |rest| - 1
      ensures disk'[rest[k]].tail == rest[k + 1]
    {
      var old_k := if k <= i then k else k + 1;
      assert rest[k] == chain[old_k];
      assert disk[chain[old_k]].tail == if old_k + 1 < |chain| then chain[old_k + 1] else NULL_PAIR;
    }
  }

  lemma StaysLinked(disk: map<int, Node>, chain: seq<int>, n: int, node: Node)
    requires Linked(disk, chain) && n !in disk
    ensures Linked(disk[n := node], chain)
  {
  }

  /** Only the pair at one position was written. */
  lemma ChangedAt(disk: map<int, Node>, disk': map<int, Node>, ids: seq<int>, i: nat, d: Gs)
    requires Present(disk, ids) && Distinct(ids) && i < |ids| && disk'.Keys == disk.Keys
    requires disk'[ids[i]].delta == Xor(disk[ids[i]].delta, d)
    requires forall id | id in disk && id != ids[i] :: disk'[id] == disk[id]
    ensures Present(disk', ids) && XorOver(disk', ids) == Xor(XorOver(disk, ids), d)
  {
    hide Xor, XorOver;
    XorChanged(disk, disk', ids, i, d);
  }

  lemma LinkedPresent(disk: map<int, Node>, chain: seq<int>)
    requires Linked(disk, chain)
    ensures Present(disk, chain) && Distinct(chain)
  {
  }

  /** The deltas do not matter to the links. */
  lemma Relinked(disk: map<int, Node>, disk': map<int, Node>, chain: seq<int>)
    requires Linked(disk, chain) && disk.Keys <= disk'.Keys
    requires forall id | id in disk :: disk'[id].tail == disk[id].tail
    ensures Linked(disk', chain) && Present(disk', chain) && Distinct(chain)
  {
  }

  lemma NothingStolen(x: Gs, gstate: Gs, gdisk: Gs)
    requires Masked(x) == Masked(gdisk)
    ensures Masked(Xor(x, Masked(Xor(Xor(gstate, gdisk), ZERO)))) == Masked(gstate)
  {
    hide Xor, Masked;
    XorSelf(x);
    CommitDelta(x, ZERO, gstate, gdisk);
  }

  lemma StaysMasked(disk: map<int, Node>, own: Gs, id: int, d: Gs, tail: int)
    requires AllMasked(disk) && Masked(own) == own
    ensures AllMasked(disk[id := Node(Xor(own, Masked(d)), tail)])
  {
    hide Xor, Masked;
    MaskedXor(own, Masked(d));
    MaskedXor(d, d);
  }

  /** A pair in a new place, with the same delta. */
  lemma Moved(disk: map<int, Node>, disk': map<int, Node>, ids: seq<int>, j: nat, n: int)
    requires Present(disk, ids) && Present(disk', ids) && j < |ids| && n in disk'
    requires disk'[n].delta == disk[ids[j]].delta
    requires forall k | 0 <= k < |ids| :: disk'[ids[k]].delta == disk[ids[k]].delta
    ensures XorOver(disk', ids[j := n]) == XorOver(disk, ids)
  {
    hide Xor, XorOver;
    var moved := ids[j := n];
    assert Present(disk', moved);
    XorSplit(disk', moved, j);
    XorSplit(disk', ids, j);
    assert moved[..j] + moved[j + 1..] == ids[..j] + ids[j + 1..];
    XorOutside(disk, disk', ids);
  }

  /** A pair in a new place, with something added to its delta. */
  lemma MovedWith(disk: map<int, Node>, ids: seq<int>, j: nat, n: int, d: Gs)
    requires Present(disk, ids) && j < |ids| && n in disk && disk[n].delta == Xor(disk[ids[j]].delta, d)
    ensures XorOver(disk, ids[j := n]) == Xor(XorOver(disk, ids), d)
  {
    hide Xor, XorOver;
    var moved := ids[j := n];
    XorSplit(disk, moved, j);
    XorSplit(disk, ids, j);
    assert moved[..j] + moved[j + 1..] == ids[..j] + ids[j + 1..];
    XorAssoc(XorOver(disk, ids[..j] + ids[j + 1..]), disk[ids[j]].delta, d);
  }

  lemma XorNothing(disk: map<int, Node>)
    ensures XorOver(disk, []) == ZERO
  {
  }

  lemma XorMore(disk: map<int, Node>, ids: seq<int>)
    requires Present(disk, ids) && ids != []
    ensures XorOver(disk, ids) == Xor(XorOver(disk, ids[..|ids| - 1]), disk[ids[|ids| - 1]].delta)
  {
  }
}
