/** A metadata pair: two blocks of commits, which of them counts, and what a power loss leaves. */
module MetadataPair {
  import opened LfsBase
  import opened TagLog
  import opened Compaction
  import opened NameMatch

  /** Revision counts are 32-bit and wrap around. */
  const REVS := 0x1_0000_0000

  /** What a crc vouches for: the records since the last one, and for the first one the revision count.
      The crc is ideal: it is the content it was computed from. */
  datatype Digest = Digest(rev: Option<int>, records: seq<Record>)

  /** What is programmed into a block: records, and crcs that close a commit. A crc may carry the
      promise that the storage behind it was erased. */
  datatype Item = Entry(record: Record) | Close(digest: Digest, fcrc: bool)

  /** The content of a block: a revision count, the items that can be read, and whether the storage
      behind them is still erased. */
  datatype Block = Block(rev: int, items: seq<Item>, clean: bool)

  /** How far a fetch has got: the records of closed commits, those since the last crc, how many commits
      were closed, and whether the last item was a crc with the promise. */
  datatype Scan = Scan(closed: seq<Record>, pending: seq<Record>, commits: nat, fcrc: bool, stopped: bool)

  function ScanItem(s: Scan, rev: int, item: Item): Scan {
    if s.stopped then s
    else match item
         case Entry(r) => s.(pending := s.pending + [r], fcrc := false)
         case Close(d, fcrc) =>
           if d == Digest(if s.commits == 0 then Some(rev) else None, s.pending)
           then Scan(s.closed + s.pending, [], s.commits + 1, fcrc, false)
           else s.(stopped := true)
  }

  function ScanItems(rev: int, items: seq<Item>): Scan {
    if items == [] then Scan([], [], 0, false, false)
    else ScanItem(ScanItems(rev, items[..|items| - 1]), rev, items[|items| - 1])
  }

  function ScanBlock(b: Block): Scan {
    ScanItems(b.rev, b.items)
  }

  /** The storage behind the last commit may be programmed without an erase. */
  predicate Erased(b: Block) {
    var s := ScanBlock(b);
    s.commits > 0 && !s.stopped && s.pending == [] && s.fcrc && b.clean
  }

  /** Sequence comparison of revision counts: the sign of their difference as a 32-bit number. */
  function Scmp(a: int, b: int): int {
    var d := (a - b) % REVS;
    if d >= 0x8000_0000 then d - REVS else d
  }

  /** What a fetch makes of a pair: the block that counts and its records. */
  datatype Fetched = Corrupt | Dir(which: int, rev: int, records: seq<Record>, erased: bool)

  function DirOf(pair: seq<Block>, i: int): Fetched
    requires |pair| == 2 && 0 <= i < 2
  {
    Dir(i, pair[i].rev, ScanBlock(pair[i]).closed, Erased(pair[i]))
  }

  /** The block with the newer revision count unless it holds no closed commit, then the other one. */
  function Fetch(pair: seq<Block>): Fetched
    requires |pair| == 2
  {
    var r := if Scmp(pair[1].rev, pair[0].rev) > 0 then 1 else 0;
    if ScanBlock(pair[r]).commits > 0 then DirOf(pair, r)
    else if ScanBlock(pair[1 - r]).commits > 0 then DirOf(pair, 1 - r)
    else Corrupt
  }

  /** Block i counts: it holds a commit, and the other block is older or holds none. */
  predicate Current(pair: seq<Block>, i: int) {
    && |pair| == 2 && 0 <= i < 2
    && ScanBlock(pair[i]).commits > 0
    && (ScanBlock(pair[1 - i]).commits == 0 || Scmp(pair[i].rev, pair[1 - i].rev) > 0)
  }

  lemma ScmpAntisymmetric(a: int, b: int)
    ensures Scmp(a, b) > 0 ==> Scmp(b, a) < 0
  {
  }

  lemma ScmpNext(rev: int)
    ensures Scmp((rev + 1) % REVS, rev) == 1
  {
  }

  /** Whatever the order of the two blocks and whatever their revision counts, the fetch finds the
      block that counts. */
  lemma FetchCurrent(pair: seq<Block>, i: int)
    requires Current(pair, i)
    ensures Fetch(pair) == DirOf(pair, i)
  {
    hide ScanBlock, Scmp, Erased;
    ScmpAntisymmetric(pair[1].rev, pair[0].rev);
  }

  /** The difference as a number of 32 bits with a sign. */
  lemma ScmpMeans(a: int, b: int)
    ensures -0x8000_0000 <= Scmp(a, b) < 0x8000_0000 && (a - b - Scmp(a, b)) % REVS == 0
  {
  }

  /** Nothing is fetched only from a pair without a closed commit. */
  lemma FetchCorrupt(pair: seq<Block>)
    requires |pair| == 2
    ensures Fetch(pair) == Corrupt <==> ScanBlock(pair[0]).commits == 0 && ScanBlock(pair[1]).commits == 0
  {
    hide ScanBlock, Scmp;
  }

  /** Of two blocks of which neither is newer the first one counts. */
  lemma FetchTied(pair: seq<Block>)
    requires |pair| == 2 && ScanBlock(pair[0]).commits > 0 && ScanBlock(pair[1]).commits > 0
    requires !Current(pair, 0) && !Current(pair, 1)
    ensures Fetch(pair) == DirOf(pair, 0)
  {
    hide ScanBlock, Scmp, Erased;
  }

  // ---- which records a crc vouches for ----

  /** The records among the items, in their order. */
  function Entries(items: seq<Item>): seq<Record> {
    if items == [] then []
    else Entries(items[..|items| - 1]) + if items[|items| - 1].Entry? then [items[|items| - 1].record] else []
  }

  /** One behind the last crc before item j, or the start. */
  function CloseBefore(items: seq<Item>, j: nat): (k: nat)
    requires j <= |items|
    ensures k <= j && (k > 0 ==> items[k - 1].Close?) && forall i | k <= i < j :: items[i].Entry?
  {
    if j == 0 then 0 else if items[j - 1].Close? then j else CloseBefore(items, j - 1)
  }

  /** Item j is a crc over exactly what lies between it and the crc before, the first one of the block over
      the revision count besides. */
  predicate Vouches(rev: int, items: seq<Item>, j: nat) {
    && j < |items| && items[j].Close?
    && var k := CloseBefore(items, j);
       items[j].digest == Digest(if k == 0 then Some(rev) else None, Entries(items[k..j]))
  }

  /** Item j is a crc, and it and all crcs before it vouch for what is in front of them. */
  predicate Accepted(rev: int, items: seq<Item>, j: nat) {
    j < |items| && items[j].Close? && forall i | 0 <= i <= j && items[i].Close? :: Vouches(rev, items, i)
  }

  /** How many of the first n items are accepted crcs. */
  function AcceptedCount(rev: int, items: seq<Item>, n: nat): nat {
    if n == 0 then 0 else AcceptedCount(rev, items, n - 1) + if Accepted(rev, items, n - 1) then 1 else 0
  }

  /** Nothing behind item n is an accepted crc, and the item before n is one, or n is the start. */
  predicate AcceptedUpTo(rev: int, items: seq<Item>, n: nat) {
    && n <= |items| && (n > 0 ==> Accepted(rev, items, n - 1))
    && forall j | n <= j < |items| :: !Accepted(rev, items, j)
  }

  /** What is in front of an item does not depend on what is behind it. */
  lemma {:induction false} CloseBeforeSame(items: seq<Item>, more: seq<Item>, j: nat)
    requires j <= |items|
    ensures CloseBefore(items + more, j) == CloseBefore(items, j)
    ensures (items + more)[CloseBefore(items, j)..j] == items[CloseBefore(items, j)..j]
    decreases j
  {
    if j > 0 {
      CloseBeforeSame(items, more, j - 1);
    }
  }

  lemma VouchesSame(rev: int, items: seq<Item>, more: seq<Item>, j: nat)
    requires j < |items|
    ensures Vouches(rev, items + more, j) == Vouches(rev, items, j)
  {
    CloseBeforeSame(items, more, j);
  }

  lemma AcceptedSame(rev: int, items: seq<Item>, more: seq<Item>, j: nat)
    requires j < |items|
    ensures Accepted(rev, items + more, j) == Accepted(rev, items, j)
  {
    hide Vouches;
    forall i | 0 <= i <= j
      ensures (items + more)[i] == items[i] && Vouches(rev, items + more, i) == Vouches(rev, items, i)
    {
      VouchesSame(rev, items, more, i);
    }
  }

  lemma {:induction false} AcceptedCountSame(rev: int, items: seq<Item>, more: seq<Item>, n: nat)
    requires n <= |items|
    ensures AcceptedCount(rev, items + more, n) == AcceptedCount(rev, items, n)
    decreases n
  {
    hide Accepted;
    if n > 0 {
      AcceptedCountSame(rev, items, more, n - 1);
      AcceptedSame(rev, items, more, n - 1);
    }
  }

  /** Some crc vouches for something else than what is in front of it. */
  predicate Broken(rev: int, items: seq<Item>) {
    exists j | 0 <= j < |items| :: items[j].Close? && !Vouches(rev, items, j)
  }

  lemma BrokenMore(rev: int, items: seq<Item>, item: Item)
    ensures Broken(rev, items + [item]) <==>
      Broken(rev, items) || (item.Close? && !Vouches(rev, items + [item], |items|))
    ensures item.Close? ==> (Accepted(rev, items + [item], |items|) <==> !Broken(rev, items + [item]))
  {
    hide Vouches;
    forall j | 0 <= j < |items|
      ensures (items + [item])[j] == items[j] && Vouches(rev, items + [item], j) == Vouches(rev, items, j)
    {
      VouchesSame(rev, items, [item], j);
    }
  }

  lemma EntriesMore(items: seq<Item>, item: Item)
    ensures Entries(items + [item]) == Entries(items) + if item.Entry? then [item.record] else []
  {
    assert (items + [item])[..|items|] == items;
  }

  lemma {:induction false} EntriesOfTwo(items: seq<Item>, more: seq<Item>)
    ensures Entries(items + more) == Entries(items) + Entries(more)
    decreases |more|
  {
    if more == [] {
      assert items + more == items;
    } else {
      var all := items + more;
      EntriesOfTwo(items, more[..|more| - 1]);
      assert all[..|all| - 1] == items + more[..|more| - 1] && all[|all| - 1] == more[|more| - 1];
    }
  }

  /** What is true of a scan that has got to the end of the items, n being one behind the last accepted crc. */
  predicate ScanMeans(rev: int, items: seq<Item>, n: nat, s: Scan) {
    && AcceptedUpTo(rev, items, n)
    && s.closed == Entries(items[..n]) && s.commits == AcceptedCount(rev, items, |items|)
    && (s.commits == 0 <==> n == 0) && (s.stopped <==> Broken(rev, items))
    && (!s.stopped ==>
          && n == CloseBefore(items, |items|) && s.pending == Entries(items[n..])
          && (s.fcrc <==> items != [] && items[|items| - 1].Close? && items[|items| - 1].fcrc))
  }

  lemma ScanMeansEntry(rev: int, items: seq<Item>, item: Item, n: nat, s: Scan)
    requires ScanMeans(rev, items, n, s) && (s.stopped || item.Entry?)
    ensures ScanMeans(rev, items + [item], n, ScanItem(s, rev, item))
  {
    hide Vouches, Accepted, AcceptedCount, Broken, CloseBefore;
    var all := items + [item];
    BrokenMore(rev, items, item);
    CloseBeforeSame(items, [item], |items|);
    AcceptedCountSame(rev, items, [item], |items|);
    NotAccepted(rev, items, item, n);
    assert all[..n] == items[..n];
    if !s.stopped {
      EntriesMore(items[n..], item);
      assert all[n..] == items[n..] + [item];
      CloseBeforeEnd(items, item);
    }
  }

  lemma CloseBeforeEnd(items: seq<Item>, item: Item)
    ensures CloseBefore(items + [item], |items| + 1)
         == if item.Close? then |items| + 1 else CloseBefore(items, |items|)
  {
    CloseBeforeSame(items, [item], |items|);
  }

  /** An item that is no accepted crc changes nothing about the others. */
  lemma NotAccepted(rev: int, items: seq<Item>, item: Item, n: nat)
    requires AcceptedUpTo(rev, items, n) && (item.Entry? || Broken(rev, items + [item]))
    ensures AcceptedUpTo(rev, items + [item], n) && !Accepted(rev, items + [item], |items|)
    ensures AcceptedCount(rev, items + [item], |items| + 1) == AcceptedCount(rev, items, |items|)
  {
    hide Vouches, Broken;
    BrokenMore(rev, items, item);
    AcceptedCountSame(rev, items, [item], |items|);
    OthersSame(rev, items, item);
  }

  lemma OthersSame(rev: int, items: seq<Item>, item: Item)
    ensures forall j | 0 <= j < |items| :: Accepted(rev, items + [item], j) == Accepted(rev, items, j)
  {
    hide Accepted;
    forall j | 0 <= j < |items|
      ensures Accepted(rev, items + [item], j) == Accepted(rev, items, j)
    {
      AcceptedSame(rev, items, [item], j);
    }
  }

  lemma ScanMeansClose(rev: int, items: seq<Item>, item: Item, n: nat, s: Scan)
    requires ScanMeans(rev, items, n, s) && !s.stopped && item.Close?
    ensures
      var s' := ScanItem(s, rev, item);
      ScanMeans(rev, items + [item], if s'.stopped then n else |items| + 1, s')
  {
    hide Vouches, Accepted, AcceptedCount, Broken, CloseBefore, Entries;
    BrokenMore(rev, items, item);
    CloseVouches(rev, items, item);
    if Broken(rev, items + [item]) {
      NotAccepted(rev, items, item, n);
      assert (items + [item])[..n] == items[..n];
    } else {
      ScanMeansAccepted(rev, items, item, n, s);
    }
  }

  lemma ScanMeansAccepted(rev: int, items: seq<Item>, item: Item, n: nat, s: Scan)
    requires ScanMeans(rev, items, n, s) && !s.stopped && item.Close? && !Broken(rev, items + [item])
    ensures ScanMeans(rev, items + [item], |items| + 1,
                      Scan(s.closed + s.pending, [], s.commits + 1, item.fcrc, false))
  {
    hide Vouches, Accepted, AcceptedCount, Broken, CloseBefore, Entries;
    var all := items + [item];
    BrokenMore(rev, items, item);
    AcceptedCountSame(rev, items, [item], |items|);
    CountLast(rev, all);
    EntriesOfTwo(items[..n], items[n..]);
    assert items[..n] + items[n..] == items;
    EntriesMore(items, item);
    assert all[..|items| + 1] == all && all[|items| + 1..] == [];
    CloseBeforeEnd(items, item);
    NoEntries();
  }

  lemma CloseVouches(rev: int, items: seq<Item>, item: Item)
    requires item.Close?
    ensures
      var k := CloseBefore(items, |items|);
      Vouches(rev, items + [item], |items|) <==>
        item.digest == Digest(if k == 0 then Some(rev) else None, Entries(items[k..]))
  {
    var k := CloseBefore(items, |items|);
    CloseBeforeSame(items, [item], |items|);
    assert items[k..|items|] == items[k..];
  }

  lemma CountLast(rev: int, items: seq<Item>)
    requires items != []
    ensures AcceptedCount(rev, items, |items|)
         == AcceptedCount(rev, items, |items| - 1) + if Accepted(rev, items, |items| - 1) then 1 else 0
  {
    hide Accepted;
  }

  /** The scan of any items: closed is what lies in front of the last accepted crc. */
  lemma {:induction false} ScanAccepts(rev: int, items: seq<Item>) returns (n: nat)
    ensures ScanMeans(rev, items, n, ScanItems(rev, items))
    decreases |items|
  {
    hide ScanMeans, ScanItem;
    if items == [] {
      n := 0;
      ScanMeansNothing(rev);
    } else {
      var older, item := items[..|items| - 1], items[|items| - 1];
      var s := ScanItems(rev, older);
      n := ScanAccepts(rev, older);
      assert items == older + [item];
      if s.stopped || item.Entry? {
        ScanMeansEntry(rev, older, item, n, s);
      } else {
        ScanMeansClose(rev, older, item, n, s);
        n := if ScanItem(s, rev, item).stopped then n else |items|;
      }
    }
  }

  lemma ScanMeansNothing(rev: int)
    ensures ScanMeans(rev, [], 0, Scan([], [], 0, false, false))
  {
  }

  /** Some accepted crc lies behind item j. */
  predicate Behind(rev: int, items: seq<Item>, j: nat) {
    exists k | j < k < |items| :: Accepted(rev, items, k)
  }

  /** The records among the first n items that have an accepted crc behind them. */
  function Served(rev: int, items: seq<Item>, n: nat): seq<Record>
    requires n <= |items|
  {
    if n == 0 then []
    else Served(rev, items, n - 1)
         + if items[n - 1].Entry? && Behind(rev, items, n - 1) then [items[n - 1].record] else []
  }

  lemma BehindUpTo(rev: int, items: seq<Item>, n: nat, j: nat)
    requires AcceptedUpTo(rev, items, n) && j < |items|
    ensures Behind(rev, items, j) <==> j < n - 1
    ensures n <= |items| && (j == n - 1 ==> items[j].Close?)
  {
    hide Accepted;
    AcceptedClose(rev, items, n);
    if j < n - 1 {
      assert Accepted(rev, items, n - 1);
    }
  }

  lemma AcceptedClose(rev: int, items: seq<Item>, n: nat)
    requires AcceptedUpTo(rev, items, n)
    ensures n <= |items| && (n > 0 ==> items[n - 1].Close?)
  {
    hide Vouches;
  }

  lemma {:induction false} ServedUpTo(rev: int, items: seq<Item>, n: nat, i: nat)
    requires AcceptedUpTo(rev, items, n) && n <= |items| && i <= |items|
    ensures Served(rev, items, i) == Entries(items[..if i < n then i else n])
    decreases i
  {
    hide Accepted, AcceptedUpTo, Behind, Entries;
    if i == 0 {
      assert items[..0] == [];
      NoEntries();
    } else {
      ServedUpTo(rev, items, n, i - 1);
      BehindUpTo(rev, items, n, i - 1);
      if i <= n {
        EntriesMore(items[..i - 1], items[i - 1]);
        assert items[..i] == items[..i - 1] + [items[i - 1]];
      }
    }
  }

  lemma NoEntries()
    ensures Entries([]) == []
  {
  }

  /** What a scan serves, for every content of a block: the records that have an accepted crc behind them, in
      their order; as many commits as there are accepted crcs; and it stops at a crc that does not vouch for
      what is in front of it. */
  lemma ScanServes(rev: int, items: seq<Item>)
    ensures
      var s := ScanItems(rev, items);
      && s.closed == Served(rev, items, |items|) && s.commits == AcceptedCount(rev, items, |items|)
      && (s.stopped <==> Broken(rev, items))
  {
    hide ScanItems, Accepted, AcceptedCount, Broken;
    var n := ScanAccepts(rev, items);
    ServedUpTo(rev, items, n, |items|);
  }

  /** The storage behind the commits counts as erased when the last item is an accepted crc with the promise,
      and it is. */
  lemma ErasedMeans(b: Block)
    ensures Erased(b) <==>
      && b.items != [] && Accepted(b.rev, b.items, |b.items| - 1) && b.items[|b.items| - 1].fcrc && b.clean
  {
    hide ScanItems, AcceptedCount, Vouches;
    var last := |b.items| - 1;
    var n := ScanAccepts(b.rev, b.items);
    if b.items != [] && b.items[last].Close? {
      assert b.items[..last] + [b.items[last]] == b.items;
      BrokenMore(b.rev, b.items[..last], b.items[last]);
    }
  }

  // ---- programming a commit ----

  /** The items of a commit; the first one of a block vouches for the revision count as well. */
  function CommitItems(rev: Option<int>, attrs: seq<Record>, fcrc: bool): (items: seq<Item>)
    ensures |items| == |attrs| + 1
  {
    seq(|attrs|, k requires 0 <= k < |attrs| => Entry(attrs[k])) + [Close(Digest(rev, attrs), fcrc)]
  }

  /** A commit of which only the first k items were programmed. */
  lemma {:induction false} ScanCut(rev: int, items: seq<Item>, attrs: seq<Record>, fcrc: bool, k: nat)
    requires
      var s := ScanItems(rev, items);
      !s.stopped && s.pending == []
    requires k <= |attrs| + 1
    ensures
      var s := ScanItems(rev, items);
      var commit := CommitItems(if s.commits == 0 then Some(rev) else None, attrs, fcrc);
      ScanItems(rev, items + commit[..k]) ==
        if k == 0 then s
        else if k <= |attrs| then Scan(s.closed, attrs[..k], s.commits, false, false)
        else Scan(s.closed + attrs, [], s.commits + 1, fcrc, false)
  {
    hide CommitItems, ScanItems;
    var s := ScanItems(rev, items);
    var commit := CommitItems(if s.commits == 0 then Some(rev) else None, attrs, fcrc);
    if k == 0 {
      assert items + commit[..0] == items;
    } else {
      ScanCut(rev, items, attrs, fcrc, k - 1);
      ScanSnoc(rev, items + commit[..k - 1], commit[k - 1]);
      assert items + commit[..k] == items + commit[..k - 1] + [commit[k - 1]];
      CommitItem(if s.commits == 0 then Some(rev) else None, attrs, fcrc, k);
    }
  }

  lemma ScanSnoc(rev: int, items: seq<Item>, item: Item)
    ensures ScanItems(rev, items + [item]) == ScanItem(ScanItems(rev, items), rev, item)
  {
    hide ScanItem;
    assert (items + [item])[..|items|] == items;
  }

  lemma CommitItem(rev: Option<int>, attrs: seq<Record>, fcrc: bool, k: nat)
    requires 0 < k <= |attrs| + 1
    ensures CommitItems(rev, attrs, fcrc)[k - 1]
         == if k <= |attrs| then Entry(attrs[k - 1]) else Close(Digest(rev, attrs), fcrc)
    ensures k <= |attrs| ==> attrs[..k] == attrs[..k - 1] + [attrs[k - 1]]
    ensures k == |attrs| + 1 ==> attrs[..k - 1] == attrs
    ensures attrs[..0] == []
  {
  }

  /** Block i of the pair replaced. */
  function With(pair: seq<Block>, i: int, b: Block): (p: seq<Block>)
    requires |pair| == 2 && 0 <= i < 2
    ensures |p| == 2 && p[i] == b && p[1 - i] == pair[1 - i]
  {
    pair[i := b]
  }

  /** A block after the first k items of a commit; the item under way may have spoilt the storage. */
  function Appended(b: Block, attrs: seq<Record>, fcrc: bool, k: nat, clean: bool): Block
    requires k <= |attrs| + 1
  {
    Block(b.rev, b.items + CommitItems(None, attrs, fcrc)[..k], clean)
  }

  /** A commit appended to the current block, cut off after any number of items: the pair still counts
      on that block, and holds the records from before, or all of the new ones as well. */
  lemma AppendAtomic(pair: seq<Block>, i: int, attrs: seq<Record>, fcrc: bool, k: nat, clean: bool)
    requires Current(pair, i) && Erased(pair[i]) && k <= |attrs| + 1
    ensures
      var p := With(pair, i, Appended(pair[i], attrs, fcrc, k, clean));
      var before := ScanBlock(pair[i]).closed;
      && Current(p, i)
      && Fetch(p) == Dir(i, pair[i].rev, if k == |attrs| + 1 then before + attrs else before,
                         clean && (k == 0 || (k == |attrs| + 1 && fcrc)))
  {
    hide CommitItems, ScanItems, Scmp;
    ScanCut(pair[i].rev, pair[i].items, attrs, fcrc, k);
    FetchCurrent(With(pair, i, Appended(pair[i], attrs, fcrc, k, clean)), i);
  }

  /** What compaction leaves in the other block when it is cut off: an erase cut off leaves either the old
      revision count or nothing that a crc vouches for; then come the header and the items. */
  datatype Stage = Erasing(left: Block) | Header(left: Block) | Programmed(k: nat, clean: bool)

  predicate PossibleStage(was: Block, records: seq<Record>, stage: Stage) {
    match stage
    case Erasing(left) => ScanBlock(left).commits == 0 || (left.rev == was.rev && ScanBlock(was).commits > 0)
    case Header(left) => left.items == []
    case Programmed(k, clean) => k <= |records| + 1
  }

  function Compacting(rev: int, records: seq<Record>, fcrc: bool, stage: Stage): Block
    requires stage.Programmed? ==> stage.k <= |records| + 1
  {
    match stage
    case Erasing(left) => left
    case Header(left) => left
    case Programmed(k, clean) => Block(rev, CommitItems(Some(rev), records, fcrc)[..k], clean)
  }

  predicate Complete(records: seq<Record>, stage: Stage) {
    stage.Programmed? && stage.k == |records| + 1
  }

  /** Compaction onto the other block, cut off anywhere: the pair counts on the old block until the new
      one is complete, and then on the new one, also when the revision count wraps around. */
  lemma CompactAtomic(pair: seq<Block>, i: int, records: seq<Record>, fcrc: bool, stage: Stage)
    requires Current(pair, i) && PossibleStage(pair[1 - i], records, stage)
    ensures
      var rev := (pair[i].rev + 1) % REVS;
      var p := With(pair, 1 - i, Compacting(rev, records, fcrc, stage));
      if Complete(records, stage)
      then Current(p, 1 - i) && Fetch(p) == Dir(1 - i, rev, records, stage.clean && fcrc)
      else Current(p, i) && Fetch(p) == DirOf(pair, i)
  {
    hide CommitItems, Scmp, ScanItems;
    var rev := (pair[i].rev + 1) % REVS;
    var p := With(pair, 1 - i, Compacting(rev, records, fcrc, stage));
    CompactingScan(rev, records, fcrc, stage);
    ScmpNext(pair[i].rev);
    FetchCurrent(p, if Complete(records, stage) then 1 - i else i);
  }

  /** Only the complete compaction holds a commit. */
  lemma CompactingScan(rev: int, records: seq<Record>, fcrc: bool, stage: Stage)
    requires stage.Programmed? ==> stage.k <= |records| + 1
    ensures
      var s := ScanBlock(Compacting(rev, records, fcrc, stage));
      && (stage.Programmed? && !Complete(records, stage) ==> s.commits == 0)
      && (stage.Header? && stage.left.items == [] ==> s.commits == 0)
      && (Complete(records, stage) ==> s == Scan(records, [], 1, fcrc, false))
  {
    hide CommitItems;
    if stage.Programmed? {
      ScanCut(rev, [], records, fcrc, stage.k);
      var items := CommitItems(Some(rev), records, fcrc)[..stage.k];
      assert [] + items == items;
      assert [] + records == records;
    }
  }

  // ---- runs ----

  /** The two logs hold equally many entries and answer alike about each of them. */
  ghost predicate Alike(a: seq<Record>, baseA: nat, b: seq<Record>, baseB: nat, mask: bv16, ty: bv16) {
    && WellFormed(a, baseA) && WellFormed(b, baseB) && Count(a, baseA) == Count(b, baseB)
    && forall id | 0 <= id < Count(a, baseA) :: Lookup(a, mask, ty, id) == Lookup(b, mask, ty, id)
  }

  /** Equal answers stay equal under a further record. */
  lemma AlikeOne(a: seq<Record>, baseA: nat, b: seq<Record>, baseB: nat, e: Record, mask: bv16, ty: bv16)
    requires Alike(a, baseA, b, baseB, mask, ty) && Fits(e.tag, Count(a, baseA))
    ensures Alike(a + [e], baseA, b + [e], baseB, mask, ty)
  {
    hide Lookup, Fits, WellFormed, Count;
    MoreFits(a, e, baseA);
    MoreFits(b, e, baseB);
    forall id | 0 <= id < Count(a + [e], baseA)
      ensures Lookup(a + [e], mask, ty, id) == Lookup(b + [e], mask, ty, id)
    {
      AlikeAnswer(a, b, e, Count(a, baseA), mask, ty, id);
    }
  }

  lemma MoreFits(log: seq<Record>, e: Record, base: nat)
    requires WellFormed(log, base) && Fits(e.tag, Count(log, base))
    ensures WellFormed(log + [e], base)
    ensures Count(log + [e], base)
         == Count(log, base) + if e.tag.ty == CREATE then 1 else if e.tag.ty == DELETE then -1 else 0
  {
    hide Fits;
    assert (log + [e])[..|log|] == log;
  }

  lemma AlikeAnswer(a: seq<Record>, b: seq<Record>, e: Record, n: int, mask: bv16, ty: bv16, id: nat)
    requires forall id | 0 <= id < n :: Lookup(a, mask, ty, id) == Lookup(b, mask, ty, id)
    requires Fits(e.tag, n) && id < n + (if e.tag.ty == CREATE then 1 else if e.tag.ty == DELETE then -1 else 0)
    ensures Lookup(a + [e], mask, ty, id) == Lookup(b + [e], mask, ty, id)
  {
    hide IsSplice, Agree, Lookup, Matches;
    FitsSplice(e.tag, n);
    LookupSnoc(a, e, mask, ty, id);
    LookupSnoc(b, e, mask, ty, id);
    if e.tag != Tag(CREATE, id, 0) {
      assert 0 <= Unspliced(e.tag, id) < n;
    }
  }

  lemma FitsSplice(t: Tag, n: int)
    requires Fits(t, n)
    ensures IsSplice(t) ==> SpliceOf(t) == if t.ty == CREATE then 1 else -1
    ensures t.ty == CREATE || t.ty == DELETE <==> IsSplice(t)
  {
  }

  predicate FitAll(attrs: seq<Record>, n: int) {
    if attrs == [] then true
    else FitAll(attrs[..|attrs| - 1], n) && Fits(attrs[|attrs| - 1].tag, n + Growth(attrs[..|attrs| - 1]))
  }

  /** How many entries the attributes add. */
  function Growth(attrs: seq<Record>): int {
    if attrs == [] then 0
    else
      var t := attrs[|attrs| - 1].tag;
      Growth(attrs[..|attrs| - 1]) + if t.ty == CREATE then 1 else if t.ty == DELETE then -1 else 0
  }

  lemma {:induction false} AlikeMore(a: seq<Record>, baseA: nat, b: seq<Record>, baseB: nat, attrs: seq<Record>,
                                     mask: bv16, ty: bv16)
    requires Alike(a, baseA, b, baseB, mask, ty) && FitAll(attrs, Count(a, baseA))
    ensures Alike(a + attrs, baseA, b + attrs, baseB, mask, ty)
    ensures Count(a + attrs, baseA) == Count(a, baseA) + Growth(attrs)
    decreases |attrs|
  {
    hide Alike, Fits, WellFormed, Count, FitAll, Growth;
    if attrs == [] {
      assert a + attrs == a && b + attrs == b;
      NoGrowth();
    } else {
      var e, before := attrs[|attrs| - 1], attrs[..|attrs| - 1];
      FitAllLast(attrs, Count(a, baseA));
      AlikeMore(a, baseA, b, baseB, before, mask, ty);
      AlikeOne(a + before, baseA, b + before, baseB, e, mask, ty);
      assert a + attrs == a + before + [e] && b + attrs == b + before + [e];
      AlikeParts(a + attrs, baseA, b + attrs, baseB, mask, ty);
      CountOne(a + before, e, baseA);
    }
  }

  lemma NoGrowth()
    ensures Growth([]) == 0
  {
  }

  lemma FitAllLast(attrs: seq<Record>, n: int)
    requires FitAll(attrs, n) && attrs != []
    ensures
      var e, before := attrs[|attrs| - 1], attrs[..|attrs| - 1];
      && FitAll(before, n) && Fits(e.tag, n + Growth(before))
      && Growth(attrs) == Growth(before) + if e.tag.ty == CREATE then 1 else if e.tag.ty == DELETE then -1 else 0
  {
    hide Fits;
  }

  lemma AlikeParts(a: seq<Record>, baseA: nat, b: seq<Record>, baseB: nat, mask: bv16, ty: bv16)
    requires Alike(a, baseA, b, baseB, mask, ty)
    ensures WellFormed(a, baseA) && WellFormed(b, baseB)
  {
  }

  lemma CountOne(log: seq<Record>, e: Record, base: nat)
    requires WellFormed(log + [e], base)
    ensures WellFormed(log, base)
    ensures Count(log + [e], base)
         == Count(log, base) + if e.tag.ty == CREATE then 1 else if e.tag.ty == DELETE then -1 else 0
  {
    assert (log + [e])[..|log|] == log;
  }

  /** Attributes committed to the pair, by appending or by compaction, and where power is lost; a commit
      that is not cut off is the one whose last item was programmed. */
  datatype Action =
    | Append(attrs: seq<Record>, fcrc: bool, cut: nat, clean: bool)
    | Compaction(attrs: seq<Record>, trailer: seq<Record>, fcrc: bool, stage: Stage)

  /** The pair on disk, how many entries the log in the current block starts from, and the log of all
      commits completed so far. */
  datatype World = World(pair: seq<Block>, base: nat, history: seq<Record>)

  predicate Readable(w: World) {
    |w.pair| == 2 && Fetch(w.pair).Dir? && Current(w.pair, Fetch(w.pair).which)
  }

  /** The records compaction writes: the entries, then tail and global state. */
  function Rewritten(w: World, attrs: seq<Record>, trailer: seq<Record>): seq<Record>
    requires Readable(w)
  {
    var log := Fetch(w.pair).records + attrs;
    Compact(log, 0, Count(log, w.base)) + trailer
  }

  predicate IsTrailer(trailer: seq<Record>) {
    forall k | 0 <= k < |trailer| :: TrailerTag(trailer[k].tag)
  }

  predicate TrailerTag(t: Tag) {
    !Kept(t) && !IsSplice(t) && t.id == NO_ID
  }

  /** What can happen next: an append only where the storage is known to be erased. */
  predicate Possible(w: World, a: Action) {
    Readable(w) &&
    var dir := Fetch(w.pair);
    FitAll(a.attrs, Count(dir.records, w.base)) &&
    match a
    case Append(attrs, fcrc, cut, clean) => dir.erased && cut <= |attrs| + 1
    case Compaction(attrs, trailer, fcrc, stage) =>
      IsTrailer(trailer) && PossibleStage(w.pair[1 - dir.which], Rewritten(w, attrs, trailer), stage)
  }

  function Next(w: World, a: Action): World
    requires Possible(w, a)
  {
    var dir := Fetch(w.pair);
    match a
    case Append(attrs, fcrc, cut, clean) =>
      World(With(w.pair, dir.which, Appended(w.pair[dir.which], attrs, fcrc, cut, clean)), w.base,
            if cut == |attrs| + 1 then w.history + attrs else w.history)
    case Compaction(attrs, trailer, fcrc, stage) =>
      var records := Rewritten(w, attrs, trailer);
      var p := With(w.pair, 1 - dir.which, Compacting((dir.rev + 1) % REVS, records, fcrc, stage));
      if Complete(records, stage) then World(p, MaxZero(Count(dir.records + attrs, w.base)), w.history + attrs)
      else World(p, w.base, w.history)
  }

  function MaxZero(n: int): nat {
    if n < 0 then 0 else n
  }

  /** The directory can be fetched, and answers as the completed commits say. */
  ghost predicate Sound(w: World, start: nat, mask: bv16, ty: bv16) {
    Readable(w) && Alike(Fetch(w.pair).records, w.base, w.history, start, mask, ty)
  }

  lemma {:induction false} TrailerWellFormed(log: seq<Record>, base: nat, trailer: seq<Record>)
    requires WellFormed(log, base) && IsTrailer(trailer)
    ensures WellFormed(log + trailer, base) && Count(log + trailer, base) == Count(log, base)
    decreases |trailer|
  {
    hide IsSplice, Kept;
    if trailer == [] {
      assert log + trailer == log;
    } else {
      var before := trailer[..|trailer| - 1];
      TrailerWellFormed(log, base, before);
      assert (log + trailer)[..|log + trailer| - 1] == log + before;
      assert TrailerTag(trailer[|trailer| - 1].tag);
      KeptFacts(trailer[|trailer| - 1].tag, trailer[|trailer| - 1].tag);
    }
  }

  /** What compaction writes answers like the log it compacts. */
  lemma RewrittenAlike(log: seq<Record>, base: nat, trailer: seq<Record>, history: seq<Record>, start: nat,
                       mask: bv16, ty: bv16)
    requires Alike(log, base, history, start, mask, ty) && IsTrailer(trailer) && Granular(mask, ty)
    ensures
      var n := Count(log, base);
      n >= 0 && Alike(Compact(log, 0, n) + trailer, n, history, start, mask, ty)
  {
    hide IsSplice, Kept, Lookup, Compact, Granular, Agree, EntryQuery, RegularSplices, WellFormed, Count;
    var n := Count(log, base);
    CountRange(log, base);
    KeyFacts(Tag(0, 0, 0), Tag(0, 0, 0), mask, ty);
    WellFormedSplices(log, base);
    CompactShape(log, 0, n);
    TrailerWellFormed(Compact(log, 0, n), n, trailer);
    TrailerInvisibleAll(Compact(log, 0, n), trailer, mask, ty);
    forall id | 0 <= id < n
      ensures Lookup(Compact(log, 0, n) + trailer, mask, ty, id) == Lookup(history, mask, ty, id)
    {
      CompactionPreserves(log, 0, n, mask, ty, id);
    }
  }

  lemma CountRange(log: seq<Record>, base: nat)
    requires WellFormed(log, base)
    ensures 0 <= Count(log, base) < NO_ID
  {
    ghost var entries := Replay(log, base);
  }

  lemma TrailerInvisibleAll(log: seq<Record>, trailer: seq<Record>, mask: bv16, ty: bv16)
    requires IsTrailer(trailer) && EntryQuery(mask, ty)
    ensures forall id :: Lookup(log + trailer, mask, ty, id) == Lookup(log, mask, ty, id)
  {
    hide IsSplice, Kept, Lookup, EntryQuery;
    assert forall k | 0 <= k < |trailer| :: TrailerTag(trailer[k].tag);
    forall id
      ensures Lookup(log + trailer, mask, ty, id) == Lookup(log, mask, ty, id)
    {
      TrailerInvisible(log, trailer, mask, ty, id);
    }
  }

  /** Every commit, completed or cut off anywhere, leaves the directory as it was or as committed. */
  lemma NextSound(w: World, a: Action, start: nat, mask: bv16, ty: bv16)
    requires Sound(w, start, mask, ty) && Possible(w, a) && Granular(mask, ty)
    ensures Sound(Next(w, a), start, mask, ty)
  {
    hide IsSplice, Kept, Lookup, Granular, Alike, Fetch, ScanBlock, Scmp, WellFormed, FitAll, CommitItems, Compact,
         Current, Erased;
    var dir := Fetch(w.pair);
    FetchCurrent(w.pair, dir.which);
    AlikeMore(dir.records, w.base, w.history, start, a.attrs, mask, ty);
    match a
    case Append(attrs, fcrc, cut, clean) =>
      AppendAtomic(w.pair, dir.which, attrs, fcrc, cut, clean);
    case Compaction(attrs, trailer, fcrc, stage) =>
      RewrittenAlike(dir.records + attrs, w.base, trailer, w.history + attrs, start, mask, ty);
      CompactAtomic(w.pair, dir.which, Rewritten(w, attrs, trailer), fcrc, stage);
  }

  predicate PossibleRun(w: World, actions: seq<Action>)
    decreases |actions|
  {
    if actions == [] then true
    else Possible(w, actions[0]) && PossibleRun(Next(w, actions[0]), actions[1..])
  }

  function Run(w: World, actions: seq<Action>): World
    requires PossibleRun(w, actions)
    decreases |actions|
  {
    if actions == [] then w else Run(Next(w, actions[0]), actions[1..])
  }

  /** After any run of commits and power losses the next fetch finds exactly the completed commits. */
  lemma {:induction false} RunSound(w: World, actions: seq<Action>, start: nat, mask: bv16, ty: bv16)
    requires Sound(w, start, mask, ty) && PossibleRun(w, actions) && Granular(mask, ty)
    ensures Sound(Run(w, actions), start, mask, ty)
    decreases |actions|
  {
    hide Sound, Possible, Next, Granular;
    if actions != [] {
      NextSound(w, actions[0], start, mask, ty);
      RunSound(Next(w, actions[0]), actions[1..], start, mask, ty);
    }
  }

  // ---- runs and lookups that are finer than compaction ----

  /** What a log that was compacted on the way may answer to a finer lookup: what the history answers, or the
      newest name or struct if that agrees, and nothing otherwise. */
  predicate FineAnswer(now: seq<Record>, history: seq<Record>, mask: bv16, ty: bv16, id: int) {
    || Lookup(now, mask, ty, id) == Lookup(history, mask, ty, id)
    || Lookup(now, mask, ty, id) == IfAgrees(Lookup(history, 0x700, ty, id), mask, ty)
  }

  /** The finer lookup of entry id cannot tell how often the history was compacted. */
  predicate Settled(history: seq<Record>, mask: bv16, ty: bv16, id: int) {
    IfAgrees(Lookup(history, 0x700, ty, id), mask, ty) != None || Lookup(history, mask, ty, id) == None
  }

  lemma SettledAnswer(now: seq<Record>, history: seq<Record>, mask: bv16, ty: bv16, id: int)
    requires Fine(mask, ty) && FineAnswer(now, history, mask, ty, id)
    ensures Settled(history, mask, ty, id) ==> Lookup(now, mask, ty, id) == Lookup(history, mask, ty, id)
  {
    hide Lookup, Agree;
    NewestFirst(history, mask, ty, id);
  }

  ghost predicate FineAlike(a: seq<Record>, baseA: nat, b: seq<Record>, baseB: nat, mask: bv16, ty: bv16) {
    && Alike(a, baseA, b, baseB, 0x700, ty)
    && forall id | 0 <= id < Count(a, baseA) :: FineAnswer(a, b, mask, ty, id)
  }

  /** One more record, for one entry. */
  lemma FineAnswerOne(a: seq<Record>, b: seq<Record>, e: Record, n: int, mask: bv16, ty: bv16, id: nat)
    requires Fine(mask, ty) && forall id | 0 <= id < n :: FineAnswer(a, b, mask, ty, id)
    requires forall id | 0 <= id < n :: Lookup(a, 0x700, ty, id) == Lookup(b, 0x700, ty, id)
    requires Fits(e.tag, n) && id < n + (if e.tag.ty == CREATE then 1 else if e.tag.ty == DELETE then -1 else 0)
    ensures FineAnswer(a + [e], b + [e], mask, ty, id)
  {
    hide IsSplice, Agree, Lookup, Fine;
    FitsSplice(e.tag, n);
    LookupSnoc(a, e, mask, ty, id);
    LookupSnoc(b, e, mask, ty, id);
    LookupSnoc(b, e, 0x700, ty, id);
    if e.tag != Tag(CREATE, id, 0) {
      var before := Unspliced(e.tag, id);
      assert FineAnswer(a, b, mask, ty, before);
      FineFacts(e.tag, e.tag, mask, ty);
      NewestFirst(b, mask, ty, before);
    }
  }

  lemma {:induction false} FineMore(a: seq<Record>, baseA: nat, b: seq<Record>, baseB: nat, attrs: seq<Record>,
                                    mask: bv16, ty: bv16)
    requires FineAlike(a, baseA, b, baseB, mask, ty) && FitAll(attrs, Count(a, baseA)) && Fine(mask, ty)
    ensures FineAlike(a + attrs, baseA, b + attrs, baseB, mask, ty)
    decreases |attrs|
  {
    hide Alike, Lookup, Fits, Fine, FineAnswer, WellFormed, Count;
    FineCoarse(a, baseA, b, baseB, mask, ty);
    AlikeMore(a, baseA, b, baseB, attrs, 0x700, ty);
    if attrs == [] {
      assert a + attrs == a && b + attrs == b;
    } else {
      hide FineAlike;
      var e, before := attrs[|attrs| - 1], attrs[..|attrs| - 1];
      FineMore(a, baseA, b, baseB, before, mask, ty);
      AlikeMore(a, baseA, b, baseB, before, 0x700, ty);
      assert a + attrs == a + before + [e] && b + attrs == b + before + [e];
      FineOne(a + before, baseA, b + before, baseB, e, mask, ty);
      FineParts(a + attrs, baseA, b + attrs, baseB, mask, ty);
    }
  }

  lemma FineCoarse(a: seq<Record>, baseA: nat, b: seq<Record>, baseB: nat, mask: bv16, ty: bv16)
    requires FineAlike(a, baseA, b, baseB, mask, ty)
    ensures Alike(a, baseA, b, baseB, 0x700, ty)
  {
  }

  lemma FineParts(a: seq<Record>, baseA: nat, b: seq<Record>, baseB: nat, mask: bv16, ty: bv16)
    requires Alike(a, baseA, b, baseB, 0x700, ty) && Fine(mask, ty)
    requires forall id | 0 <= id < Count(a, baseA) :: FineAnswer(a, b, mask, ty, id)
    ensures FineAlike(a, baseA, b, baseB, mask, ty)
  {
  }

  lemma FineOne(a: seq<Record>, baseA: nat, b: seq<Record>, baseB: nat, e: Record, mask: bv16, ty: bv16)
    requires FineAlike(a, baseA, b, baseB, mask, ty) && Fits(e.tag, Count(a, baseA)) && Fine(mask, ty)
    ensures forall id | 0 <= id < Count(a + [e], baseA) :: FineAnswer(a + [e], b + [e], mask, ty, id)
  {
    hide Lookup, Fits, Fine, FineAnswer, WellFormed;
    assert (a + [e])[..|a|] == a;
    forall id | 0 <= id < Count(a + [e], baseA)
      ensures FineAnswer(a + [e], b + [e], mask, ty, id)
    {
      FineAnswerOne(a, b, e, Count(a, baseA), mask, ty, id);
    }
  }

  /** What compaction writes answers a finer lookup with the newest name or struct, or nothing. */
  lemma RewrittenFine(log: seq<Record>, base: nat, trailer: seq<Record>, history: seq<Record>, start: nat,
                      mask: bv16, ty: bv16)
    requires FineAlike(log, base, history, start, mask, ty) && IsTrailer(trailer) && Fine(mask, ty)
    ensures
      var n := Count(log, base);
      && n >= 0 && FineAlike(Compact(log, 0, n) + trailer, n, history, start, mask, ty)
      && forall id | 0 <= id < n ::
           Lookup(Compact(log, 0, n) + trailer, mask, ty, id) == IfAgrees(Lookup(history, 0x700, ty, id), mask, ty)
  {
    hide IsSplice, Kept, Lookup, Compact, Granular, Agree, EntryQuery, RegularSplices, WellFormed, Count, Fine,
         IfAgrees;
    var n := Count(log, base);
    CountRange(log, base);
    FineFacts(Tag(0, 0, 0), Tag(0, 0, 0), mask, ty);
    RewrittenAlike(log, base, trailer, history, start, 0x700, ty);
    WellFormedSplices(log, base);
    FineQuery(mask, ty);
    TrailerInvisibleAll(Compact(log, 0, n), trailer, mask, ty);
    forall id | 0 <= id < n
      ensures Lookup(Compact(log, 0, n) + trailer, mask, ty, id) == IfAgrees(Lookup(history, 0x700, ty, id), mask, ty)
    {
      FineLookup(log, 0, n, mask, ty, id);
    }
  }

  /** The directory can be fetched, and answers finer lookups as far as they are settled. */
  ghost predicate SoundFine(w: World, start: nat, mask: bv16, ty: bv16) {
    Readable(w) && FineAlike(Fetch(w.pair).records, w.base, w.history, start, mask, ty)
  }

  lemma NextSoundFine(w: World, a: Action, start: nat, mask: bv16, ty: bv16)
    requires SoundFine(w, start, mask, ty) && Possible(w, a) && Fine(mask, ty)
    ensures SoundFine(Next(w, a), start, mask, ty)
  {
    hide IsSplice, Kept, Lookup, Fine, FineAlike, Fetch, ScanBlock, Scmp, WellFormed, FitAll, CommitItems, Compact,
         Current, Erased;
    var dir := Fetch(w.pair);
    FetchCurrent(w.pair, dir.which);
    FineMore(dir.records, w.base, w.history, start, a.attrs, mask, ty);
    match a
    case Append(attrs, fcrc, cut, clean) =>
      AppendAtomic(w.pair, dir.which, attrs, fcrc, cut, clean);
    case Compaction(attrs, trailer, fcrc, stage) =>
      RewrittenFine(dir.records + attrs, w.base, trailer, w.history + attrs, start, mask, ty);
      CompactAtomic(w.pair, dir.which, Rewritten(w, attrs, trailer), fcrc, stage);
  }

  /** After any run of commits and power losses, lookups of names and structs as fine as the code has them
      find exactly the completed commits, for every entry for which they are settled; of names, mask 0x780,
      they are whenever the newest name of the entry is that of a file or directory. */
  lemma {:induction false} RunSoundFine(w: World, actions: seq<Action>, start: nat, mask: bv16, ty: bv16)
    requires SoundFine(w, start, mask, ty) && PossibleRun(w, actions) && Fine(mask, ty)
    ensures
      var now := Run(w, actions);
      && SoundFine(now, start, mask, ty)
      && forall id | 0 <= id < Count(now.history, start) && Settled(now.history, mask, ty, id) ::
           Lookup(Fetch(now.pair).records, mask, ty, id) == Lookup(now.history, mask, ty, id)
    decreases |actions|
  {
    hide SoundFine, Possible, Next, Fine, Settled, Lookup, Fetch;
    if actions != [] {
      NextSoundFine(w, actions[0], start, mask, ty);
      RunSoundFine(Next(w, actions[0]), actions[1..], start, mask, ty);
    } else {
      SettledNow(w, start, mask, ty);
    }
  }

  lemma SettledNow(w: World, start: nat, mask: bv16, ty: bv16)
    requires SoundFine(w, start, mask, ty) && Fine(mask, ty)
    ensures forall id | 0 <= id < Count(w.history, start) && Settled(w.history, mask, ty, id) ::
      Lookup(Fetch(w.pair).records, mask, ty, id) == Lookup(w.history, mask, ty, id)
  {
    hide Fine, Settled, Lookup, Fetch, FineAnswer, WellFormed, Count;
    forall id | 0 <= id < Count(w.history, start) && Settled(w.history, mask, ty, id)
      ensures Lookup(Fetch(w.pair).records, mask, ty, id) == Lookup(w.history, mask, ty, id)
    {
      SettledAnswer(Fetch(w.pair).records, w.history, mask, ty, id);
    }
  }

  /** And only for those: a compaction of the directory as it is changes every other finer lookup. */
  lemma SettledExactly(w: World, start: nat, mask: bv16, ty: bv16, id: nat)
    requires SoundFine(w, start, mask, ty) && Fine(mask, ty) && id < Count(w.history, start) && Fetch(w.pair).Dir?
    ensures
      var a := Compaction([], [], false, Programmed(|Rewritten(w, [], [])| + 1, true));
      && Possible(w, a)
      && (Lookup(Fetch(Next(w, a).pair).records, mask, ty, id) == Lookup(w.history, mask, ty, id)
          <==> Settled(w.history, mask, ty, id))
  {
    hide IsSplice, Kept, Lookup, Fine, FineAlike, Fetch, ScanBlock, Scmp, WellFormed, CommitItems, Compact, Current,
         Erased, Agree;
    var dir, records := Fetch(w.pair), Rewritten(w, [], []);
    FetchCurrent(w.pair, dir.which);
    assert dir.records + [] == dir.records;
    AlikeCounts(dir.records, w.base, w.history, start, mask, ty);
    RewrittenFine(dir.records, w.base, [], w.history, start, mask, ty);
    CompactAtomic(w.pair, dir.which, records, false, Programmed(|records| + 1, true));
    NewestFirst(w.history, mask, ty, id);
  }

  lemma AlikeCounts(a: seq<Record>, baseA: nat, b: seq<Record>, baseB: nat, mask: bv16, ty: bv16)
    requires FineAlike(a, baseA, b, baseB, mask, ty)
    ensures Count(a, baseA) == Count(b, baseB)
  {
  }

  // ---- fetching and committing, step by step ----

  /** The record is a pointer to the next pair. */
  predicate PointsOn(t: Tag) {
    t.ty & 0x700 == 0x600
  }

  /** The pointer to the next pair, and whether that belongs to the same directory. */
  function TailOf(log: seq<Record>): Option<Record> {
    if log == [] then None
    else if PointsOn(log[|log| - 1].tag) then Some(log[|log| - 1])
    else TailOf(log[..|log| - 1])
  }

  /** Record k points to the next pair, and no later one does. */
  predicate LastTail(log: seq<Record>, k: int) {
    && 0 <= k < |log| && PointsOn(log[k].tag)
    && forall j | k < j < |log| :: !PointsOn(log[j].tag)
  }

  lemma PointsOnTypes(t: Tag)
    requires t.ty < 0x800
    ensures PointsOn(t) <==> 0x600 <= t.ty < 0x700
  {
  }

  /** The newest of several pointers counts. */
  lemma {:induction false} TailMeans(log: seq<Record>)
    ensures forall k | LastTail(log, k) :: 0 <= k < |log| && TailOf(log) == Some(log[k])
    ensures TailOf(log).Some? ==> exists k :: LastTail(log, k)
    ensures TailOf(log) == None ==> forall k | 0 <= k < |log| :: !PointsOn(log[k].tag)
  {
    hide PointsOn, LastTail;
    if log == [] {
      NoTail();
    } else {
      var n := |log| - 1;
      TailMeans(log[..n]);
      LastTailMore(log);
    }
  }

  lemma NoTail()
    ensures forall k :: !LastTail([], k)
  {
  }

  lemma LastTailMore(log: seq<Record>)
    requires log != []
    ensures
      var n := |log| - 1;
      if PointsOn(log[n].tag) then LastTail(log, n) && forall k | LastTail(log, k) :: k == n
      else forall k :: LastTail(log, k) <==> LastTail(log[..n], k)
  {
    hide PointsOn;
  }

  lemma {:induction false} TailBehind(log: seq<Record>, more: seq<Record>)
    ensures TailOf(log + more) == if TailOf(more).Some? then TailOf(more) else TailOf(log)
    decreases |more|
  {
    if more == [] {
      assert log + more == log;
    } else {
      var all := log + more;
      hide PointsOn;
      TailBehind(log, more[..|more| - 1]);
      assert all[..|all| - 1] == log + more[..|more| - 1] && all[|all| - 1] == more[|more| - 1];
    }
  }

  /** A fetch reports the last pointer that a completed commit has written, be it appended or compacted. */
  lemma TailCommitted(pair: seq<Block>, i: int, attrs: seq<Record>, fcrc: bool, clean: bool, k: int)
    requires Current(pair, i) && LastTail(attrs, k)
    ensures
      var p := With(pair, i, Appended(pair[i], attrs, fcrc, |attrs| + 1, clean));
      Erased(pair[i]) ==> Fetch(p).Dir? && TailOf(Fetch(p).records) == Some(attrs[k])
    ensures
      var rev := (pair[i].rev + 1) % REVS;
      var p := With(pair, 1 - i, Compacting(rev, attrs, fcrc, Programmed(|attrs| + 1, clean)));
      Fetch(p).Dir? && TailOf(Fetch(p).records) == Some(attrs[k])
  {
    hide Current, Erased, Fetch, Appended, Compacting, TailOf, LastTail, ScanBlock;
    assert |pair| == 2 && 0 <= i < 2 by { CurrentShape(pair, i); }
    TailMeans(attrs);
    TailBehind(ScanBlock(pair[i]).closed, attrs);
    CompactAtomic(pair, i, attrs, fcrc, Programmed(|attrs| + 1, clean));
    if Erased(pair[i]) {
      AppendAtomic(pair, i, attrs, fcrc, |attrs| + 1, clean);
    }
  }

  lemma CurrentShape(pair: seq<Block>, i: int)
    requires Current(pair, i)
    ensures |pair| == 2 && 0 <= i < 2
  {
  }

  /** What the scan of a block gathers besides the records: the best tag for a name, the number of entries
      and the tail. */
  datatype Gathered = Gathered(best: Best, count: int, tail: Option<Record>)

  function Gather(log: seq<Record>, name: seq<bv8>): Gathered {
    Gathered(BestTag(log, name), NameCount(log), TailOf(log))
  }

  function GatherRecord(g: Gathered, e: Record, name: seq<bv8>): Gathered {
    Gathered(MatchStep(g.best, e, name), CountStep(g.count, e.tag),
             if PointsOn(e.tag) then Some(e) else g.tail)
  }

  lemma GatherMore(log: seq<Record>, e: Record, name: seq<bv8>)
    ensures Gather(log + [e], name) == GatherRecord(Gather(log, name), e, name)
  {
    hide MatchStep, CountStep;
    assert (log + [e])[..|log|] == log;
  }

  /** One item: a record is gathered for the time being, a crc that fits makes that final. */
  lemma GatherItem(s: Scan, rev: int, item: Item, name: seq<bv8>)
    ensures
      var s' := ScanItem(s, rev, item);
      && (item.Entry? && !s.stopped ==>
            s'.closed == s.closed && s'.commits == s.commits
            && Gather(s'.closed + s'.pending, name)
               == GatherRecord(Gather(s.closed + s.pending, name), item.record, name))
      && (item.Close? || s.stopped ==> Gather(s'.closed + s'.pending, name) == Gather(s.closed + s.pending, name))
      && (s'.commits == s.commits ==> s'.closed == s.closed)
      && (s'.commits != s.commits ==> s'.closed == s.closed + s.pending && s'.commits > 0)
  {
    hide Gather, GatherRecord;
    if item.Entry? && !s.stopped {
      GatherMore(s.closed + s.pending, item.record, name);
      assert s.closed + (s.pending + [item.record]) == s.closed + s.pending + [item.record];
    } else {
      assert s.closed + s.pending + [] == s.closed + s.pending;
    }
  }

  /** The scan of one block by lfs_dir_fetchmatch, item by item until something is not vouched for. */
  method FetchBlock(b: Block, name: seq<bv8>) returns (s: Scan, got: Gathered)
    ensures s == ScanBlock(b) && got == Gather(s.closed, name)
    ensures s.closed == Served(b.rev, b.items, |b.items|) && s.commits == AcceptedCount(b.rev, b.items, |b.items|)
  {
    hide ScanItem, Gather, GatherRecord;
    s := Scan([], [], 0, false, false);
    got := Gathered(NoBest, 0, None);
    var temp := got;
    var off := 0;
    assert b.items[..0] == [];
    GatherNothing(name);
    while off < |b.items|
      invariant 0 <= off <= |b.items| && s == ScanItems(b.rev, b.items[..off])
      invariant temp == Gather(s.closed + s.pending, name) && got == Gather(s.closed, name)
    {
      ScanSnoc(b.rev, b.items[..off], b.items[off]);
      assert b.items[..off + 1] == b.items[..off] + [b.items[off]];
      GatherItem(s, b.rev, b.items[off], name);
      var commits := s.commits;
      if b.items[off].Entry? && !s.stopped {
        temp := GatherRecord(temp, b.items[off].record, name);
      }
      s := ScanItem(s, b.rev, b.items[off]);
      if s.commits != commits {
        got := temp;
      }
      off := off + 1;
    }
    assert b.items[..off] == b.items;
    ScanServes(b.rev, b.items);
  }

  lemma GatherNothing(name: seq<bv8>)
    ensures Gather([] + [], name) == Gather([], name) == Gathered(NoBest, 0, None)
  {
  }

  /** lfs_dir_fetchmatch: the block with the newer revision count first, the other one when that holds no
      closed commit; then the pending move on top of what was found. */
  method FetchPair(pair: array<Block>, name: seq<bv8>, move: Option<int>)
    returns (dir: Fetched, found: Outcome, tail: Option<Record>)
    requires pair.Length == 2
    ensures dir == Fetch(pair[..])
    ensures dir.Dir? ==> found == FetchMatch(dir.records, name, move) && tail == TailOf(dir.records)
  {
    hide ScanBlock, Scmp, Served, AcceptedCount;
    var revs, r := [0, 0], 0;
    for i := 0 to 2
      invariant |revs| == 2 && (i >= 1 ==> revs[0] == pair[0].rev) && (i == 2 ==> revs[1] == pair[1].rev)
      invariant i <= 1 ==> r == 0
      invariant i == 2 ==> r == if Scmp(pair[1].rev, pair[0].rev) > 0 then 1 else 0
    {
      revs := revs[i := pair[i].rev];
      if Scmp(revs[i], revs[(i + 1) % 2]) > 0 {
        r := i;
      }
    }
    for i := 0 to 2
      invariant r == if (Scmp(pair[1].rev, pair[0].rev) > 0) == (i != 1) then 1 else 0
      invariant i >= 1 ==> ScanBlock(pair[1 - r]).commits == 0
      invariant i == 2 ==> ScanBlock(pair[r]).commits == 0
    {
      var s, got := FetchBlock(pair[r], name);
      if s.commits > 0 {
        dir := Dir(r, pair[r].rev, s.closed, !s.stopped && s.pending == [] && s.fcrc && pair[r].clean);
        var best := Synthetic(got.best, move);
        var place := Min(BestId(best), got.count);
        found := if best.Best? && best.valid then Hit(best.id)
                 else if BestId(best) < got.count then NoEntry(place)
                 else Elsewhere(place);
        return dir, found, got.tail;
      }
      r := 1 - r;
    }
    return Corrupt, Elsewhere(0), None;
  }

  /** A state of the pair in which the commit has not happened, or has. */
  predicate BeforeOrAfter(pair: seq<Block>, before: seq<Record>, after: seq<Record>) {
    |pair| == 2 && Fetch(pair).Dir? && (Fetch(pair).records == before || Fetch(pair).records == after)
  }

  /** Appending a commit item by item. The trace lists the pair after every single programming step. */
  method AppendCommit(pair: array<Block>, i: int, attrs: seq<Record>, fcrc: bool) returns (ghost trace: seq<seq<Block>>)
    requires pair.Length == 2 && 0 <= i < 2 && Current(pair[..], i) && Erased(pair[i])
    modifies pair
    ensures Current(pair[..], i)
    ensures Fetch(pair[..]) == Dir(i, old(pair[i].rev), old(ScanBlock(pair[i]).closed) + attrs, fcrc)
    ensures |trace| == |attrs| + 1
    ensures forall k | 0 <= k < |trace| ::
      BeforeOrAfter(trace[k], old(ScanBlock(pair[i]).closed), old(ScanBlock(pair[i]).closed) + attrs)
  {
    hide ScanBlock, Current, Erased, CommitItems, Fetch, BeforeOrAfter;
    ghost var was := pair[..];
    var b := pair[i];
    var commit := CommitItems(None, attrs, fcrc);
    trace := [];
    assert commit[..0] == [];
    assert b == pair[..][i];
    for k := 0 to |commit|
      invariant pair[..] == With(was, i, pair[i])
      invariant pair[i] == Block(b.rev, b.items + commit[..k], b.clean)
      invariant |trace| == k
      invariant forall j | 0 <= j < k :: BeforeOrAfter(trace[j], ScanBlock(b).closed, ScanBlock(b).closed + attrs)
    {
      pair[i] := Block(b.rev, pair[i].items + [commit[k]], b.clean);
      assert b.items + commit[..k + 1] == b.items + commit[..k] + [commit[k]];
      AppendStep(was, i, attrs, fcrc, k + 1);
      assert pair[..] == With(was, i, pair[i]);
      trace := trace + [pair[..]];
    }
    AppendAtomic(was, i, attrs, fcrc, |commit|, b.clean);
    assert b.clean by { ErasedClean(b); }
  }

  lemma ErasedClean(b: Block)
    requires Erased(b)
    ensures b.clean
  {
  }

  lemma AppendStep(pair: seq<Block>, i: int, attrs: seq<Record>, fcrc: bool, k: nat)
    requires |pair| == 2 && 0 <= i < 2 && Current(pair, i) && Erased(pair[i]) && k <= |attrs| + 1
    ensures
      var p := With(pair, i, Appended(pair[i], attrs, fcrc, k, pair[i].clean));
      BeforeOrAfter(p, ScanBlock(pair[i]).closed, ScanBlock(pair[i]).closed + attrs)
  {
    hide ScanBlock, Current, Erased, CommitItems, Fetch;
    AppendAtomic(pair, i, attrs, fcrc, k, pair[i].clean);
  }

  /** Compaction step by step: the other block is erased, gets the next revision count, then the items;
      once the last one is programmed the other block counts. */
  method CompactCommit(pair: array<Block>, i: int, records: seq<Record>, fcrc: bool)
      returns (ghost trace: seq<seq<Block>>)
    requires pair.Length == 2 && 0 <= i < 2 && Current(pair[..], i)
    modifies pair
    ensures Current(pair[..], 1 - i)
    ensures Fetch(pair[..]) == Dir(1 - i, (old(pair[i].rev) + 1) % REVS, records, fcrc)
    ensures |trace| == |records| + 3
    ensures forall k | 0 <= k < |trace| :: BeforeOrAfter(trace[k], old(ScanBlock(pair[i]).closed), records)
  {
    hide ScanBlock, Current, CommitItems, Fetch, BeforeOrAfter, Compacting, PossibleStage;
    ghost var was := pair[..];
    var rev := (pair[i].rev + 1) % REVS;
    var commit := CommitItems(Some(rev), records, fcrc);
    // erased storage reads as the largest revision count
    pair[1 - i] := Block(REVS - 1, [], true);
    trace := [pair[..]];
    CompactStep(was, i, records, fcrc, Header(pair[1 - i]));
    pair[1 - i] := Block(rev, [], true);
    trace := trace + [pair[..]];
    CompactStep(was, i, records, fcrc, Header(pair[1 - i]));
    assert commit[..0] == [];
    for k := 0 to |commit|
      invariant pair[..] == With(was, 1 - i, pair[1 - i])
      invariant pair[1 - i] == Block(rev, commit[..k], true)
      invariant |trace| == k + 2
      invariant forall j | 0 <= j < k + 2 :: BeforeOrAfter(trace[j], ScanBlock(was[i]).closed, records)
    {
      pair[1 - i] := Block(rev, pair[1 - i].items + [commit[k]], true);
      assert commit[..k + 1] == commit[..k] + [commit[k]];
      CompactStep(was, i, records, fcrc, Programmed(k + 1, true));
      assert pair[..] == With(was, 1 - i, pair[1 - i]);
      trace := trace + [pair[..]];
    }
    CompactStep(was, i, records, fcrc, Programmed(|commit|, true));
  }

  lemma CompactStep(pair: seq<Block>, i: int, records: seq<Record>, fcrc: bool, stage: Stage)
    requires |pair| == 2 && 0 <= i < 2 && Current(pair, i)
    requires match stage
             case Erasing(_) => false
             case Header(b) => b.items == []
             case Programmed(k, clean) => k <= |records| + 1
    ensures
      var rev := (pair[i].rev + 1) % REVS;
      var b := match stage case Erasing(b) => b case Header(b) => b
               case Programmed(k, clean) => Block(rev, CommitItems(Some(rev), records, fcrc)[..k], clean);
      var p := With(pair, 1 - i, b);
      && BeforeOrAfter(p, ScanBlock(pair[i]).closed, records)
      && (Complete(records, stage) ==> Current(p, 1 - i) && Fetch(p) == Dir(1 - i, rev, records, stage.clean && fcrc))
  {
    hide ScanBlock, Current, Erased, CommitItems, Fetch;
    CompactAtomic(pair, i, records, fcrc, stage);
  }
}
