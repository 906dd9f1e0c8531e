/** A rename across pairs from the items programmed up to the names found: power lost at any item of either
    commit leaves a disk on which the file is found under exactly one of its names. */
module RenameCrash {
  import opened LfsBase
  import opened TagLog
  import opened NameMatch
  import opened NameOrder
  import opened NameCommits
  import opened GlobalState
  import opened StateRecords
  import opened Traversal
  import opened PendingAttrs
  import opened RenameByName
  import C = Compaction
  import M = MetadataPair
  import R = Rename

  /** The records the pair is fetched with. */
  function Records(w: M.World): seq<Record>
    requires M.Readable(w)
  {
    M.Fetch(w.pair).records
  }

  // ---- one commit ----

  /** The action commits the attributes and takes the global state from was to now. The tail is what a
      compaction writes besides. */
  predicate IsCommit(a: M.Action, tail: seq<Record>, log: seq<Record>, attrs: seq<Item>, was: Gs, now: Gs) {
    match a
    case Append(records, fcrc, cut, clean) =>
      records == Emits(Appending(attrs), 1) + StateToAppend(log, was, now)
    case Compaction(records, trailer, fcrc, stage) =>
      && records == Emits(Appending(attrs), 1) && trailer == tail + StateToCompact(log, was, now)
      && Stateless(tail) && M.IsTrailer(trailer)
  }

  /** The last item of the commit was programmed. */
  predicate Completed(w: M.World, a: M.Action)
    requires M.Possible(w, a)
  {
    match a
    case Append(records, fcrc, cut, clean) => cut == |records| + 1
    case Compaction(records, trailer, fcrc, stage) => M.Complete(M.Rewritten(w, records, trailer), stage)
  }

  /** Before that the pair is fetched as it was. */
  lemma CutShort(w: M.World, a: M.Action)
    requires M.Possible(w, a) && !Completed(w, a)
    ensures M.Readable(M.Next(w, a)) && Records(M.Next(w, a)) == Records(w) && M.Next(w, a).base == w.base
  {
    hide M.Fetch, M.Scmp, M.ScanBlock, M.Current, M.Erased, M.CommitItems, C.Compact, M.FitAll, M.PossibleStage;
    var dir := M.Fetch(w.pair);
    M.FetchCurrent(w.pair, dir.which);
    match a
    case Append(attrs, fcrc, cut, clean) =>
      M.AppendAtomic(w.pair, dir.which, attrs, fcrc, cut, clean);
    case Compaction(attrs, trailer, fcrc, stage) =>
      M.CompactAtomic(w.pair, dir.which, M.Rewritten(w, attrs, trailer), fcrc, stage);
  }

  lemma CarriedOut(w: M.World, a: M.Action)
    requires M.Possible(w, a) && Completed(w, a)
    ensures M.Readable(M.Next(w, a))
    ensures a.Append? ==> Records(M.Next(w, a)) == Records(w) + a.attrs && M.Next(w, a).base == w.base
    ensures a.Compaction? ==>
      Records(M.Next(w, a)) == C.Compact(Records(w) + a.attrs, 0, Count(Records(w) + a.attrs, w.base)) + a.trailer
      && M.Next(w, a).base == M.MaxZero(Count(Records(w) + a.attrs, w.base))
  {
    hide M.Fetch, M.Scmp, M.ScanBlock, M.Current, M.Erased, M.CommitItems, C.Compact, M.FitAll, M.PossibleStage,
         M.MaxZero;
    var dir := M.Fetch(w.pair);
    M.FetchCurrent(w.pair, dir.which);
    match a
    case Append(attrs, fcrc, cut, clean) =>
      M.AppendAtomic(w.pair, dir.which, attrs, fcrc, cut, clean);
    case Compaction(attrs, trailer, fcrc, stage) =>
      M.CompactAtomic(w.pair, dir.which, M.Rewritten(w, attrs, trailer), fcrc, stage);
  }

  function HowOf(a: M.Action): How {
    match a
    case Append(_, _, _, _) => Appended
    case Compaction(_, trailer, _, _) => Compacted(trailer)
  }

  /** What is written behind the attributes. */
  function Extra(a: M.Action, log: seq<Record>, was: Gs, now: Gs): seq<Record> {
    if a.Append? then StateToAppend(log, was, now) else []
  }

  lemma ExtraTrailer(a: M.Action, log: seq<Record>, was: Gs, now: Gs)
    ensures M.IsTrailer(Extra(a, log, was, now))
  {
    hide M.TrailerTag, Xor, Masked, DeltaOf;
    var d := Xor(Masked(Xor(now, was)), DeltaOf(log));
    StateTrailer(d);
  }

  lemma AppendedLog(log: seq<Record>, base: nat, attrs: seq<Item>, was: Gs, now: Gs)
    requires Stateless(Written(attrs)) && Emits(Appending(attrs), 1) == Written(attrs)
    ensures
      var all := log + (Emits(Appending(attrs), 1) + StateToAppend(log, was, now));
      && all == After(log, base, attrs, Appended).0 + StateToAppend(log, was, now)
      && DeltaOf(all) == Xor(Masked(Xor(now, was)), DeltaOf(log))
  {
    hide Emits, Written, Xor, Masked, DeltaOf, StateToAppend, Stateless;
    AppendDelta(log, Written(attrs), was, now);
    Associate(log, Written(attrs), StateToAppend(log, was, now));
  }

  lemma CompactedLog(log: seq<Record>, base: nat, attrs: seq<Item>, tail: seq<Record>, was: Gs, now: Gs)
    requires Ready(FromDisk(log) + attrs) && Stateless(tail) && C.RegularSplices(log + Written(attrs))
    requires Emits(Appending(attrs), 1) == Written(attrs) && Written(FromDisk(log) + attrs) == log + Written(attrs)
    ensures
      var records, trailer := Emits(Appending(attrs), 1), tail + StateToCompact(log, was, now);
      var all := C.Compact(log + records, 0, Count(log + records, base)) + trailer;
      && After(log, base, attrs, Compacted(trailer)) == (all, M.MaxZero(Count(log + records, base)))
      && DeltaOf(all) == Xor(Masked(Xor(now, was)), DeltaOf(log))
  {
    hide Emits, Written, Ready, C.Compact, Count, Xor, Masked, DeltaOf, StateToCompact, Stateless, M.MaxZero,
         C.RegularSplices;
    var n := Count(log + Written(attrs), base);
    CompactionWrites(FromDisk(log) + attrs, 0, n);
    CompactAllKept(log + Written(attrs), n);
    CompactDelta(log, C.Compact(log + Written(attrs), 0, n), tail, was, now);
  }

  /** What the attributes come to behind the log. */
  lemma WrittenBehind(log: seq<Record>, attrs: seq<Item>)
    requires OnDisk(log) && Ready(FromDisk(log) + attrs)
    ensures Emits(Appending(attrs), 1) == Written(attrs) && Written(FromDisk(log) + attrs) == log + Written(attrs)
    ensures C.RegularSplices(log + Written(attrs))
  {
    hide Emits, Written, Ready, OnDisk, ItemOk, C.RegularSplices;
    EmitsWritten(log, attrs);
    AppendedBehind(log, attrs);
    ReadySources(FromDisk(log) + attrs);
  }

  /** A commit carried out leaves the log of its attributes, with the delta that takes the state along. */
  lemma CommitLog(w: M.World, a: M.Action, tail: seq<Record>, attrs: seq<Item>, was: Gs, now: Gs)
    requires M.Possible(w, a) && Completed(w, a) && IsCommit(a, tail, Records(w), attrs, was, now)
    requires OnDisk(Records(w)) && Ready(FromDisk(Records(w)) + attrs) && Stateless(Written(attrs))
    ensures M.Readable(M.Next(w, a))
    ensures
      var (log, base) := After(Records(w), w.base, attrs, HowOf(a));
      && Records(M.Next(w, a)) == log + Extra(a, Records(w), was, now) && M.Next(w, a).base == base
    ensures DeltaOf(Records(M.Next(w, a))) == Xor(Masked(Xor(now, was)), DeltaOf(Records(w)))
  {
    var log := Records(w);
    hide M.Possible, M.Next, Emits, Written, Ready, OnDisk, C.Compact, Count, Xor, Masked, DeltaOf, StateToAppend,
         After, Records, StateToCompact, Stateless, M.IsTrailer, M.MaxZero, Completed, M.Readable, M.Fetch,
         C.RegularSplices;
    CarriedOut(w, a);
    WrittenBehind(log, attrs);
    match a {
      case Append(records, fcrc, cut, clean) =>
        AppendedLog(log, w.base, attrs, was, now);
        AfterAppended(log, w.base, attrs);
      case Compaction(records, trailer, fcrc, stage) =>
        CompactedLog(log, w.base, attrs, tail, was, now);
        Nothing(Records(M.Next(w, a)));
    }
  }

  lemma Nothing(log: seq<Record>)
    ensures log + [] == log
  {
  }

  lemma EmitsWritten(log: seq<Record>, attrs: seq<Item>)
    requires OnDisk(log) && Ready(FromDisk(log) + attrs)
    ensures Emits(Appending(attrs), 1) == Written(attrs)
  {
    hide Written, Emits, OnDisk, Ready, ItemOk;
    ReadySources(FromDisk(log) + attrs);
    forall k | 0 <= k < |attrs|
      ensures ItemOk(attrs[k])
    {
      assert attrs[k] == (FromDisk(log) + attrs)[|log| + k];
    }
    AppendWrites(attrs);
  }

  lemma CompactAllKept(log: seq<Record>, n: int)
    requires C.RegularSplices(log)
    ensures C.AllKept(C.Compact(log, 0, n))
  {
    hide C.Survivors, C.Select, C.AllKept, C.NonRedundant, C.RegularSplices;
    C.SurvivorsNonRedundant(log);
    SelectApart(C.Survivors(log), n);
  }

  /** The delta written behind the attributes changes nothing that is found. */
  lemma ExtraInvisible(log: seq<Record>, base: nat, lo: nat, extra: seq<Record>, name: seq<bv8>)
    requires KeptSorted(log, base, lo) && M.IsTrailer(extra)
    ensures KeptSorted(log + extra, base, lo)
    ensures FetchMatch(log + extra, name, None) == FetchMatch(log, name, None)
    ensures Resolve(log + extra, name, None) == Resolve(log, name, None)
  {
    hide Lookup, FetchMatch, Disciplined, SuperNamed, AllNamed, NamesOf, M.IsTrailer, Steady, Committed, EntryQuery,
         WellFormed;
    var ns := NamesOf(Replay(log, base));
    TrailerSteady(None, ns, extra, lo);
    SteadyKept(log, base, lo, None, extra);
    SameFetch(log + extra, base, log, base, lo, name);
    StructQuery();
    M.TrailerInvisibleAll(log, extra, R.STRUCT_MASK, R.STRUCT);
  }

  // ---- the two pairs and the global state ----

  /** The pair of the old name, that of the new one, the deltas of all others, and the addresses of the two. */
  datatype System = System(source: M.World, target: M.World, rest: Gs, sourcePair: (bv32, bv32),
    targetPair: (bv32, bv32))

  /** The two pairs have no block in common. */
  predicate Apart(y: System) {
    BlocksOf(y.sourcePair) !! BlocksOf(y.targetPair)
  }

  predicate Mountable(y: System) {
    M.Readable(y.source) && M.Readable(y.target)
  }

  /** The state that a mount adds up. */
  function Mounted(y: System): Gs
    requires Mountable(y)
  {
    Sum(y.rest, Records(y.source), Records(y.target))
  }

  /** The rename is about to begin: both directories are kept sorted, the paths were looked up, and nothing
      is pending; g is the state in memory. */
  predicate Begins(y: System, s: Setting, g: Gs) {
    && Mountable(y) && Starts(s)
    && s.oldLog == Records(y.source) && s.oldBase == y.source.base
    && s.newLog == Records(y.target) && s.newBase == y.target.base
    && Masked(Mounted(y)) == Masked(g) && g.tag & 0x70000000 == 0 && Apart(y)
  }

  /** The file is found under its old name, and the new name finds what it found before. */
  predicate UnderOld(y: System, s: Setting) {
    && Mountable(y)
    && FetchMatch(Records(y.source), s.oldName, MoveHere(Mounted(y), y.sourcePair)) == Hit(s.oldId)
    && Resolve(Records(y.source), s.oldName, MoveHere(Mounted(y), y.sourcePair)) == Held(s)
    && FetchMatch(Records(y.target), s.newName, MoveHere(Mounted(y), y.targetPair))
       == FetchMatch(s.newLog, s.newName, None)
  }

  /** The file is found under its new name, and the old name finds nothing. */
  predicate UnderNew(y: System, s: Setting) {
    && Mountable(y)
    && !FetchMatch(Records(y.source), s.oldName, MoveHere(Mounted(y), y.sourcePair)).Hit?
    && FetchMatch(Records(y.target), s.newName, MoveHere(Mounted(y), y.targetPair)) == Hit(s.newId)
    && Resolve(Records(y.target), s.newName, MoveHere(Mounted(y), y.targetPair)) == Held(s)
  }

  /** Between the commits: the move is pending, and the new directory has the entry. */
  predicate Between(y: System, s: Setting) {
    && UnderNew(y, s)
    && Records(y.source) == s.oldLog && y.source.base == s.oldBase
    && MoveHere(Mounted(y), y.sourcePair) == Some(s.oldId) && MoveHere(Mounted(y), y.targetPair) == None
    && Apart(y)
  }

  lemma NoMove(y: System, g: Gs, pair: (bv32, bv32))
    requires Mountable(y) && Masked(Mounted(y)) == Masked(g) && g.tag & 0x70000000 == 0
    ensures MoveHere(Mounted(y), pair) == None
  {
    hide Mounted, Masked;
    MoveWritten(Mounted(y), g, pair);
  }

  /** At the beginning the file is found under its old name. */
  lemma AtFirst(y: System, s: Setting, g: Gs)
    requires Begins(y, s, g)
    ensures UnderOld(y, s)
  {
    hide Mounted, Masked, KeptSorted, FetchMatch, OnDisk, Closed, Nameable, Wanted, Lookup;
    NoMove(y, g, y.sourcePair);
    NoMove(y, g, y.targetPair);
  }

  lemma FirstReady(s: Setting)
    requires Starts(s)
    ensures Ready(FromDisk(s.newLog) + FirstAttrs(s)) && Stateless(Written(FirstAttrs(s)))
  {
    hide KeptSorted, FetchMatch, OnDisk, Nameable, Written, Ready, Wanted, Closed, RenameLog, C.RegularSplices,
         Disciplined, WellFormed, RenameAttrs, Movable, Stateless;
    OldEntry(s);
    C.WellFormedSplices(s.newLog, s.newBase);
    var source := Dir(s.oldLog, s.oldBase);
    RenameReady(s.newLog, s.newId, s.prev, s.ty, s.newName, s.oldId, source, false, 0);
    RenameWritten(s.newId, s.prev, s.ty, s.newName, s.oldId, source, false, 0);
    MovedPlain(source, s.oldId, s.newId);
    LogStateless(s.newId, s.prev, s.ty, s.newName, MovedFrom(source, s.oldId, s.newId), []);
  }

  lemma LogStateless(newId: int, prev: bool, ty: bv16, name: seq<bv8>, moved: seq<Record>, tail: seq<Record>)
    requires Plain(moved) && Nameable(ty, name) && tail == []
    ensures Stateless(RenameLog(newId, prev, ty, name, moved, tail))
  {
    hide Agree, R.Moves;
    var log := RenameLog(newId, prev, ty, name, moved, tail);
    NoState(ty, name);
    forall k | 0 <= k < |moved|
      ensures !Agree(MOVESTATE, moved[k].tag.ty, MOVESTATE)
    {
      MovedNoState(moved[k].tag.ty);
    }
  }

  lemma NoState(ty: bv16, name: seq<bv8>)
    requires Nameable(ty, name)
    ensures !Agree(MOVESTATE, ty, MOVESTATE) && !Agree(MOVESTATE, CREATE, MOVESTATE)
      && !Agree(MOVESTATE, DELETE, MOVESTATE)
  {
  }

  lemma MovedNoState(ty: bv16)
    requires R.Moves(ty)
    ensures !Agree(MOVESTATE, ty, MOVESTATE)
  {
  }

  lemma DeleteStateless(id: int)
    ensures Stateless([R.DeleteRecord(id)])
  {
  }

  /** The same file system, the blocks of either pair possibly the other way round: a fetch swaps them when
      the second one counts. */
  predicate Readdressed(y: System, z: System) {
    && z == y.(sourcePair := z.sourcePair, targetPair := z.targetPair)
    && EitherOrder(z.sourcePair, y.sourcePair) && EitherOrder(z.targetPair, y.targetPair)
  }

  lemma ReaddressedAlike(y: System, z: System, s: Setting)
    requires Readdressed(y, z)
    ensures UnderOld(y, s) ==> UnderOld(z, s)
    ensures UnderNew(y, s) ==> UnderNew(z, s)
    ensures Between(y, s) ==> Between(z, s)
  {
    hide Sum, FetchMatch, MoveHere, Records, M.Readable, Lookup, Resolve, BlocksOf, Held;
    if Mountable(y) {
      OrderIgnored(Mounted(y), z.sourcePair, y.sourcePair);
      OrderIgnored(Mounted(y), z.targetPair, y.targetPair);
    }
  }

  /** The first commit, to the new directory, with the move it makes pending; id is that of the old entry. */
  lemma FirstStep(y: System, s: Setting, g: Gs, id: bv32, a: M.Action, tail: seq<Record>, z: System)
    requires Begins(y, s, g) && M.Possible(y.target, a) && id as int == s.oldId && id < 0x3ff
    requires IsCommit(a, tail, s.newLog, FirstAttrs(s), g, PrepMove(g, Some((id, y.sourcePair))))
    requires Readdressed(y.(target := M.Next(y.target, a)), z)
    ensures
      if Completed(y.target, a)
      then Between(z, s) && Masked(Mounted(z)) == Masked(PrepMove(g, Some((id, y.sourcePair))))
      else UnderOld(z, s)
  {
    hide Sum, Masked, KeptSorted, FetchMatch, OnDisk, Closed, Nameable, Wanted, Lookup, M.Possible, M.Next, M.Readable,
         M.Fetch, IsCommit, Completed, PrepMove, MoveHere, BlocksOf, RenameAttrs, After, Extra, Ready, Written,
         Stateless, Xor, DeltaOf, Records;
    var x, now := y.(target := M.Next(y.target, a)), PrepMove(g, Some((id, y.sourcePair)));
    AtFirst(y, s, g);
    if Completed(y.target, a) {
      FirstReady(s);
      CommitLog(y.target, a, tail, FirstAttrs(s), g, now);
      var (log, base) := After(s.newLog, s.newBase, FirstAttrs(s), HowOf(a));
      HowIsOk(a, tail, s.newLog, FirstAttrs(s), g, now);
      FirstCommit(s, HowOf(a), s.oldName);
      ExtraTrailer(a, s.newLog, g, now);
      ExtraInvisible(log, base, s.newLo, Extra(a, s.newLog, g, now), s.newName);
      SumAfterTarget(y, x, g, now);
      MoveOfSource(g, id, y);
      MoveWritten(Mounted(x), now, y.sourcePair);
      MoveWritten(Mounted(x), now, y.targetPair);
      WhilePending(s, s.oldName);
    } else {
      CutShort(y.target, a);
    }
    ReaddressedAlike(x, z, s);
  }

  lemma HowIsOk(a: M.Action, tail: seq<Record>, log: seq<Record>, attrs: seq<Item>, was: Gs, now: Gs)
    requires IsCommit(a, tail, log, attrs, was, now)
    ensures HowOk(HowOf(a))
  {
    hide M.IsTrailer, Emits;
  }

  lemma SumAfterTarget(y: System, z: System, was: Gs, now: Gs)
    requires Mountable(y) && Mountable(z) && z.rest == y.rest && Records(z.source) == Records(y.source)
    requires DeltaOf(Records(z.target)) == Xor(Masked(Xor(now, was)), DeltaOf(Records(y.target)))
    requires Masked(Mounted(y)) == Masked(was)
    ensures Masked(Mounted(z)) == Masked(now)
  {
    hide DeltaOf, Xor, Masked, Records, M.Readable;
    SumMoves(y.rest, DeltaOf(Records(y.source)), DeltaOf(Records(y.target)), was, now);
  }

  lemma SumAfterSource(y: System, z: System, was: Gs, now: Gs)
    requires Mountable(y) && Mountable(z) && z.rest == y.rest && Records(z.target) == Records(y.target)
    requires DeltaOf(Records(z.source)) == Xor(Masked(Xor(now, was)), DeltaOf(Records(y.source)))
    requires Masked(Mounted(y)) == Masked(was)
    ensures Masked(Mounted(z)) == Masked(now)
  {
    hide DeltaOf, Xor, Masked, Records, M.Readable;
    SumMoves(y.rest, DeltaOf(Records(y.source)), DeltaOf(Records(y.target)), was, now);
  }

  lemma MoveOfSource(g: Gs, id: bv32, y: System)
    requires id < 0x3ff && Apart(y)
    ensures
      var now := PrepMove(g, Some((id, y.sourcePair)));
      MoveHere(now, y.sourcePair) == Some(id as int) && MoveHere(now, y.targetPair) == None
  {
    hide MoveHere, PrepMove;
    MovePrepared(g, id, y.sourcePair, y.sourcePair);
    MovePrepared(g, id, y.sourcePair, y.targetPair);
    assert y.sourcePair.0 in BlocksOf(y.sourcePair) * BlocksOf(y.sourcePair);
  }

  /** The second commit, to the old directory, whether the rename goes on or a mount finishes it: h is the
      state in memory, or what the mount has added up. */
  lemma SecondStep(y: System, s: Setting, h: Gs, a: M.Action, tail: seq<Record>, z: System)
    requires Between(y, s) && Starts(s) && Masked(Mounted(y)) == Masked(h) && M.Possible(y.source, a)
    requires IsCommit(a, tail, s.oldLog, SecondAttrs(s), h, PrepMove(h, None))
    requires Readdressed(y.(source := M.Next(y.source, a)), z)
    ensures
      && UnderNew(z, s)
      && if Completed(y.source, a) then MoveHere(Mounted(z), z.sourcePair) == None else Between(z, s)
  {
    hide Sum, Masked, KeptSorted, FetchMatch, OnDisk, Closed, Nameable, Wanted, Lookup, M.Possible, M.Next, M.Readable,
         M.Fetch, IsCommit, Completed, PrepMove, MoveHere, BlocksOf, RenameAttrs, After, Extra, Ready, Written,
         Stateless, Xor, DeltaOf, Records;
    var x, now := y.(source := M.Next(y.source, a)), PrepMove(h, None);
    if Completed(y.source, a) {
      OldEntry(s);
      DeleteReady(s.oldLog, s.oldBase, s.oldId);
      DeleteStateless(s.oldId);
      CommitLog(y.source, a, tail, SecondAttrs(s), h, now);
      var (log, base) := After(s.oldLog, s.oldBase, SecondAttrs(s), HowOf(a));
      HowIsOk(a, tail, s.oldLog, SecondAttrs(s), h, now);
      SecondCommit(s, HowOf(a), s.newName);
      ExtraTrailer(a, s.oldLog, h, now);
      ExtraInvisible(log, base, s.oldLo, Extra(a, s.oldLog, h, now), s.oldName);
      SumAfterSource(y, x, h, now);
      MovePrepared(h, 0, y.sourcePair, y.sourcePair);
      MovePrepared(h, 0, y.sourcePair, y.targetPair);
      OrderIgnored(Mounted(x), z.sourcePair, y.sourcePair);
      MoveWritten(Mounted(x), now, y.sourcePair);
      MoveWritten(Mounted(x), now, y.targetPair);
    } else {
      CutShort(y.source, a);
    }
    ReaddressedAlike(x, z, s);
  }
}
