/** Renaming as seen by path components: between its commits and after them the old name finds nothing, and
    the new name finds the entry with what the old one held. */
module RenameByName {
  import opened LfsBase
  import opened TagLog
  import opened Compaction
  import opened NameMatch
  import opened NameOrder
  import opened NameCommits
  import opened Traversal
  import opened PendingAttrs
  import M = MetadataPair
  import R = Rename

  // ---- the names after a rename ----

  function PutName(ns: Names, id: int, prev: bool, a: Attr): (after: Names)
    requires 0 <= id <= |ns| && (prev ==> id < |ns|)
    ensures |after| == |ns| + if prev then 0 else 1
  {
    if prev then ns[id := Some(a)] else ns[..id] + [Some(a)] + ns[id..]
  }

  function DropName(ns: Names, id: int): (after: Names)
    requires 0 <= id < |ns|
    ensures |after| == |ns| - 1
  {
    ns[..id] + ns[id + 1..]
  }

  /** Records of a moved entry: neither names nor splices. */
  predicate Plain(log: seq<Record>) {
    forall k | 0 <= k < |log| :: R.Moves(log[k].tag.ty)
  }

  /** What the first commit of a rename writes. */
  function RenameLog(newId: int, prev: bool, ty: bv16, name: seq<bv8>, moved: seq<Record>,
                     tail: seq<Record>): seq<Record> {
    (if prev then [R.DeleteRecord(newId)] else [])
    + ([R.CreateRecord(newId)] + ([Record(Tag(ty, newId, |name|), name)] + (moved + tail)))
  }

  lemma PlainFacts(t: Tag)
    requires R.Moves(t.ty)
    ensures !IsNameKind(t) && !IsName(t) && !IsSplice(t) && t.ty != CREATE && t.ty != DELETE
  {
  }

  /** The records of the moved entry change no name. */
  lemma {:induction false} SteadyMoved(prev: Option<Record>, ns: Names, moved: seq<Record>, tail: seq<Record>, id: int,
                                       lo: nat)
    requires Plain(moved) && forall k | 0 <= k < |moved| :: moved[k].tag.id == id
    requires 0 <= id < |ns| && Steady(None, ns, tail, lo)
    ensures Steady(prev, ns, moved + tail, lo) && Committed(prev, ns, moved + tail, lo) == Committed(None, ns, tail, lo)
    decreases |moved|
  {
    hide R.Moves, IsSplice, IsName, IsNameKind, AllNamed, FitsAt, NameOk;
    if moved == [] {
      assert moved + tail == tail;
      SteadyPrev(prev, ns, tail, lo);
    } else {
      var e, all := moved[0], moved + tail;
      PlainFacts(e.tag);
      NameOkPlain(e);
      assert all[0] == e && all[1..] == moved[1..] + tail;
      SteadyMoved(Some(e), ns, moved[1..], tail, id, lo);
    }
  }

  lemma NameOkPlain(e: Record)
    ensures !IsName(e.tag) ==> NameOk(e)
  {
  }

  lemma SteadyPrev(prev: Option<Record>, ns: Names, attrs: seq<Record>, lo: nat)
    requires Steady(None, ns, attrs, lo)
    ensures Steady(prev, ns, attrs, lo) && Committed(prev, ns, attrs, lo) == Committed(None, ns, attrs, lo)
  {
    hide R.Moves, IsSplice, IsName, IsNameKind, AllNamed, FitsAt, NameOk, ApplyName, Fits;
    if attrs != [] {
      ProperPrev(prev, ns, attrs[0], lo);
    }
  }

  lemma ProperPrev(prev: Option<Record>, ns: Names, e: Record, lo: nat)
    requires Proper(false, None, ns, e, lo)
    ensures Proper(false, prev, ns, e, lo)
  {
    hide IsSplice, IsName, IsNameKind, AllNamed, FitsAt, NameOk;
  }

  /** Deleting an entry from a directory in which all have names. */
  lemma SteadyDelete(ns: Names, id: int, lo: nat)
    requires AllNamed(ns, lo) && lo <= id < |ns|
    ensures
      var attrs := [R.DeleteRecord(id)];
      && Steady(None, ns, attrs, lo) && Committed(None, ns, attrs, lo) == DropName(ns, id)
      && AllNamed(DropName(ns, id), lo)
  {
    hide FitsAt;
    var e := R.DeleteRecord(id);
    DeleteFacts(id);
    assert [e][1..] == [];
  }

  lemma SteadyCons(prev: Option<Record>, ns: Names, e: Record, rest: seq<Record>, lo: nat)
    requires Fits(e.tag, |ns|) && Proper(false, prev, ns, e, lo) && Steady(Some(e), ApplyName(ns, e), rest, lo)
    ensures Steady(prev, ns, [e] + rest, lo)
    ensures Committed(prev, ns, [e] + rest, lo) == Committed(Some(e), ApplyName(ns, e), rest, lo)
  {
    hide Fits, Proper, ApplyName, AllNamed;
    assert ([e] + rest)[0] == e && ([e] + rest)[1..] == rest;
  }

  lemma DeleteFacts(id: int)
    ensures IsSplice(R.DeleteRecord(id).tag) && !IsNameKind(R.DeleteRecord(id).tag) && NameOk(R.DeleteRecord(id))
    ensures IsSplice(R.CreateRecord(id).tag) && !IsNameKind(R.CreateRecord(id).tag) && NameOk(R.CreateRecord(id))
    ensures !IsName(R.CreateRecord(id).tag) && !IsName(R.DeleteRecord(id).tag)
  {
  }

  lemma NameRecordFacts(ty: bv16, id: int, name: seq<bv8>)
    requires Nameable(ty, name)
    ensures
      var t := Tag(ty, id, |name|);
      IsName(t) && IsNameKind(t) && !IsSplice(t) && t.ty != CREATE && t.ty != DELETE && |name| != REMOVED
  {
  }

  /** A new entry and its name, at the place of the name. */
  lemma SteadyCreate(ns: Names, id: int, ty: bv16, name: seq<bv8>, rest: seq<Record>, prev: Option<Record>, lo: nat)
    requires AllNamed(ns, lo) && Sorted(ns) && lo <= id <= |ns| && |ns| + 1 < NO_ID && Nameable(ty, name)
    requires PlaceOf(ns, id, name)
    requires forall p: Option<Record> :: Steady(p, PutName(ns, id, false, Attr(ty, |name|, name)), rest, lo)
    ensures
      var attrs := [R.CreateRecord(id)] + ([Record(Tag(ty, id, |name|), name)] + rest);
      var named := PutName(ns, id, false, Attr(ty, |name|, name));
      Steady(prev, ns, attrs, lo)
      && Committed(prev, ns, attrs, lo) == Committed(Some(Record(Tag(ty, id, |name|), name)), named, rest, lo)
  {
    hide Less, IsSplice, IsName, IsNameKind, Sorted;
    var create, n := R.CreateRecord(id), Record(Tag(ty, id, |name|), name);
    var made := ns[..id] + [None] + ns[id..];
    DeleteFacts(id);
    NameRecordFacts(ty, id, name);
    assert ApplyName(ns, create) == made;
    assert ApplyName(made, n) == PutName(ns, id, false, AttrOf(n));
    assert FitsAt(made, id, name);
    SteadyCons(Some(create), made, n, rest, lo);
    SteadyCons(prev, ns, create, [n] + rest, lo);
  }

  lemma PutKeeps(ns: Names, id: int, a: Attr, lo: nat)
    requires AllNamed(ns, lo) && Sorted(ns) && lo <= id <= |ns| && PlaceOf(ns, id, a.data)
    ensures AllNamed(PutName(ns, id, false, a), lo) && Sorted(PutName(ns, id, false, a))
  {
    hide Less;
    var after := PutName(ns, id, false, a);
    forall j, k | 0 <= j < k < |after| && after[j].Some? && after[k].Some?
      ensures Less(after[j].value.data, after[k].value.data)
    {
      if j != id && k != id {
        assert after[j] == ns[if j < id then j else j - 1] && after[k] == ns[if k < id then k else k - 1];
      } else if j == id {
        assert after[k] == ns[k - 1];
      } else {
        assert after[j] == ns[j];
      }
    }
  }

  /** The place of a name from which its entry was removed. */
  lemma DroppedPlace(ns: Names, id: int, name: seq<bv8>, lo: nat)
    requires AllNamed(ns, lo) && Sorted(ns) && lo <= id && GoesAt(ns, id, name)
    ensures AllNamed(DropName(ns, id), lo) && Sorted(DropName(ns, id)) && PlaceOf(DropName(ns, id), id, name)
  {
    hide Less;
  }

  lemma PutAgain(ns: Names, id: int, a: Attr)
    requires 0 <= id < |ns|
    ensures PutName(DropName(ns, id), id, false, a) == PutName(ns, id, true, a)
  {
  }

  /** The first commit of a rename observes what keeps the directory sorted. */
  lemma RenameSteady(ns: Names, lo: nat, newId: int, prev: bool, ty: bv16, name: seq<bv8>, moved: seq<Record>,
                     tail: seq<Record>)
    requires AllNamed(ns, lo) && Sorted(ns) && lo <= newId && |ns| + 1 < NO_ID && Nameable(ty, name) && Plain(moved)
    requires if prev then GoesAt(ns, newId, name) else PlaceOf(ns, newId, name)
    requires forall k | 0 <= k < |moved| :: moved[k].tag.id == newId
    requires Steady(None, PutName(ns, newId, prev, Attr(ty, |name|, name)), tail, lo)
    ensures
      var attrs, named := RenameLog(newId, prev, ty, name, moved, tail),
        PutName(ns, newId, prev, Attr(ty, |name|, name));
      Steady(None, ns, attrs, lo) && Committed(None, ns, attrs, lo) == Committed(None, named, tail, lo)
  {
    hide AllNamed, Sorted, Less, Plain, Nameable, Steady, Committed, PutName, DropName;
    var attr := Attr(ty, |name|, name);
    var named := PutName(ns, newId, prev, attr);
    forall p: Option<Record>
      ensures Steady(p, named, moved + tail, lo)
      ensures Committed(p, named, moved + tail, lo) == Committed(None, named, tail, lo)
    {
      SteadyMoved(p, named, moved, tail, newId, lo);
    }
    if prev {
      DroppedPlace(ns, newId, name, lo);
      PutAgain(ns, newId, attr);
      var e := R.DeleteRecord(newId);
      SteadyCreate(DropName(ns, newId), newId, ty, name, moved + tail, Some(e), lo);
      SteadyDeleted(ns, newId, [R.CreateRecord(newId)] + ([Record(Tag(ty, newId, |name|), name)] + (moved + tail)), lo);
    } else {
      SteadyCreate(ns, newId, ty, name, moved + tail, None, lo);
      var rest := [R.CreateRecord(newId)] + ([Record(Tag(ty, newId, |name|), name)] + (moved + tail));
      assert [] + rest == rest;
    }
  }

  lemma SteadyDeleted(ns: Names, id: int, rest: seq<Record>, lo: nat)
    requires AllNamed(ns, lo) && lo <= id < |ns| && Steady(Some(R.DeleteRecord(id)), DropName(ns, id), rest, lo)
    ensures
      var attrs := [R.DeleteRecord(id)] + rest;
      && Steady(None, ns, attrs, lo)
      && Committed(None, ns, attrs, lo) == Committed(Some(R.DeleteRecord(id)), DropName(ns, id), rest, lo)
  {
    hide FitsAt, AllNamed;
    DeleteFacts(id);
    SteadyCons(None, ns, R.DeleteRecord(id), rest, lo);
  }

  // ---- the logs after a rename ----

  /** The fetch finds entry id exactly when that goes by the name. */
  lemma FetchHit(log: seq<Record>, base: nat, lo: nat, name: seq<bv8>, id: int)
    requires KeptSorted(log, base, lo)
    ensures FetchMatch(log, name, None) == Hit(id) <==> GoesAt(NamesOf(Replay(log, base)), id, name)
  {
    hide Disciplined, SuperNamed, AllNamed, NamesOf, FetchMatch, PlaceOf, GoesAt, Replay, Sorted, Orderly, NamesOk;
    FetchPlace(log, base, name, lo, None);
    KeptFactsOf(log, base, lo);
    var ns, x := NamesOf(Replay(log, base)), FetchMatch(log, name, None);
    if GoesAt(ns, id, name) {
      if x.Hit? {
        GoesOnce(ns, x.id, id, name);
      } else {
        NotPlaced(ns, x.place, id, name);
      }
    }
  }

  /** How a commit gets to disk: behind the log, or into a compacted one with tail and global state. */
  datatype How = Appended | Compacted(trailer: seq<Record>)

  predicate HowOk(how: How) {
    how.Compacted? ==> M.IsTrailer(how.trailer)
  }

  /** What a commit of attributes leaves: the log, and how many entries it starts from. */
  function After(log: seq<Record>, base: nat, attrs: seq<Item>, how: How): (after: (seq<Record>, nat)) {
    var appended := log + Emits(Appending(attrs), 1);
    match how
    case Appended => (appended, base)
    case Compacted(trailer) =>
      var n := Count(appended, base);
      (Emits(Compacting(FromDisk(log) + attrs, 0, n), 1) + trailer, M.MaxZero(n))
  }

  /** A commit leaves a directory kept sorted, with the names its attributes say. */
  lemma CommitLeaves(log: seq<Record>, base: nat, lo: nat, attrs: seq<Item>, how: How)
    requires KeptSorted(log, base, lo) && OnDisk(log) && Ready(FromDisk(log) + attrs) && HowOk(how)
    requires Steady(None, NamesOf(Replay(log, base)), Written(attrs), lo)
    ensures
      var (log', base') := After(log, base, attrs, how);
      && KeptSorted(log', base', lo)
      && NamesOf(Replay(log', base')) == Committed(None, NamesOf(Replay(log, base)), Written(attrs), lo)
  {
    hide Steady, Committed, NamesOf, Emits, Written, Ready, OnDisk, Disciplined, SuperNamed, AllNamed, WellFormed,
         Count, Compact, Replay, Sorted, Orderly, NamesOk, M.IsTrailer, ItemOk;
    KeptFactsOf(log, base, lo);
    SteadyKept(log, base, lo, None, Written(attrs));
    AppendedBehind(log, attrs);
    WrittenConcat(FromDisk(log), attrs);
    WrittenDisk(log);
    if how.Compacted? {
      CompactKept(log + Written(attrs), base, lo, how.trailer);
      CompactionWrites(FromDisk(log) + attrs, 0, Count(log + Written(attrs), base));
    }
  }

  /** The records of the moved entry that survive in its directory, under the new id. */
  function MovedFrom(source: Buffer, oldId: int, newId: int): seq<Record>
    requires source.Dir?
  {
    MovedOut(Survivors(source.log), oldId, newId)
  }

  function TailOf(samePair: bool, leaving: int): seq<Record> {
    if samePair then [R.DeleteRecord(leaving)] else []
  }

  lemma MovedPlain(source: Buffer, oldId: int, newId: int)
    requires source.Dir?
    ensures Plain(MovedFrom(source, oldId, newId))
    ensures forall k | 0 <= k < |MovedFrom(source, oldId, newId)| :: MovedFrom(source, oldId, newId)[k].tag.id == newId
  {
    hide R.Moves, MovedOut, Survivors;
    var moved := MovedFrom(source, oldId, newId);
    forall k | 0 <= k < |moved|
      ensures R.Moves(moved[k].tag.ty) && moved[k].tag.id == newId
    {
      var i := MovedOutOrigin(Survivors(source.log), oldId, newId, k);
    }
  }

  lemma SpliceWritten(id: int)
    ensures WrittenItem(DeleteItem(id)) == [R.DeleteRecord(id)] && WrittenItem(NoItem()) == []
  {
  }

  /** What the attributes of a rename write. */
  lemma RenameWritten(newId: int, prev: bool, ty: bv16, name: seq<bv8>, oldId: int, source: Buffer, samePair: bool,
                      leaving: int)
    requires source.Dir? && Nameable(ty, name)
    ensures Written(RenameAttrs(newId, prev, ty, name, oldId, source, samePair, leaving))
         == RenameLog(newId, prev, ty, name, MovedFrom(source, oldId, newId), TailOf(samePair, leaving))
  {
    hide Written, MovedOut, Survivors, Nameable;
    var a := RenameAttrs(newId, prev, ty, name, oldId, source, samePair, leaving);
    Behind([], a);
    assert [] + a == a;
    SpliceWritten(newId);
    SpliceWritten(leaving);
    SpliceItems(newId);
    NameItem(ty, newId, name);
    WrittenNothing();
    assert WrittenItem(a[3]) == MovedFrom(source, oldId, newId);
    WrittenMore([], a[0]);
    WrittenMore([] + [a[0]], a[1]);
    WrittenMore([] + [a[0]] + [a[1]], a[2]);
    WrittenMore([] + [a[0]] + [a[1]] + [a[2]], a[3]);
    WrittenMore([] + [a[0]] + [a[1]] + [a[2]] + [a[3]], a[4]);
    Regrouped(if prev then [R.DeleteRecord(newId)] else [], [R.CreateRecord(newId)],
      [Record(Tag(ty, newId, |name|), name)],
              MovedFrom(source, oldId, newId), TailOf(samePair, leaving));
  }

  lemma Regrouped(a: seq<Record>, b: seq<Record>, c: seq<Record>, d: seq<Record>, e: seq<Record>)
    ensures [] + a + b + c + d + e == a + (b + (c + (d + e)))
  {
  }

  /** The lookup before a rename: the place of the new name, or the entry to be replaced. */
  predicate Wanted(found: Outcome, newId: int, prev: bool) {
    if prev then found == Hit(newId) else found == NoEntry(newId) || found == Elsewhere(newId)
  }

  /** The directory the renamed entry goes into. */
  lemma RenamedNames(log: seq<Record>, base: nat, lo: nat, newId: int, prev: bool, ty: bv16, name: seq<bv8>, oldId: int,
                     source: Buffer, samePair: bool, leaving: int, how: How)
    requires KeptSorted(log, base, lo) && OnDisk(log) && Movable(source, oldId) && Nameable(ty, name) && HowOk(how)
    requires Count(log, base) + 1 < NO_ID && Wanted(FetchMatch(log, name, None), newId, prev)
    requires samePair ==> lo <= leaving < Count(log, base) + if prev then 0 else 1
    ensures lo <= newId <= Count(log, base) && (prev ==> newId < Count(log, base))
    ensures
      var (log', base') := After(log, base, RenameAttrs(newId, prev, ty, name, oldId, source, samePair, leaving), how);
      var named := PutName(NamesOf(Replay(log, base)), newId, prev, Attr(ty, |name|, name));
      && KeptSorted(log', base', lo)
      && NamesOf(Replay(log', base')) == if samePair then DropName(named, leaving) else named
  {
    hide Steady, Committed, Emits, Written, Ready, OnDisk, Disciplined, SuperNamed, WellFormed, Compact, Plain, PutName,
         DropName, RenameAttrs, RenameLog, FetchMatch, NameOf, Sorted, Orderly, NamesOk, Nameable, MovedFrom, HowOk,
         After, Less, AllNamed, RegularSplices, Closed, M.IsTrailer;
    var attrs := RenameAttrs(newId, prev, ty, name, oldId, source, samePair, leaving);
    var ns := NamesOf(Replay(log, base));
    KeptFactsOf(log, base, lo);
    FetchPlace(log, base, name, lo, None);
    RenameWritten(newId, prev, ty, name, oldId, source, samePair, leaving);
    MovedPlain(source, oldId, newId);
    NamedAll(ns, newId, prev, Attr(ty, |name|, name), lo);
    var named := PutName(ns, newId, prev, Attr(ty, |name|, name));
    if samePair {
      SteadyDelete(named, leaving, lo);
    } else {
      SteadyNothing(named, lo);
    }
    RenameSteady(ns, lo, newId, prev, ty, name, MovedFrom(source, oldId, newId), TailOf(samePair, leaving));
    WellFormedSplices(log, base);
    RenameReady(log, newId, prev, ty, name, oldId, source, samePair, leaving);
    CommitLeaves(log, base, lo, attrs, how);
  }

  lemma SteadyNothing(ns: Names, lo: nat)
    requires AllNamed(ns, lo)
    ensures Steady(None, ns, [], lo) && Committed(None, ns, [], lo) == ns
  {
  }

  lemma NamedAll(ns: Names, id: int, prev: bool, a: Attr, lo: nat)
    requires AllNamed(ns, lo) && lo <= id <= |ns| && (prev ==> id < |ns|)
    ensures AllNamed(PutName(ns, id, prev, a), lo)
  {
  }

  // ---- which entry a name finds ----

  lemma PutFinds(ns: Names, id: int, prev: bool, a: Attr, lo: nat, other: seq<bv8>)
    requires Sorted(ns) && 0 <= id <= |ns| && (if prev then GoesAt(ns, id, a.data) else PlaceOf(ns, id, a.data))
    ensures GoesAt(PutName(ns, id, prev, a), id, a.data)
    ensures other != a.data ==> (Somewhere(PutName(ns, id, prev, a), other) <==> Somewhere(ns, other))
  {
    hide Less, Sorted;
    var after := PutName(ns, id, prev, a);
    if other != a.data && Somewhere(ns, other) {
      var k :| 0 <= k < |ns| && GoesAt(ns, k, other);
      assert GoesAt(after, if prev || k < id then k else k + 1, other);
    }
    if other != a.data && Somewhere(after, other) {
      var k :| 0 <= k < |after| && GoesAt(after, k, other);
      assert GoesAt(ns, if prev || k < id then k else k - 1, other);
    }
  }

  /** Some entry goes by the name. */
  predicate Somewhere(ns: Names, name: seq<bv8>) {
    exists k :: 0 <= k < |ns| && GoesAt(ns, k, name)
  }

  lemma DropFinds(ns: Names, id: int, gone: seq<bv8>, other: seq<bv8>)
    requires Sorted(ns) && GoesAt(ns, id, gone)
    ensures !Somewhere(DropName(ns, id), gone)
    ensures other != gone ==> (Somewhere(DropName(ns, id), other) <==> Somewhere(ns, other))
  {
    hide Less, Sorted;
    var after := DropName(ns, id);
    if Somewhere(after, gone) {
      var k :| 0 <= k < |after| && GoesAt(after, k, gone);
      GoesOnce(ns, if k < id then k else k + 1, id, gone);
    }
    if other != gone && Somewhere(ns, other) {
      var k :| 0 <= k < |ns| && GoesAt(ns, k, other);
      assert GoesAt(after, if k < id then k else k - 1, other);
    }
    if other != gone && Somewhere(after, other) {
      var k :| 0 <= k < |after| && GoesAt(after, k, other);
      assert GoesAt(ns, if k < id then k else k + 1, other);
    }
  }

  lemma FetchSomewhere(log: seq<Record>, base: nat, lo: nat, name: seq<bv8>)
    requires KeptSorted(log, base, lo)
    ensures FetchMatch(log, name, None).Hit? <==> Somewhere(NamesOf(Replay(log, base)), name)
  {
    hide Disciplined, SuperNamed, AllNamed, NamesOf, FetchMatch, KeptSorted, Sorted, Orderly, NamesOk;
    KeptFactsOf(log, base, lo);
    var x := FetchMatch(log, name, None);
    if x.Hit? {
      FetchHit(log, base, lo, name, x.id);
    }
    if Somewhere(NamesOf(Replay(log, base)), name) {
      var k :| 0 <= k < |NamesOf(Replay(log, base))| && GoesAt(NamesOf(Replay(log, base)), k, name);
      FetchHit(log, base, lo, name, k);
    }
  }

  /** With a pending move the fetch finds what is left without the moved entry. */
  lemma FetchPending(log: seq<Record>, base: nat, lo: nat, name: seq<bv8>, moved: int)
    requires KeptSorted(log, base, lo) && 0 <= moved < Count(log, base)
    ensures FetchMatch(log, name, Some(moved)).Hit? <==> Somewhere(DropName(NamesOf(Replay(log, base)), moved), name)
  {
    hide Disciplined, SuperNamed, AllNamed, FetchMatch, KeptSorted, Sorted, Orderly, NamesOk, NameOf;
    KeptFactsOf(log, base, lo);
    var entries, x := Replay(log, base), FetchMatch(log, name, Some(moved));
    var view, ns := Without(entries, Some(moved)), DropName(NamesOf(entries), moved);
    forall k | 0 <= k < |view|
      ensures Goes(view[k], name) <==> GoesAt(ns, k, name)
    {
      assert ns[k] == NameOf(view[k]);
    }
    if x.Hit? {
      FetchExact(log, base, name, Some(moved), x.id);
      assert GoesAt(ns, x.id, name);
    }
    if Somewhere(ns, name) {
      var k :| 0 <= k < |ns| && GoesAt(ns, k, name);
      FetchExact(log, base, name, Some(moved), k);
    }
  }

  // ---- what the names resolve to ----

  /** What a path component finds in a pair: the newest struct of the entry the fetch hits. */
  function Resolve(log: seq<Record>, name: seq<bv8>, move: Option<int>): Option<Attr> {
    match FetchMatch(log, name, move)
    case Hit(id) => LookupMoved(log, R.STRUCT_MASK, R.STRUCT, id, move)
    case _ => None
  }

  lemma StructQuery()
    ensures Granular(R.STRUCT_MASK, R.STRUCT) && EntryQuery(R.STRUCT_MASK, R.STRUCT)
      && R.MoveQuery(R.STRUCT_MASK, R.STRUCT)
  {
  }

  /** The renamed entry holds what the old one held. */
  lemma RenamedHolds(log: seq<Record>, base: nat, newId: int, prev: bool, ty: bv16, name: seq<bv8>, oldId: int,
                     source: Buffer, samePair: bool, leaving: int, how: How, id: nat)
    requires WellFormed(log, base) && OnDisk(log) && Movable(source, oldId) && Nameable(ty, name) && HowOk(how)
    requires Count(log, base) + 1 < NO_ID && 0 <= newId <= Count(log, base) && (prev ==> newId < Count(log, base))
    requires samePair ==> 0 <= leaving < Count(log, base) + (if prev then 0 else 1) && leaving != newId
    requires id == if samePair && leaving < newId then newId - 1 else newId
    requires
      var attrs := RenameAttrs(newId, prev, ty, name, oldId, source, samePair, leaving);
      Count(log + Emits(Appending(attrs), 1), base)
        == Count(log, base) + (if prev then 0 else 1) - (if samePair then 1 else 0)
    ensures
      var (log', base') := After(log, base, RenameAttrs(newId, prev, ty, name, oldId, source, samePair, leaving), how);
      Lookup(log', R.STRUCT_MASK, R.STRUCT, id) == Lookup(source.log, R.STRUCT_MASK, R.STRUCT, oldId)
  {
    hide Lookup, Emits, Closed, WellFormed, Granular, Newest, RenameAttrs, OnDisk, Nameable, R.MovedAttrs, EntryQuery,
         Count, R.Put, R.RemoveAt, R.MoveQuery, M.IsTrailer, R.Moves;
    var attrs := RenameAttrs(newId, prev, ty, name, oldId, source, samePair, leaving);
    var moved, attr := Replay(source.log, source.base)[oldId], Attr(ty, |name|, name);
    StructQuery();
    var n := Count(log + Emits(Appending(attrs), 1), base);
    RenamedSize(Replay(log, base), newId, prev, [attr] + R.MovedAttrs(moved), samePair, leaving, id);
    RenameCommitted(log, base, newId, prev, ty, name, oldId, source, samePair, leaving, 0, n, R.STRUCT_MASK, R.STRUCT,
      id);
    RenameTypes(ty, name);
    R.MovedAnswers(attr, moved, R.STRUCT_MASK, R.STRUCT);
    LookupReplays(source.log, source.base, R.STRUCT_MASK, R.STRUCT, oldId);
    if how.Compacted? {
      M.TrailerInvisibleAll(Emits(Compacting(FromDisk(log) + attrs, 0, n), 1), how.trailer, R.STRUCT_MASK, R.STRUCT);
    }
  }

  // ---- renaming from one pair into another ----

  /** The two directories of a rename across pairs, both kept sorted, with what the path lookups found. */
  datatype Setting = Setting(oldLog: seq<Record>, oldBase: nat, oldLo: nat, oldName: seq<bv8>, oldId: int,
                             newLog: seq<Record>, newBase: nat, newLo: nat, newName: seq<bv8>, newId: int,
                             prev: bool, ty: bv16)

  predicate Starts(s: Setting) {
    && KeptSorted(s.oldLog, s.oldBase, s.oldLo) && OnDisk(s.oldLog) && Closed(s.oldLog)
    && KeptSorted(s.newLog, s.newBase, s.newLo) && OnDisk(s.newLog) && Count(s.newLog, s.newBase) + 1 < NO_ID
    && Nameable(s.ty, s.newName)
    && FetchMatch(s.oldLog, s.oldName, None) == Hit(s.oldId)
    && Wanted(FetchMatch(s.newLog, s.newName, None), s.newId, s.prev)
  }

  /** The attributes of the first commit, to the new directory. */
  function FirstAttrs(s: Setting): seq<Item> {
    RenameAttrs(s.newId, s.prev, s.ty, s.newName, s.oldId, Dir(s.oldLog, s.oldBase), false, 0)
  }

  /** Those of the second one, to the old directory. */
  function SecondAttrs(s: Setting): seq<Item> {
    [DeleteItem(s.oldId)]
  }

  /** What the file is, as the lookup of its struct tells. */
  function Held(s: Setting): Option<Attr> {
    Lookup(s.oldLog, R.STRUCT_MASK, R.STRUCT, s.oldId)
  }

  lemma OldEntry(s: Setting)
    requires Starts(s)
    ensures WellFormed(s.oldLog, s.oldBase) && WellFormed(s.newLog, s.newBase)
    ensures s.oldLo <= s.oldId < Count(s.oldLog, s.oldBase) && Movable(Dir(s.oldLog, s.oldBase), s.oldId)
    ensures GoesAt(NamesOf(Replay(s.oldLog, s.oldBase)), s.oldId, s.oldName)
  {
    hide Disciplined, SuperNamed, AllNamed, FetchMatch, NameOf, Sorted, Orderly, NamesOk, OnDisk, Closed, Nameable,
         Wanted, WellFormed;
    KeptFactsOf(s.oldLog, s.oldBase, s.oldLo);
    KeptFactsOf(s.newLog, s.newBase, s.newLo);
    FetchPlace(s.oldLog, s.oldBase, s.oldName, s.oldLo, None);
  }

  /** After the first commit the new name finds the entry, with what the old one held, and every other name
      what it found before. */
  lemma FirstCommit(s: Setting, how: How, other: seq<bv8>)
    requires Starts(s) && HowOk(how)
    ensures
      var (log, base) := After(s.newLog, s.newBase, FirstAttrs(s), how);
      && KeptSorted(log, base, s.newLo)
      && FetchMatch(log, s.newName, None) == Hit(s.newId)
      && Resolve(log, s.newName, None) == Held(s)
      && (other != s.newName ==> (FetchMatch(log, other, None).Hit? <==> FetchMatch(s.newLog, other, None).Hit?))
  {
    hide KeptSorted, FetchMatch, OnDisk, Nameable, M.IsTrailer, NamesOf, PutName, DropName, Somewhere, Emits, Lookup,
         RenameAttrs, Movable, After, GoesAt, PlaceOf;
    OldEntry(s);
    var source := Dir(s.oldLog, s.oldBase);
    var (log, base) := After(s.newLog, s.newBase, FirstAttrs(s), how);
    var ns, attr := NamesOf(Replay(s.newLog, s.newBase)), Attr(s.ty, |s.newName|, s.newName);
    RenamedNames(s.newLog, s.newBase, s.newLo, s.newId, s.prev, s.ty, s.newName, s.oldId, source, false, 0, how);
    RenamedNames(s.newLog, s.newBase, s.newLo, s.newId, s.prev, s.ty, s.newName, s.oldId, source, false, 0, Appended);
    AfterAppended(s.newLog, s.newBase, FirstAttrs(s));
    FetchPlaceOf(s.newLog, s.newBase, s.newLo, s.newName, s.newId, s.prev);
    KeptFactsOf(s.newLog, s.newBase, s.newLo);
    PutFinds(ns, s.newId, s.prev, attr, s.newLo, other);
    FetchHit(log, base, s.newLo, s.newName, s.newId);
    FetchSomewhere(log, base, s.newLo, other);
    FetchSomewhere(s.newLog, s.newBase, s.newLo, other);
    RenamedHolds(s.newLog, s.newBase, s.newId, s.prev, s.ty, s.newName, s.oldId, source, false, 0, how, s.newId);
  }

  lemma AfterAppended(log: seq<Record>, base: nat, attrs: seq<Item>)
    ensures After(log, base, attrs, Appended) == (log + Emits(Appending(attrs), 1), base)
  {
  }

  lemma FetchPlaceOf(log: seq<Record>, base: nat, lo: nat, name: seq<bv8>, id: int, prev: bool)
    requires KeptSorted(log, base, lo) && Wanted(FetchMatch(log, name, None), id, prev)
    ensures
      var ns := NamesOf(Replay(log, base));
      if prev then GoesAt(ns, id, name) else PlaceOf(ns, id, name)
  {
    hide FetchMatch, GoesAt, PlaceOf, Disciplined, SuperNamed, AllNamed;
    FetchPlace(log, base, name, lo, None);
  }

  /** As long as the move is pending the old name finds nothing, and every other name what it found before. */
  lemma WhilePending(s: Setting, other: seq<bv8>)
    requires Starts(s)
    ensures !FetchMatch(s.oldLog, s.oldName, Some(s.oldId)).Hit? && Resolve(s.oldLog, s.oldName, Some(s.oldId)) == None
    ensures other != s.oldName ==>
      (FetchMatch(s.oldLog, other, Some(s.oldId)).Hit? <==> FetchMatch(s.oldLog, other, None).Hit?)
  {
    hide KeptSorted, FetchMatch, OnDisk, Nameable, NamesOf, DropName, Somewhere, Movable, Wanted, Closed;
    OldEntry(s);
    KeptFactsOf(s.oldLog, s.oldBase, s.oldLo);
    DropFinds(NamesOf(Replay(s.oldLog, s.oldBase)), s.oldId, s.oldName, other);
    FetchPending(s.oldLog, s.oldBase, s.oldLo, s.oldName, s.oldId);
    FetchPending(s.oldLog, s.oldBase, s.oldLo, other, s.oldId);
    FetchSomewhere(s.oldLog, s.oldBase, s.oldLo, other);
  }

  /** The second commit, or the recovery after a power loss, leaves it that way. */
  lemma SecondCommit(s: Setting, how: How, other: seq<bv8>)
    requires Starts(s) && HowOk(how)
    ensures
      var (log, base) := After(s.oldLog, s.oldBase, SecondAttrs(s), how);
      && KeptSorted(log, base, s.oldLo)
      && !FetchMatch(log, s.oldName, None).Hit? && Resolve(log, s.oldName, None) == None
      && (other != s.oldName ==> (FetchMatch(log, other, None).Hit? <==> FetchMatch(s.oldLog, other, None).Hit?))
  {
    hide KeptSorted, FetchMatch, OnDisk, Nameable, NamesOf, DropName, Somewhere, Movable, Wanted, Closed, After, HowOk,
         Ready, Written, Steady, Committed, RegularSplices;
    OldEntry(s);
    KeptFactsOf(s.oldLog, s.oldBase, s.oldLo);
    var ns := NamesOf(Replay(s.oldLog, s.oldBase));
    DeleteReady(s.oldLog, s.oldBase, s.oldId);
    SteadyDelete(ns, s.oldId, s.oldLo);
    CommitLeaves(s.oldLog, s.oldBase, s.oldLo, SecondAttrs(s), how);
    DropFinds(ns, s.oldId, s.oldName, other);
    var (log, base) := After(s.oldLog, s.oldBase, SecondAttrs(s), how);
    FetchSomewhere(log, base, s.oldLo, s.oldName);
    FetchSomewhere(log, base, s.oldLo, other);
    FetchSomewhere(s.oldLog, s.oldBase, s.oldLo, other);
  }

  lemma DeleteReady(log: seq<Record>, base: nat, id: int)
    requires WellFormed(log, base) && OnDisk(log)
    ensures Ready(FromDisk(log) + [DeleteItem(id)]) && Written([DeleteItem(id)]) == [R.DeleteRecord(id)]
  {
    hide Kept, Closed, Fresh, Survivors, Written, WrittenItem, RegularSplice, ItemOk, OnDisk, RegularSplices, IsRecord,
         Ready, NoMoves;
    WellFormedSplices(log, base);
    ReadyDisk(log);
    SpliceItems(id);
    ReadyMore(FromDisk(log), DeleteItem(id));
    WrittenMore([], DeleteItem(id));
    WrittenNothing();
    SpliceWritten(id);
    assert [] + [DeleteItem(id)] == [DeleteItem(id)];
    assert [] + [R.DeleteRecord(id)] == [R.DeleteRecord(id)];
  }

  // ---- renaming within a pair ----

  /** Within one pair a single commit takes the old name away and gives the new one what the old one held. */
  lemma RenameWithin(log: seq<Record>, base: nat, lo: nat, oldName: seq<bv8>, oldId: int, newName: seq<bv8>, newId: int,
                     prev: bool, ty: bv16, how: How)
    requires KeptSorted(log, base, lo) && OnDisk(log) && Closed(log) && Count(log, base) + 1 < NO_ID
      && Nameable(ty, newName)
    requires FetchMatch(log, oldName, None) == Hit(oldId) && Wanted(FetchMatch(log, newName, None), newId, prev)
    requires oldName != newName && HowOk(how)
    ensures
      var leaving := if !prev && newId <= oldId then oldId + 1 else oldId;
      var attrs := RenameAttrs(newId, prev, ty, newName, oldId, Dir(log, base), true, leaving);
      var (log', base') := After(log, base, attrs, how);
      && KeptSorted(log', base', lo)
      && FetchMatch(log', newName, None) == Hit(if leaving < newId then newId - 1 else newId)
      && Resolve(log', newName, None) == Lookup(log, R.STRUCT_MASK, R.STRUCT, oldId)
      && !FetchMatch(log', oldName, None).Hit?
  {
    hide KeptSorted, FetchMatch, OnDisk, Nameable, M.IsTrailer, NamesOf, PutName, DropName, Somewhere, Emits, Lookup,
         RenameAttrs, After, Closed, WellFormed, GoesAt, PlaceOf;
    var source, leaving := Dir(log, base), if !prev && newId <= oldId then oldId + 1 else oldId;
    var attrs := RenameAttrs(newId, prev, ty, newName, oldId, source, true, leaving);
    var (log', base') := After(log, base, attrs, how);
    KeptFactsOf(log, base, lo);
    var ns, attr := NamesOf(Replay(log, base)), Attr(ty, |newName|, newName);
    WithinIds(log, base, lo, oldName, oldId, newName, newId, prev);
    RenamedNames(log, base, lo, newId, prev, ty, newName, oldId, source, true, leaving, how);
    RenamedNames(log, base, lo, newId, prev, ty, newName, oldId, source, true, leaving, Appended);
    AfterAppended(log, base, attrs);
    WithinNames(ns, lo, oldId, oldName, newId, prev, attr, leaving);
    FetchHit(log', base', lo, newName, if leaving < newId then newId - 1 else newId);
    FetchSomewhere(log', base', lo, oldName);
    RenamedHolds(log, base, newId, prev, ty, newName, oldId, source, true, leaving, how,
                 if leaving < newId then newId - 1 else newId);
  }

  lemma WithinIds(log: seq<Record>, base: nat, lo: nat, oldName: seq<bv8>, oldId: int, newName: seq<bv8>, newId: int,
                  prev: bool)
    requires KeptSorted(log, base, lo) && oldName != newName
    requires FetchMatch(log, oldName, None) == Hit(oldId) && Wanted(FetchMatch(log, newName, None), newId, prev)
    ensures
      var ns := NamesOf(Replay(log, base));
      && lo <= oldId < |ns| && GoesAt(ns, oldId, oldName) && lo <= newId <= |ns| && (prev ==> newId != oldId)
      && (if prev then GoesAt(ns, newId, newName) else PlaceOf(ns, newId, newName))
  {
    hide FetchMatch, PlaceOf, Disciplined, SuperNamed, AllNamed, NameOf;
    FetchPlace(log, base, oldName, lo, None);
    FetchPlace(log, base, newName, lo, None);
  }

  lemma WithinNames(ns: Names, lo: nat, oldId: int, oldName: seq<bv8>, newId: int, prev: bool, attr: Attr, leaving: int)
    requires Sorted(ns) && AllNamed(ns, lo) && GoesAt(ns, oldId, oldName) && lo <= newId <= |ns| && oldName != attr.data
    requires if prev then GoesAt(ns, newId, attr.data) else PlaceOf(ns, newId, attr.data)
    requires leaving == if !prev && newId <= oldId then oldId + 1 else oldId
    ensures
      var after := DropName(PutName(ns, newId, prev, attr), leaving);
      && GoesAt(after, if leaving < newId then newId - 1 else newId, attr.data)
      && !Somewhere(after, oldName)
  {
    hide Less, Sorted;
    var named := PutName(ns, newId, prev, attr);
    var after := DropName(named, leaving);
    if Somewhere(after, oldName) {
      var k :| 0 <= k < |after| && GoesAt(after, k, oldName);
      var j := if k < leaving then k else k + 1;
      assert named[j] == after[k] && j != newId;
      GoesOnce(ns, if prev || j < newId then j else j - 1, oldId, oldName);
    }
  }
}
