/** Compaction of a metadata log: which records are written out, and why lookups do not notice. */
module Compaction {
  import opened LfsBase
  import opened TagLog

  /** Compaction writes out the tags that belong to entries. */
  predicate Kept(t: Tag) {
    t.ty & 0x400 == 0
  }

  /** How far a tag supersedes older ones: user attributes by their exact type, others by their kind. */
  function KeyMask(t: Tag): bv16 {
    if t.ty & 0x100 != 0 then 0x7ff else 0x700
  }

  predicate Supersedes(t: Tag, older: Tag) {
    Agree(KeyMask(t), t.ty, older.ty) && t.id == older.id
  }

  /** lfs_dir_traverse_filter: a later tag t makes an older one redundant, or adjusts its id. */
  function Filter(t: Tag, older: Tag): Option<Tag> {
    if Supersedes(t, older) || IsDelete(older) || (t.ty == DELETE && t.id == older.id) then None
    else if IsSplice(t) && t.id <= older.id then Some(older.(id := older.id + SpliceOf(t)))
    else Some(older)
  }

  function FilterRecord(t: Tag, e: Record): (r: seq<Record>) {
    match Filter(t, e.tag)
    case None => []
    case Some(tag) => [Record(tag, e.data)]
  }

  /** What is left of the records after a later tag. */
  function FilterAll(t: Tag, kept: seq<Record>): seq<Record> {
    if kept == [] then []
    else FilterAll(t, kept[..|kept| - 1]) + FilterRecord(t, kept[|kept| - 1])
  }

  /** The records of a log that compaction keeps, under the ids they end up with. */
  function Survivors(log: seq<Record>): seq<Record> {
    if log == [] then []
    else
      var e := log[|log| - 1];
      FilterAll(e.tag, Survivors(log[..|log| - 1])) + if Kept(e.tag) then [e] else []
  }

  /** The records of the entries from begin to end, renumbered from 0. */
  function Select(kept: seq<Record>, begin: int, end: int): seq<Record> {
    if kept == [] then []
    else
      var e := kept[|kept| - 1];
      Select(kept[..|kept| - 1], begin, end)
      + if begin <= e.tag.id < end then [Record(e.tag.(id := e.tag.id - begin), e.data)] else []
  }

  /** The compacted log. */
  function Compact(log: seq<Record>, begin: int, end: int): seq<Record> {
    Select(Survivors(log), begin, end)
  }

  // ---- lookups in a log without splices ----

  predicate AllKept(kept: seq<Record>) {
    forall k | 0 <= k < |kept| :: Kept(kept[k].tag)
  }

  /** No record supersedes an older one. */
  predicate NonRedundant(kept: seq<Record>) {
    forall j, k | 0 <= j < k < |kept| :: !Supersedes(kept[k].tag, kept[j].tag)
  }

  /** Splices are created and deleted entries, as the log only ever has them. */
  predicate RegularSplices(log: seq<Record>) {
    forall k | 0 <= k < |log| :: RegularSplice(log[k].tag)
  }

  predicate RegularSplice(t: Tag) {
    IsSplice(t) ==> (t.ty == CREATE && t.size == 0) || t.ty == DELETE
  }

  /** Lookups that cannot tell a tag from one that supersedes it: names and structs by their kind,
      user attributes by their exact type. */
  predicate Granular(mask: bv16, ty: bv16) {
    ty & 0x400 == 0 && ((mask == 0x700 && ty & 0x100 == 0) || (mask == 0x7ff && ty & 0x100 != 0))
  }

  lemma KeyFacts(t: Tag, older: Tag, mask: bv16, ty: bv16)
    requires Granular(mask, ty)
    ensures Supersedes(t, older) ==> t.id == older.id && (Agree(mask, t.ty, ty) <==> Agree(mask, older.ty, ty))
    ensures Agree(mask, t.ty, ty) && Agree(mask, older.ty, ty) && t.id == older.id ==> Supersedes(t, older)
    ensures EntryQuery(mask, ty)
  {
  }

  lemma KeptFacts(t: Tag, older: Tag)
    ensures Kept(t) ==> !IsSplice(t) && t.ty != CREATE && t.ty != DELETE
    ensures Kept(older) && !Kept(t) ==> !Supersedes(t, older)
    ensures IsSplice(t) ==> !Kept(t)
    ensures t.ty == CREATE || t.ty == DELETE ==> IsSplice(t)
  {
  }

  /** Looking at the newest record of a log without splices. */
  lemma LookupKept(kept: seq<Record>, mask: bv16, ty: bv16, id: int)
    requires AllKept(kept) && kept != []
    ensures
      var f, older := kept[|kept| - 1], kept[..|kept| - 1];
      && AllKept(older)
      && Lookup(kept, mask, ty, id) ==
           if Matches(f.tag, mask, ty, id) then (if IsDelete(f.tag) then None else Some(AttrOf(f)))
           else Lookup(older, mask, ty, id)
  {
    hide Agree, IsSplice, Kept;
    KeptFacts(kept[|kept| - 1].tag, kept[|kept| - 1].tag);
  }

  predicate NoneSuperseded(t: Tag, older: seq<Record>) {
    forall k | 0 <= k < |older| :: !Supersedes(t, older[k].tag)
  }

  /** Nothing is found behind records none of which the tag supersedes. */
  lemma {:induction false} NothingOlder(older: seq<Record>, f: Tag, mask: bv16, ty: bv16)
    requires AllKept(older) && Granular(mask, ty) && Agree(mask, f.ty, ty)
    requires NoneSuperseded(f, older)
    ensures Lookup(older, mask, ty, f.id) == None
  {
    hide Agree, Supersedes, Kept, Granular;
    if older != [] {
      var g := older[|older| - 1].tag;
      KeyFacts(f, g, mask, ty);
      LookupKept(older, mask, ty, f.id);
      NothingOlder(older[..|older| - 1], f, mask, ty);
    }
  }

  lemma NonRedundantOlder(kept: seq<Record>)
    requires NonRedundant(kept) && AllKept(kept) && kept != []
    ensures NonRedundant(kept[..|kept| - 1]) && AllKept(kept[..|kept| - 1])
    ensures NoneSuperseded(kept[|kept| - 1].tag, kept[..|kept| - 1])
  {
    hide Supersedes, Kept;
  }

  // ---- what one later tag does to lookups ----

  /** The ids agree after the splice exactly when they agreed before it. */
  lemma SplicedIds(t: Tag, f: Tag, id: int)
    requires RegularSplice(t) && Filter(t, f).Some? && !(t.ty == CREATE && t.id == id)
    ensures Filter(t, f).value.id == id <==> f.id == Unspliced(t, id)
    ensures Filter(t, f).value == f.(id := Filter(t, f).value.id)
  {
    hide Supersedes, IsSplice;
  }

  /** A later tag keeps what is found under every id, but for what it supersedes itself. */
  lemma {:induction false} FilteredLookup(t: Tag, kept: seq<Record>, mask: bv16, ty: bv16, id: int)
    requires AllKept(kept) && NonRedundant(kept) && RegularSplice(t) && Granular(mask, ty)
    requires !(Kept(t) && t.id == id && Agree(mask, t.ty, ty))
    ensures Lookup(FilterAll(t, kept), mask, ty, id)
         == if t.ty == CREATE && t.id == id then None else Lookup(kept, mask, ty, Unspliced(t, id))
    decreases |kept|
  {
    hide Agree, Supersedes, Kept, IsSplice, Granular, Lookup, Unspliced, Filter, RegularSplice, NonRedundant;
    if kept == [] {
      LookupNothing(mask, ty, id);
      LookupNothing(mask, ty, Unspliced(t, id));
    } else {
      var f, older := kept[|kept| - 1], kept[..|kept| - 1];
      NonRedundantOlder(kept);
      FilteredLookup(t, older, mask, ty, id);
      var all := FilterAll(t, kept);
      FilterAllKept(t, older);
      LookupKept(kept, mask, ty, Unspliced(t, id));
      match Filter(t, f.tag) {
        case None =>
          assert all == FilterAll(t, older);
          DroppedLookup(t, f.tag, older, mask, ty, id);
        case Some(tag) =>
          assert all == FilterAll(t, older) + [Record(tag, f.data)];
          KeptLookup(t, f, FilterAll(t, older), mask, ty, id);
      }
    }
  }

  lemma LookupNothing(mask: bv16, ty: bv16, id: int)
    ensures Lookup([], mask, ty, id) == None
  {
  }

  /** A record that a later tag drops is not missed. */
  lemma DroppedLookup(t: Tag, f: Tag, older: seq<Record>, mask: bv16, ty: bv16, id: int)
    requires AllKept(older) && Kept(f) && RegularSplice(t) && Granular(mask, ty)
    requires NoneSuperseded(f, older)
    requires !(Kept(t) && t.id == id && Agree(mask, t.ty, ty)) && Filter(t, f) == None
    ensures Matches(f, mask, ty, Unspliced(t, id)) && !(t.ty == CREATE && t.id == id) ==>
      IsDelete(f) && Lookup(older, mask, ty, Unspliced(t, id)) == None
  {
    hide Agree, Supersedes, Kept, IsSplice, Granular, Lookup;
    KeyFacts(t, f, mask, ty);
    KeptFacts(t, f);
    if Matches(f, mask, ty, Unspliced(t, id)) && IsDelete(f) {
      NothingOlder(older, f, mask, ty);
    }
  }

  /** A record that stays is found under its new id exactly when it was found under its old one. */
  lemma KeptLookup(t: Tag, f: Record, before: seq<Record>, mask: bv16, ty: bv16, id: int)
    requires Kept(f.tag) && RegularSplice(t) && Filter(t, f.tag).Some? && AllKept(before)
    ensures
      var e := Record(Filter(t, f.tag).value, f.data);
      && Kept(e.tag) && !IsDelete(f.tag)
      && Lookup(before + [e], mask, ty, id) ==
           if Matches(f.tag, mask, ty, Unspliced(t, id)) && !(t.ty == CREATE && t.id == id) then Some(AttrOf(f))
           else Lookup(before, mask, ty, id)
  {
    hide Agree, Supersedes, Kept, IsSplice, Lookup, Unspliced;
    var e := Record(Filter(t, f.tag).value, f.data);
    KeptFacts(t, f.tag);
    SplicedTag(t, f.tag);
    KeptAlike(f.tag, e.tag);
    assert (before + [e])[..|before|] == before;
    LookupKept(before + [e], mask, ty, id);
    if !(t.ty == CREATE && t.id == id) {
      SplicedIds(t, f.tag, id);
    }
  }

  lemma KeptAlike(f: Tag, e: Tag)
    requires f.ty == e.ty
    ensures Kept(f) == Kept(e)
  {
  }

  /** A surviving tag changes in its id only, and makes room for a created entry. */
  lemma SplicedTag(t: Tag, f: Tag)
    requires Filter(t, f).Some?
    ensures Filter(t, f).value == f.(id := Filter(t, f).value.id) && !IsDelete(f)
    ensures t.ty == CREATE ==> Filter(t, f).value.id != t.id
  {
    hide Supersedes, Agree;
  }

  lemma {:induction false} FilterAllKept(t: Tag, kept: seq<Record>)
    requires AllKept(kept)
    ensures AllKept(FilterAll(t, kept))
  {
    hide Kept, Filter;
    if kept != [] {
      var f := kept[|kept| - 1];
      FilterAllKept(t, kept[..|kept| - 1]);
      if Filter(t, f.tag).Some? {
        SplicedTag(t, f.tag);
        KeptAlike(f.tag, Filter(t, f.tag).value);
      }
    }
  }

  // ---- compaction preserves lookups ----

  lemma FilterLast(t: Tag, kept: seq<Record>)
    requires kept != []
    ensures
      var f, before := kept[|kept| - 1], FilterAll(t, kept[..|kept| - 1]);
      FilterAll(t, kept) ==
        match Filter(t, f.tag) case None => before case Some(tag) => before + [Record(tag, f.data)]
  {
    hide Filter;
    var before := FilterAll(t, kept[..|kept| - 1]);
    assert before + [] == before;
  }

  /** Every record left by a later tag is one of those before, under its new id. */
  lemma {:induction false} FilterAllOrigin(t: Tag, kept: seq<Record>, j: nat) returns (i: nat)
    requires j < |FilterAll(t, kept)|
    ensures i < |kept| && Filter(t, kept[i].tag) == Some(FilterAll(t, kept)[j].tag)
    decreases |kept|
  {
    hide Filter;
    FilterLast(t, kept);
    if j < |FilterAll(t, kept[..|kept| - 1])| {
      i := FilterAllOrigin(t, kept[..|kept| - 1], j);
    } else {
      i := |kept| - 1;
    }
  }

  /** Tags that do not supersede one another do not start to when their ids are spliced. */
  lemma SplicedApart(t: Tag, f: Tag, g: Tag)
    requires RegularSplice(t) && Filter(t, f).Some? && Filter(t, g).Some? && !Supersedes(f, g)
    ensures !Supersedes(Filter(t, f).value, Filter(t, g).value)
  {
    hide IsSplice, Agree;
    SplicedTag(t, f);
    SplicedTag(t, g);
  }

  lemma {:induction false} FilterAllNonRedundant(t: Tag, kept: seq<Record>)
    requires AllKept(kept) && NonRedundant(kept) && RegularSplice(t)
    ensures NonRedundant(FilterAll(t, kept))
    decreases |kept|
  {
    hide Filter, Supersedes, Kept, RegularSplice;
    if kept != [] {
      var f, older := kept[|kept| - 1], kept[..|kept| - 1];
      FilterAllNonRedundant(t, older);
      FilterLast(t, kept);
      if Filter(t, f.tag).Some? {
        forall j | 0 <= j < |FilterAll(t, older)|
          ensures !Supersedes(Filter(t, f.tag).value, FilterAll(t, older)[j].tag)
        {
          var i := FilterAllOrigin(t, older, j);
          assert !Supersedes(f.tag, kept[i].tag);
          SplicedApart(t, f.tag, kept[i].tag);
        }
      }
    }
  }

  /** No record left by a later tag is superseded by it. */
  lemma FilterAllSuperseded(t: Tag, kept: seq<Record>)
    requires Kept(t)
    ensures NoneSuperseded(t, FilterAll(t, kept))
  {
    hide Supersedes, Kept, FilterAll;
    forall j | 0 <= j < |FilterAll(t, kept)|
      ensures !Supersedes(t, FilterAll(t, kept)[j].tag)
    {
      var i := FilterAllOrigin(t, kept, j);
      KeptFacts(t, t);
    }
  }

  /** Compaction keeps no two records one of which supersedes the other. */
  lemma {:induction false} SurvivorsNonRedundant(log: seq<Record>)
    requires RegularSplices(log)
    ensures AllKept(Survivors(log)) && NonRedundant(Survivors(log))
  {
    hide Supersedes, Kept, RegularSplice, FilterAll;
    if log != [] {
      var e, older := log[|log| - 1], log[..|log| - 1];
      SurvivorsNonRedundant(older);
      FilterAllKept(e.tag, Survivors(older));
      FilterAllNonRedundant(e.tag, Survivors(older));
      if Kept(e.tag) {
        FilterAllSuperseded(e.tag, Survivors(older));
      }
    }
  }

  /** Looking among the survivors is looking in the log. */
  lemma {:induction false} SurvivorsLookup(log: seq<Record>, mask: bv16, ty: bv16, id: int)
    requires RegularSplices(log) && Granular(mask, ty)
    ensures Lookup(Survivors(log), mask, ty, id) == Lookup(log, mask, ty, id)
    decreases |log|
  {
    hide Agree, Supersedes, Kept, IsSplice, Granular, Unspliced, FilterAll, NonRedundant, AllKept, RegularSplice;
    if log != [] {
      var e, older := log[|log| - 1], log[..|log| - 1];
      var t := e.tag;
      SurvivorsNonRedundant(older);
      KeyFacts(t, t, mask, ty);
      assert RegularSplice(t);
      TagOfQuery(t, mask, ty, id);
      LastSurvivor(log, mask, ty, id);
      SurvivorsLookup(older, mask, ty, Unspliced(t, id));
    }
  }

  /** The newest record of the log, among the survivors. */
  lemma LastSurvivor(log: seq<Record>, mask: bv16, ty: bv16, id: int)
    requires log != [] && RegularSplices(log) && Granular(mask, ty)
    requires AllKept(Survivors(log[..|log| - 1])) && NonRedundant(Survivors(log[..|log| - 1]))
    ensures
      var e := log[|log| - 1];
      var t, before := e.tag, Survivors(log[..|log| - 1]);
      Lookup(Survivors(log), mask, ty, id) ==
        if t.ty == CREATE && t.id == id then None
        else if Matches(t, mask, ty, Unspliced(t, id)) then (if IsDelete(t) then None else Some(AttrOf(e)))
        else Lookup(before, mask, ty, Unspliced(t, id))
  {
    hide Agree, Supersedes, Kept, IsSplice, Granular, Lookup, FilterAll, NonRedundant, AllKept, Unspliced;
    var e := log[|log| - 1];
    var t, before := e.tag, Survivors(log[..|log| - 1]);
    var kept := FilterAll(t, before);
    FilterAllKept(t, before);
    assert RegularSplice(t);
    TagOfQuery(t, mask, ty, id);
    if Kept(t) {
      OneMoreKept(kept, e, mask, ty, id);
    } else {
      assert Survivors(log) == kept;
    }
    if !(Kept(t) && t.id == id && Agree(mask, t.ty, ty)) {
      FilteredLookup(t, before, mask, ty, id);
    }
  }

  lemma OneMoreKept(kept: seq<Record>, e: Record, mask: bv16, ty: bv16, id: int)
    requires AllKept(kept) && Kept(e.tag)
    ensures Lookup(kept + [e], mask, ty, id) ==
      if Matches(e.tag, mask, ty, id) then (if IsDelete(e.tag) then None else Some(AttrOf(e)))
      else Lookup(kept, mask, ty, id)
  {
    hide Agree, Kept, Lookup;
    assert (kept + [e])[..|kept|] == kept;
    LookupKept(kept + [e], mask, ty, id);
  }

  /** Only tags that are kept are ever asked for, and those shift no ids. */
  lemma TagOfQuery(t: Tag, mask: bv16, ty: bv16, id: int)
    requires Granular(mask, ty) && RegularSplice(t)
    ensures Agree(mask, t.ty, ty) ==> Kept(t)
    ensures Kept(t) ==> Unspliced(t, id) == id && t.ty != CREATE
    ensures t == Tag(CREATE, id, 0) <==> t.ty == CREATE && t.id == id
  {
  }

  lemma {:induction false} SelectLookup(kept: seq<Record>, begin: int, end: int, mask: bv16, ty: bv16, id: int)
    requires AllKept(kept) && begin <= begin + id < end
    ensures AllKept(Select(kept, begin, end))
    ensures Lookup(Select(kept, begin, end), mask, ty, id) == Lookup(kept, mask, ty, begin + id)
    decreases |kept|
  {
    hide Agree, Kept, Lookup;
    if kept == [] {
      LookupNothing(mask, ty, id);
      LookupNothing(mask, ty, begin + id);
    } else {
      var f, older := kept[|kept| - 1], kept[..|kept| - 1];
      SelectLookup(older, begin, end, mask, ty, id);
      LookupKept(kept, mask, ty, begin + id);
      var e := Record(f.tag.(id := f.tag.id - begin), f.data);
      KeptAlike(f.tag, e.tag);
      if begin <= f.tag.id < end {
        OneMoreKept(Select(older, begin, end), e, mask, ty, id);
      } else {
        assert Select(kept, begin, end) == Select(older, begin, end);
      }
    }
  }

  /** Lookup in the compacted log gives what lookup in the log gave. */
  lemma CompactionPreserves(log: seq<Record>, begin: int, end: int, mask: bv16, ty: bv16, id: int)
    requires RegularSplices(log) && Granular(mask, ty) && 0 <= id < end - begin
    ensures Lookup(Compact(log, begin, end), mask, ty, id) == Lookup(log, mask, ty, begin + id)
  {
    hide Lookup, Survivors, Select;
    SurvivorsNonRedundant(log);
    SelectLookup(Survivors(log), begin, end, mask, ty, id);
    SurvivorsLookup(log, mask, ty, begin + id);
  }

  // ---- lookups that are finer than compaction ----

  /** Lookups of names and structs that can tell a tag from one that supersedes it. */
  predicate Fine(mask: bv16, ty: bv16) {
    mask & 0x700 == 0x700 && ty & 0x500 == 0
  }

  lemma FineFacts(t: Tag, older: Tag, mask: bv16, ty: bv16)
    requires Fine(mask, ty)
    ensures Granular(0x700, ty)
    ensures Agree(mask, t.ty, ty) ==> Agree(0x700, t.ty, ty)
    ensures Agree(0x700, t.ty, ty) && Agree(0x700, older.ty, ty) && t.id == older.id ==> Supersedes(t, older)
  {
  }

  /** What a compacted log answers to a finer lookup. */
  function IfAgrees(found: Option<Attr>, mask: bv16, ty: bv16): Option<Attr> {
    if found.Some? && Agree(mask, found.value.ty, ty) then found else None
  }

  /** Where no tag supersedes another, only the newest name or struct can be found. */
  lemma {:induction false} FineKept(kept: seq<Record>, mask: bv16, ty: bv16, id: int)
    requires AllKept(kept) && NonRedundant(kept) && Fine(mask, ty)
    ensures Lookup(kept, mask, ty, id) == IfAgrees(Lookup(kept, 0x700, ty, id), mask, ty)
    decreases |kept|
  {
    hide Agree, Kept, Lookup, Supersedes, Granular, Fine, NonRedundant, AllKept;
    if kept == [] {
      LookupNothing(mask, ty, id);
      LookupNothing(0x700, ty, id);
    } else {
      var f, older := kept[|kept| - 1], kept[..|kept| - 1];
      NonRedundantOlder(kept);
      LookupKept(kept, mask, ty, id);
      LookupKept(kept, 0x700, ty, id);
      FineFacts(f.tag, f.tag, mask, ty);
      FineKept(older, mask, ty, id);
      if Matches(f.tag, 0x700, ty, id) {
        NothingOlder(older, f.tag, 0x700, ty);
      }
    }
  }

  /** A lookup finer than compaction finds, after compaction, the newest name or struct or nothing. It
      still gives what it gave in the log exactly when that was nothing or the newest. */
  lemma FineLookup(log: seq<Record>, begin: int, end: int, mask: bv16, ty: bv16, id: int)
    requires RegularSplices(log) && Fine(mask, ty) && 0 <= id < end - begin
    ensures
      var newest := Lookup(log, 0x700, ty, begin + id);
      var was := Lookup(log, mask, ty, begin + id);
      var now := Lookup(Compact(log, begin, end), mask, ty, id);
      && now == IfAgrees(newest, mask, ty)
      && (now == was <==> was == None || (newest.Some? && Agree(mask, newest.value.ty, ty)))
  {
    hide Agree, Lookup, Survivors, Select, Granular, Fine;
    FineFacts(Tag(0, 0, 0), Tag(0, 0, 0), mask, ty);
    SurvivorsNonRedundant(log);
    SelectLookup(Survivors(log), begin, end, mask, ty, id);
    FineKept(Survivors(log), mask, ty, begin + id);
    SurvivorsLookup(log, 0x700, ty, begin + id);
    NewestFirst(log, mask, ty, begin + id);
  }

  /** When the newest name or struct agrees with the finer lookup, that finds it too. */
  lemma {:induction false} NewestFirst(log: seq<Record>, mask: bv16, ty: bv16, id: int)
    requires Fine(mask, ty)
    ensures IfAgrees(Lookup(log, 0x700, ty, id), mask, ty) != None ==>
      Lookup(log, mask, ty, id) == Lookup(log, 0x700, ty, id)
    decreases |log|
  {
    hide Agree, IsSplice, Fine, Granular;
    if log != [] {
      var t := log[|log| - 1].tag;
      FineFacts(t, t, mask, ty);
      NewestFirst(log[..|log| - 1], mask, ty, Unspliced(t, id));
    }
  }

  /** A file that was inline before it became a skip list: the superseded struct is found before
      compaction, and no longer afterwards. */
  lemma FinerLookupChanges()
    ensures
      var inlined, ctz := Tag(0x201, 0, 4), Tag(0x202, 0, 8);
      var log := [Record(inlined, []), Record(ctz, [])];
      && Lookup(log, 0x7ff, 0x201, 0).Some? && Lookup(Compact(log, 0, 1), 0x7ff, 0x201, 0) == None
  {
    var inlined, ctz := Record(Tag(0x201, 0, 4), []), Record(Tag(0x202, 0, 8), []);
    var log := [inlined, ctz];
    assert log[..1] == [inlined];
    FineLookup(log, 0, 1, 0x7ff, 0x201, 0);
    assert Lookup(log, 0x700, 0x201, 0) == Some(AttrOf(ctz));
    assert Lookup([inlined], 0x7ff, 0x201, 0) == Some(AttrOf(inlined));
  }

  // ---- what the compacted log means ----

  /** The tail, the global state and the crc written behind the entries do not show in lookups. */
  lemma {:induction false} TrailerInvisible(log: seq<Record>, trailer: seq<Record>, mask: bv16, ty: bv16, id: int)
    requires forall k | 0 <= k < |trailer| :: !Kept(trailer[k].tag) && !IsSplice(trailer[k].tag)
    requires EntryQuery(mask, ty)
    ensures Lookup(log + trailer, mask, ty, id) == Lookup(log, mask, ty, id)
    decreases |trailer|
  {
    hide Agree, IsSplice, Kept, EntryQuery;
    if trailer == [] {
      assert log + trailer == log;
    } else {
      var e, before := trailer[|trailer| - 1], trailer[..|trailer| - 1];
      TrailerInvisible(log, before, mask, ty, id);
      assert (log + trailer)[..|log + trailer| - 1] == log + before;
      GlobalTag(e.tag, mask, ty);
    }
  }

  lemma GlobalTag(t: Tag, mask: bv16, ty: bv16)
    requires EntryQuery(mask, ty) && !Kept(t)
    ensures !Agree(mask, t.ty, ty)
    ensures !IsSplice(t) ==> t.ty != CREATE && t.ty != DELETE
  {
  }

  lemma {:induction false} SelectedIds(kept: seq<Record>, begin: int, end: int)
    requires AllKept(kept) && 0 <= begin <= end < NO_ID
    ensures WellFormed(Select(kept, begin, end), end - begin)
    ensures Count(Select(kept, begin, end), end - begin) == end - begin
    decreases |kept|
  {
    hide IsSplice, Kept, WellFormed, Count, Fits;
    if kept == [] {
      EmptyWellFormed(end - begin);
    } else {
      var f, older := kept[|kept| - 1], kept[..|kept| - 1];
      SelectedIds(older, begin, end);
      var s := Select(older, begin, end);
      if begin <= f.tag.id < end {
        var e := Record(f.tag.(id := f.tag.id - begin), f.data);
        KeptAlike(f.tag, e.tag);
        OneMoreWellFormed(s, end - begin, e);
      } else {
        assert Select(kept, begin, end) == s;
      }
    }
  }

  lemma EmptyWellFormed(base: nat)
    requires base < NO_ID
    ensures WellFormed([], base) && Count([], base) == base
  {
  }

  /** A record of an entry that is there already. */
  lemma OneMoreWellFormed(log: seq<Record>, base: nat, e: Record)
    requires WellFormed(log, base) && Kept(e.tag) && 0 <= e.tag.id < Count(log, base)
    ensures WellFormed(log + [e], base) && Count(log + [e], base) == Count(log, base)
  {
    hide IsSplice, Kept;
    KeptFacts(e.tag, e.tag);
    assert (log + [e])[..|log|] == log;
  }

  /** A compacted log starts from as many entries as it holds, and neither creates nor deletes any. */
  lemma CompactShape(log: seq<Record>, begin: int, end: int)
    requires RegularSplices(log) && 0 <= begin <= end < NO_ID
    ensures WellFormed(Compact(log, begin, end), end - begin)
    ensures Count(Compact(log, begin, end), end - begin) == end - begin
  {
    hide WellFormed, Count, RegularSplices, Survivors, Select;
    SurvivorsNonRedundant(log);
    SelectedIds(Survivors(log), begin, end);
  }

  lemma {:induction false} WellFormedSplices(log: seq<Record>, base: nat)
    requires WellFormed(log, base)
    ensures RegularSplices(log)
  {
    hide IsSplice;
    if log != [] {
      WellFormedSplices(log[..|log| - 1], base);
      assert RegularSplice(log[|log| - 1].tag);
    }
  }

  /** Replaying the compacted log leaves the entries from begin to end: to every granular query they
      answer what they answered before. */
  lemma CompactionMeaning(log: seq<Record>, base: nat, begin: nat, end: nat, mask: bv16, ty: bv16, id: nat)
    requires WellFormed(log, base) && Granular(mask, ty) && begin + id < end <= Count(log, base)
    ensures WellFormed(Compact(log, begin, end), end - begin)
    ensures |Replay(Compact(log, begin, end), end - begin)| == end - begin
    ensures Newest(Replay(Compact(log, begin, end), end - begin)[id], mask, ty)
         == Newest(Replay(log, base)[begin + id], mask, ty)
  {
    hide Agree, Lookup, Compact, Granular, EntryQuery, Newest, RegularSplices;
    ghost var entries := Replay(log, base);
    WellFormedSplices(log, base);
    CompactShape(log, begin, end);
    KeyFacts(Tag(0, 0, 0), Tag(0, 0, 0), mask, ty);
    CompactionPreserves(log, begin, end, mask, ty, id);
    LookupReplays(log, base, mask, ty, begin + id);
    LookupReplays(Compact(log, begin, end), end - begin, mask, ty, id);
  }

  /** To a finer query about a name or a struct they answer their newest one, or nothing. */
  lemma CompactionMeaningFine(log: seq<Record>, base: nat, begin: nat, end: nat, mask: bv16, ty: bv16, id: nat)
    requires WellFormed(log, base) && Fine(mask, ty) && begin + id < end <= Count(log, base)
    ensures WellFormed(Compact(log, begin, end), end - begin)
    ensures |Replay(Compact(log, begin, end), end - begin)| == end - begin
    ensures Newest(Replay(Compact(log, begin, end), end - begin)[id], mask, ty)
         == IfAgrees(Newest(Replay(log, base)[begin + id], 0x700, ty), mask, ty)
  {
    hide Agree, Lookup, Compact, EntryQuery, Newest, RegularSplices, Fine;
    ghost var entries := Replay(log, base);
    WellFormedSplices(log, base);
    CompactShape(log, begin, end);
    FineQuery(mask, ty);
    FineLookup(log, begin, end, mask, ty, id);
    LookupReplays(log, base, 0x700, ty, begin + id);
    LookupReplays(Compact(log, begin, end), end - begin, mask, ty, id);
  }

  lemma FineQuery(mask: bv16, ty: bv16)
    requires Fine(mask, ty)
    ensures EntryQuery(mask, ty) && EntryQuery(0x700, ty) && Granular(0x700, ty)
  {
  }

  // ---- filtering each record by all that follow it ----

  /** A record after the tags that follow it in the log. */
  function Through(e: Record, later: seq<Record>): seq<Record>
    decreases |later|
  {
    if later == [] then [e]
    else match Filter(later[0].tag, e.tag)
         case None => []
         case Some(tag) => Through(Record(tag, e.data), later[1..])
  }

  /** What the traversal has to hand out for the first n records. */
  function Collected(log: seq<Record>, n: nat): seq<Record>
    requires n <= |log|
  {
    if n == 0 then []
    else Collected(log, n - 1) + if Kept(log[n - 1].tag) then Through(log[n - 1], log[n..]) else []
  }

  /** One more tag at the end of those that follow. */
  lemma {:induction false} ThroughLast(e: Record, later: seq<Record>, x: Record)
    ensures Through(e, later + [x]) == FilterAll(x.tag, Through(e, later))
    decreases |later|
  {
    hide Filter;
    if later == [] {
      assert (later + [x])[1..] == [] && [e][..0] == [];
      FilterLast(x.tag, [e]);
    } else {
      assert (later + [x])[1..] == later[1..] + [x];
      match Filter(later[0].tag, e.tag)
      case None =>
      case Some(tag) => ThroughLast(Record(tag, e.data), later[1..], x);
    }
  }

  lemma FilterAllOne(t: Tag, kept: seq<Record>, e: Record)
    ensures FilterAll(t, kept + [e]) == FilterAll(t, kept) + FilterRecord(t, e)
  {
    hide Filter;
    assert (kept + [e])[..|kept|] == kept;
  }

  lemma {:induction false} FilterAllConcat(t: Tag, a: seq<Record>, b: seq<Record>)
    ensures FilterAll(t, a + b) == FilterAll(t, a) + FilterAll(t, b)
    decreases |b|
  {
    hide Filter, FilterRecord;
    if b == [] {
      assert a + b == a;
      assert FilterAll(t, a) + [] == FilterAll(t, a);
    } else {
      hide FilterAll;
      var e, before := b[|b| - 1], b[..|b| - 1];
      FilterAllConcat(t, a, before);
      assert b == before + [e] && a + b == a + before + [e];
      FilterAllOne(t, a + before, e);
      FilterAllOne(t, before, e);
      var x, y, z := FilterAll(t, a), FilterAll(t, before), FilterRecord(t, e);
      assert (x + y) + z == x + (y + z);
    }
  }

  lemma {:induction false} CollectedMore(log: seq<Record>, x: Record, n: nat)
    requires n <= |log|
    ensures Collected(log + [x], n) == FilterAll(x.tag, Collected(log, n))
    decreases n
  {
    hide Filter, Kept, FilterAll, Through;
    if n > 0 {
      CollectedMore(log, x, n - 1);
      var e, more := log[n - 1], log + [x];
      assert more[n..] == log[n..] + [x] && more[n - 1] == e;
      if Kept(e.tag) {
        ThroughLast(e, log[n..], x);
        FilterAllConcat(x.tag, Collected(log, n - 1), Through(e, log[n..]));
      } else {
        Skip(log, n);
        Skip(more, n);
      }
    } else {
      FilterAllNothing(x.tag);
    }
  }

  lemma FilterAllNothing(t: Tag)
    ensures FilterAll(t, []) == []
  {
  }

  /** Filtering each record by all that follow it keeps the survivors. */
  lemma {:induction false} CollectedSurvivors(log: seq<Record>)
    ensures Collected(log, |log|) == Survivors(log)
  {
    hide Filter, Kept, FilterAll;
    if log != [] {
      var x, older := log[|log| - 1], log[..|log| - 1];
      CollectedSurvivors(older);
      CollectedMore(older, x, |older|);
      assert older + [x] == log;
      assert log[|log|..] == [];
    }
  }

  lemma SelectOne(kept: seq<Record>, e: Record, begin: int, end: int)
    ensures Select(kept + [e], begin, end) ==
      Select(kept, begin, end)
      + if begin <= e.tag.id < end then [Record(e.tag.(id := e.tag.id - begin), e.data)] else []
  {
    assert (kept + [e])[..|kept|] == kept;
  }

  lemma {:induction false} SelectConcat(a: seq<Record>, b: seq<Record>, begin: int, end: int)
    ensures Select(a + b, begin, end) == Select(a, begin, end) + Select(b, begin, end)
    decreases |b|
  {
    if b == [] {
      assert a + b == a;
    } else {
      hide Select;
      var e, before := b[|b| - 1], b[..|b| - 1];
      SelectConcat(a, before, begin, end);
      assert b == before + [e] && a + b == a + before + [e];
      SelectOne(a + before, e, begin, end);
      SelectOne(before, e, begin, end);
    }
  }

  lemma Skip(log: seq<Record>, n: nat)
    requires 0 < n <= |log| && !Kept(log[n - 1].tag)
    ensures Collected(log, n) == Collected(log, n - 1)
  {
    hide Kept;
    assert Collected(log, n - 1) + [] == Collected(log, n - 1);
  }
}
