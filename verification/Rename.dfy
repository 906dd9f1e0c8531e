/** Renaming across metadata pairs: one commit makes the new entry and announces the old one's removal,
    a second one removes it; whatever lies between, the entry is there exactly once. */
module Rename {
  import opened LfsBase
  import opened TagLog

  const STRUCT: bv16 := 0x200
  const STRUCT_MASK: bv16 := 0x700

  const TYPE_DIR: bv16 := 0x002

  /** An entry of a pair: its attributes from the oldest to the newest. */
  type Entry = seq<Attr>

  /** The pending move of the global state. */
  datatype Move = NoMove | Move(pair: int, id: int)

  /** The committed entries of every pair, and the pending move the deltas on disk add up to. */
  datatype Disk = Disk(dirs: map<int, seq<Entry>>, move: Move)

  function RemoveAt(s: seq<Entry>, i: int): (r: seq<Entry>)
    requires 0 <= i < |s|
    ensures |r| == |s| - 1
  {
    s[..i] + s[i + 1..]
  }

  function InsertAt(s: seq<Entry>, i: int, e: Entry): (r: seq<Entry>)
    requires 0 <= i <= |s|
    ensures |r| == |s| + 1
  {
    s[..i] + [e] + s[i..]
  }

  /** What lookups see of a pair: an entry about to be moved away is gone. */
  function View(d: Disk, p: int): seq<Entry>
    requires p in d.dirs
  {
    if d.move.Move? && d.move.pair == p && 0 <= d.move.id < |d.dirs[p]| then RemoveAt(d.dirs[p], d.move.id)
    else d.dirs[p]
  }

  /** The view is what lfs_dir_getslice answers from a log that replays to the entries of the pair. */
  lemma ViewIsLookup(d: Disk, p: int, log: seq<Record>, base: nat, mask: bv16, ty: bv16, id: nat)
    requires p in d.dirs && WellFormed(log, base) && Replay(log, base) == d.dirs[p] && EntryQuery(mask, ty)
    requires d.move.Move? && d.move.pair == p ==> 0 <= d.move.id < |d.dirs[p]|
    requires id < |View(d, p)|
    ensures
      var move := if d.move.Move? && d.move.pair == p then Some(d.move.id) else None;
      LookupMoved(log, mask, ty, id, move) == Newest(View(d, p)[id], mask, ty)
  {
    hide EntryQuery, Lookup, Newest;
    var moved := d.move.Move? && d.move.pair == p && d.move.id <= id;
    LookupReplays(log, base, mask, ty, if moved then id + 1 else id);
  }

  // ---- commits ----

  predicate CanApply(entries: seq<Entry>, attrs: seq<Record>)
    decreases |attrs|
  {
    attrs == [] || (Fits(attrs[0].tag, |entries|) && CanApply(Apply(entries, attrs[0]), attrs[1..]))
  }

  function ApplyAll(entries: seq<Entry>, attrs: seq<Record>): seq<Entry>
    requires CanApply(entries, attrs)
    decreases |attrs|
  {
    if attrs == [] then entries else ApplyAll(Apply(entries, attrs[0]), attrs[1..])
  }

  /** The attributes a move takes along: structs and user attributes, but not the name. */
  predicate Moves(ty: bv16) {
    ty & 0x600 == STRUCT
  }

  function MovedAttrs(e: Entry): Entry {
    if e == [] then []
    else MovedAttrs(e[..|e| - 1]) + if Moves(e[|e| - 1].ty) then [e[|e| - 1]] else []
  }

  function MovedRecords(e: Entry, id: int): (r: seq<Record>) {
    if e == [] then []
    else MovedRecords(e[..|e| - 1], id)
         + if Moves(e[|e| - 1].ty) then [Record(Tag(e[|e| - 1].ty, id, e[|e| - 1].size), e[|e| - 1].data)] else []
  }

  /** The queries a move preserves. */
  predicate MoveQuery(mask: bv16, ty: bv16) {
    mask & 0x600 == 0x600 && Moves(ty)
  }

  /** The moved attributes answer every such query as the entry did. */
  lemma {:induction false} MovedAnswers(name: Attr, e: Entry, mask: bv16, ty: bv16)
    requires MoveQuery(mask, ty) && !Moves(name.ty)
    ensures Newest([name] + MovedAttrs(e), mask, ty) == Newest(e, mask, ty)
    decreases |e|
  {
    hide Moves, Agree, MoveQuery;
    if e == [] {
      var only := [name] + MovedAttrs(e);
      assert only[..|only| - 1] == [] && only[|only| - 1] == name;
      NotMoved(name.ty, mask, ty);
    } else {
      var a, older := e[|e| - 1], e[..|e| - 1];
      MovedAnswers(name, older, mask, ty);
      NotMoved(a.ty, mask, ty);
      var all := [name] + MovedAttrs(e);
      if Moves(a.ty) {
        assert all[..|all| - 1] == [name] + MovedAttrs(older) && all[|all| - 1] == a;
      } else {
        assert all == [name] + MovedAttrs(older);
      }
    }
  }

  lemma NotMoved(a: bv16, mask: bv16, ty: bv16)
    requires MoveQuery(mask, ty)
    ensures Agree(mask, a, ty) ==> Moves(a)
  {
  }

  /** The new entry goes by its new name, among names of files and directories and among all names. */
  lemma {:induction false} MovedName(name: Attr, e: Entry, mask: bv16)
    requires name.ty & NAME_MASK == 0 && name.size != REMOVED && (mask == NAME_MASK || mask == 0x700)
    ensures Newest([name] + MovedAttrs(e), mask, 0) == Some(name)
    decreases |e|
  {
    hide Moves, Agree;
    if e == [] {
      var only := [name] + MovedAttrs(e);
      assert only[..|only| - 1] == [] && only[|only| - 1] == name;
      NameAgrees(name.ty, mask);
    } else {
      var a, older := e[|e| - 1], e[..|e| - 1];
      MovedName(name, older, mask);
      MovedNoName(a.ty, mask);
      var all := [name] + MovedAttrs(e);
      if Moves(a.ty) {
        assert all[..|all| - 1] == [name] + MovedAttrs(older) && all[|all| - 1] == a;
      } else {
        assert all == [name] + MovedAttrs(older);
      }
    }
  }

  lemma NameAgrees(ty: bv16, mask: bv16)
    requires ty & NAME_MASK == 0 && (mask == NAME_MASK || mask == 0x700)
    ensures Agree(mask, ty, 0)
  {
  }

  lemma MovedNoName(ty: bv16, mask: bv16)
    requires mask == NAME_MASK || mask == 0x700
    ensures Moves(ty) ==> !Agree(mask, ty, 0)
  {
  }

  lemma {:induction false} ApplyConcat(entries: seq<Entry>, a: seq<Record>, b: seq<Record>)
    requires CanApply(entries, a) && CanApply(ApplyAll(entries, a), b)
    ensures CanApply(entries, a + b) && ApplyAll(entries, a + b) == ApplyAll(ApplyAll(entries, a), b)
    decreases |a|
  {
    hide Fits, Apply;
    if a == [] {
      assert a + b == b;
    } else {
      ApplyConcat(Apply(entries, a[0]), a[1..], b);
      assert (a + b)[0] == a[0] && (a + b)[1..] == a[1..] + b;
    }
  }

  lemma ApplyOne(entries: seq<Entry>, r: Record)
    requires Fits(r.tag, |entries|)
    ensures CanApply(entries, [r]) && ApplyAll(entries, [r]) == Apply(entries, r)
  {
    hide Fits, Apply;
    assert [r][1..] == [];
  }

  lemma PlainType(ty: bv16)
    ensures Moves(ty) || ty & NAME_MASK == 0 ==> !IsSplice(Tag(ty, 0, 0)) && ty != CREATE && ty != DELETE
    ensures IsSplice(Tag(CREATE, 0, 0)) && IsSplice(Tag(DELETE, 0, 0))
    ensures ty & NAME_MASK == 0 ==> !Moves(ty)
  {
  }

  /** An attribute appended to an entry. */
  lemma ApplyPlain(entries: seq<Entry>, id: int, a: Attr)
    requires 0 <= id < |entries| && (Moves(a.ty) || a.ty & NAME_MASK == 0)
    ensures
      var r := Record(Tag(a.ty, id, a.size), a.data);
      CanApply(entries, [r]) && ApplyAll(entries, [r]) == entries[id := entries[id] + [a]]
  {
    hide Moves, IsSplice;
    PlainType(a.ty);
    SameSplice(Tag(a.ty, id, a.size), Tag(a.ty, 0, 0));
    ApplyOne(entries, Record(Tag(a.ty, id, a.size), a.data));
  }

  lemma SameSplice(s: Tag, t: Tag)
    requires s.ty == t.ty
    ensures IsSplice(s) == IsSplice(t)
  {
  }

  lemma {:induction false} ApplyMoved(entries: seq<Entry>, id: int, e: Entry)
    requires 0 <= id < |entries|
    ensures CanApply(entries, MovedRecords(e, id))
    ensures ApplyAll(entries, MovedRecords(e, id)) == entries[id := entries[id] + MovedAttrs(e)]
    decreases |e|
  {
    hide Moves, Fits, Apply, ApplyAll, CanApply;
    if e == [] {
      ApplyNone(entries);
      assert entries[id] + [] == entries[id];
      assert entries[id := entries[id]] == entries;
    } else {
      var a, older := e[|e| - 1], e[..|e| - 1];
      ApplyMoved(entries, id, older);
      var some := entries[id := entries[id] + MovedAttrs(older)];
      if Moves(a.ty) {
        ApplyPlain(some, id, a);
        ApplyConcat(entries, MovedRecords(older, id), [Record(Tag(a.ty, id, a.size), a.data)]);
        assert entries[id] + MovedAttrs(older) + [a] == entries[id] + MovedAttrs(e);
      } else {
        assert MovedRecords(e, id) == MovedRecords(older, id) && MovedAttrs(e) == MovedAttrs(older);
      }
    }
  }

  lemma ApplyNone(entries: seq<Entry>)
    ensures CanApply(entries, []) && ApplyAll(entries, []) == entries
  {
  }

  function DeleteRecord(id: int): Record {
    Record(Tag(DELETE, id, 0), [])
  }

  function CreateRecord(id: int): Record {
    Record(Tag(CREATE, id, 0), [])
  }

  lemma ApplySplices(entries: seq<Entry>, id: int)
    ensures 0 <= id < |entries| ==>
      CanApply(entries, [DeleteRecord(id)]) && ApplyAll(entries, [DeleteRecord(id)]) == RemoveAt(entries, id)
    ensures 0 <= id <= |entries| && |entries| + 1 < NO_ID ==>
      CanApply(entries, [CreateRecord(id)]) && ApplyAll(entries, [CreateRecord(id)]) == InsertAt(entries, id, [])
  {
    hide IsSplice;
    PlainType(0);
    SameSplice(Tag(CREATE, 0, 0), CreateRecord(id).tag);
    SameSplice(Tag(DELETE, 0, 0), DeleteRecord(id).tag);
    if 0 <= id < |entries| {
      ApplyOne(entries, DeleteRecord(id));
    }
    if 0 <= id <= |entries| && |entries| + 1 < NO_ID {
      ApplyOne(entries, CreateRecord(id));
    }
  }

  function MakeRoom(id: int, prev: bool): seq<Record> {
    (if prev then [DeleteRecord(id)] else []) + [CreateRecord(id)]
  }

  function FillIn(id: int, name: Attr, e: Entry): seq<Record> {
    [Record(Tag(name.ty, id, name.size), name.data)] + MovedRecords(e, id)
  }

  /** The attributes of the first commit, without the removal within the same pair. */
  function NewEntry(id: int, prev: bool, name: Attr, e: Entry): seq<Record> {
    MakeRoom(id, prev) + FillIn(id, name, e)
  }

  /** The entry put at id, in the place of the one there if there is one. */
  function Put(s: seq<Entry>, id: int, prev: bool, e: Entry): (r: seq<Entry>)
    requires 0 <= id <= |s| && (prev ==> id < |s|)
    ensures |r| == |s| + (if prev then 0 else 1) && r[id] == e
  {
    if prev then s[id := e] else InsertAt(s, id, e)
  }

  lemma ApplyMakeRoom(entries: seq<Entry>, id: int, prev: bool)
    requires 0 <= id <= |entries| && (prev ==> id < |entries|) && |entries| + 1 < NO_ID
    ensures CanApply(entries, MakeRoom(id, prev))
    ensures ApplyAll(entries, MakeRoom(id, prev)) == Put(entries, id, prev, [])
  {
    hide ApplyAll, CanApply, RemoveAt, InsertAt;
    ApplySplices(entries, id);
    if prev {
      ApplySplices(RemoveAt(entries, id), id);
      ApplyConcat(entries, [DeleteRecord(id)], [CreateRecord(id)]);
      Replace(entries, id, []);
    } else {
      assert [] + [CreateRecord(id)] == [CreateRecord(id)];
    }
  }

  lemma Replace(s: seq<Entry>, id: int, e: Entry)
    requires 0 <= id < |s|
    ensures InsertAt(RemoveAt(s, id), id, e) == s[id := e]
  {
  }

  lemma ApplyFillIn(entries: seq<Entry>, id: int, name: Attr, e: Entry)
    requires 0 <= id < |entries| && name.ty & NAME_MASK == 0
    ensures CanApply(entries, FillIn(id, name, e))
    ensures ApplyAll(entries, FillIn(id, name, e)) == entries[id := entries[id] + [name] + MovedAttrs(e)]
  {
    hide ApplyAll, CanApply, MovedRecords, MovedAttrs, Moves;
    ApplyPlain(entries, id, name);
    var named := entries[id := entries[id] + [name]];
    ApplyMoved(named, id, e);
    ApplyConcat(entries, [Record(Tag(name.ty, id, name.size), name.data)], MovedRecords(e, id));
  }

  lemma ApplyNewEntry(entries: seq<Entry>, id: int, prev: bool, name: Attr, e: Entry)
    requires 0 <= id <= |entries| && (prev ==> id < |entries|) && |entries| + 1 < NO_ID && name.ty & NAME_MASK == 0
    ensures CanApply(entries, NewEntry(id, prev, name, e))
    ensures ApplyAll(entries, NewEntry(id, prev, name, e)) == Put(entries, id, prev, [name] + MovedAttrs(e))
  {
    hide ApplyAll, CanApply, MakeRoom, FillIn, MovedAttrs, Put, Fits, Apply;
    ApplyMakeRoom(entries, id, prev);
    var created := Put(entries, id, prev, []);
    ApplyFillIn(created, id, name, e);
    ApplyConcat(entries, MakeRoom(id, prev), FillIn(id, name, e));
    assert [] + [name] + MovedAttrs(e) == [name] + MovedAttrs(e);
    PutTwice(entries, id, prev, [name] + MovedAttrs(e));
  }

  lemma PutTwice(s: seq<Entry>, id: int, prev: bool, e: Entry)
    requires 0 <= id <= |s| && (prev ==> id < |s|)
    ensures Put(s, id, prev, [])[id := e] == Put(s, id, prev, e)
  {
  }

  // ---- exactly once ----

  /** The renamed state: the old entry is gone from every view, the new one is there, nothing else moved. */
  predicate Renamed(was: Disk, now: Disk, oldPair: int, oldId: int, newPair: int, newId: int, prev: bool, e: Entry)
    requires oldPair in was.dirs && newPair in was.dirs && oldPair != newPair && was.move == NoMove
    requires 0 <= oldId < |was.dirs[oldPair]| && 0 <= newId <= |was.dirs[newPair]|
    requires prev ==> newId < |was.dirs[newPair]|
  {
    && now.dirs.Keys == was.dirs.Keys
    && View(now, oldPair) == RemoveAt(was.dirs[oldPair], oldId)
    && View(now, newPair) == Put(was.dirs[newPair], newId, prev, e)
    && forall p | p in was.dirs && p != oldPair && p != newPair :: View(now, p) == was.dirs[p]
  }

  /** What an entry holds: its newest struct. */
  function StructOf(e: Entry): Option<Attr> {
    Newest(e, STRUCT_MASK, STRUCT)
  }

  /** Entry id of pair p is the only one of all views that holds the struct. */
  predicate OnlyAt(d: Disk, s: Attr, p: int, id: int) {
    && p in d.dirs && 0 <= id < |View(d, p)|
    && forall q, k | q in d.dirs && 0 <= k < |View(d, q)| :: StructOf(View(d, q)[k]) == Some(s) <==> q == p && k == id
  }

  /** In the renamed state the entry is found at the new place and nowhere else. */
  lemma RenamedOnce(was: Disk, now: Disk, oldPair: int, oldId: int, newPair: int, newId: int, prev: bool, e: Entry,
                    s: Attr)
    requires oldPair in was.dirs && newPair in was.dirs && oldPair != newPair && was.move == NoMove
    requires 0 <= oldId < |was.dirs[oldPair]| && 0 <= newId <= |was.dirs[newPair]|
    requires prev ==> newId < |was.dirs[newPair]|
    requires Renamed(was, now, oldPair, oldId, newPair, newId, prev, e)
    requires OnlyAt(was, s, oldPair, oldId) && StructOf(e) == Some(s)
    ensures OnlyAt(now, s, newPair, newId)
  {
    hide StructOf;
    forall q, k | q in now.dirs && 0 <= k < |View(now, q)|
      ensures StructOf(View(now, q)[k]) == Some(s) <==> q == newPair && k == newId
    {
      assert q in was.dirs && View(was, q) == was.dirs[q];
      if q == oldPair {
        assert View(now, q)[k] == View(was, q)[if k < oldId then k else k + 1];
      } else if q == newPair && k != newId {
        assert View(now, q)[k] == View(was, q)[if prev || k < newId then k else k - 1];
      }
    }
  }

  // ---- the operations ----

  /** A disk on which the pending move, if any, names an entry. */
  predicate Consistent(d: Disk) {
    d.move.Move? ==> d.move.pair in d.dirs && 0 <= d.move.id < |d.dirs[d.move.pair]|
  }

  /** The disk after the pending move is finished. */
  function Demoved(d: Disk): Disk
    requires Consistent(d)
  {
    if d.move.Move? then Disk(d.dirs[d.move.pair := RemoveAt(d.dirs[d.move.pair], d.move.id)], NoMove) else d
  }

  /** Finishing a move does not change what is seen of any pair. */
  lemma DemovedSame(d: Disk, p: int)
    requires Consistent(d) && p in d.dirs
    ensures p in Demoved(d).dirs && View(Demoved(d), p) == View(d, p)
    ensures Demoved(d).dirs.Keys == d.dirs.Keys && Demoved(d).move == NoMove
  {
  }

  lemma RemoveRecord(entries: seq<Entry>, id: int)
    requires 0 <= id < |entries|
    ensures CanApply(entries, [DeleteRecord(id)]) && ApplyAll(entries, [DeleteRecord(id)]) == RemoveAt(entries, id)
  {
    ApplySplices(entries, id);
  }

  class Fs {
    var disk: Disk
    /** The pending move in memory, which the next commit writes along with its attributes. */
    var gmove: Move
    const nameMax: nat

    method Commit(p: int, attrs: seq<Record>)
      requires p in disk.dirs && CanApply(disk.dirs[p], attrs)
      modifies `disk
      ensures disk == Disk(old(disk).dirs[p := ApplyAll(old(disk).dirs[p], attrs)], gmove)
    {
      disk := Disk(disk.dirs[p := ApplyAll(disk.dirs[p], attrs)], gmove);
    }

    /** lfs_fs_demove, the move in memory being the one on disk as it is after mounting. */
    method Demove()
      requires Consistent(disk) && gmove == disk.move
      modifies this
      ensures disk == Demoved(old(disk)) && gmove == NoMove
    {
      hide ApplyAll, CanApply, RemoveAt;
      if disk.move == NoMove {
        return;
      }
      var p, id := disk.move.pair, disk.move.id;
      gmove := NoMove;
      RemoveRecord(disk.dirs[p], id);
      Commit(p, [DeleteRecord(id)]);
    }

    /** lfs_rawrename after both paths were looked up: the old entry, and the place of the new one with
        the type of the entry already there, and whether that is an empty directory. The trace lists the
        disk after every commit. */
    method Rename(oldPair: int, oldId: int, ty: bv16, newPair: int, newId: int, prev: Option<bv16>, empty: bool,
                  name: seq<bv8>) returns (err: int, ghost trace: seq<Disk>)
      requires disk.move == NoMove == gmove
      requires oldPair in disk.dirs && newPair in disk.dirs
      requires 0 <= oldId < |disk.dirs[oldPair]| && 0 <= newId <= |disk.dirs[newPair]|
      requires prev.Some? ==> newId < |disk.dirs[newPair]|
      requires |disk.dirs[newPair]| + 1 < NO_ID && ty & NAME_MASK == 0
      modifies this
      ensures err ==
        if prev == None then (if |name| > nameMax then NAMETOOLONG else 0)
        else if prev.value != ty then ISDIR
        else if (oldPair != newPair || oldId != newId) && ty == TYPE_DIR && !empty then NOTEMPTY
        else 0
      ensures err != 0 || (prev.Some? && oldPair == newPair && oldId == newId) ==>
        disk == old(disk) && gmove == NoMove && trace == []
      ensures
        var e := [Attr(ty, |name|, name)] + MovedAttrs(old(disk).dirs[oldPair][oldId]);
        err == 0 && oldPair != newPair ==>
          && |trace| == 2 && disk == trace[1] && gmove == NoMove == disk.move
          && Consistent(trace[0]) && trace[1] == Demoved(trace[0])
          && Renamed(old(disk), trace[0], oldPair, oldId, newPair, newId, prev.Some?, e)
          && Renamed(old(disk), trace[1], oldPair, oldId, newPair, newId, prev.Some?, e)
      ensures
        var e := [Attr(ty, |name|, name)] + MovedAttrs(old(disk).dirs[oldPair][oldId]);
        var leaving := if prev == None && newId <= oldId then oldId + 1 else oldId;
        err == 0 && oldPair == newPair && !(prev.Some? && oldId == newId) ==>
          && trace == [disk] && gmove == NoMove
          && disk == Disk(
               old(disk).dirs[newPair := RemoveAt(Put(old(disk).dirs[newPair], newId, prev.Some?, e), leaving)],
                          NoMove)
    {
      hide ApplyAll, CanApply, RemoveAt, Put, NewEntry, MovedAttrs, Renamed;
      trace := [];
      var samePair, leaving := oldPair == newPair, oldId;
      if prev == None {
        if |name| > nameMax {
          return NAMETOOLONG, trace;
        }
        if samePair && newId <= leaving {
          leaving := leaving + 1;
        }
      } else if prev.value != ty {
        return ISDIR, trace;
      } else if samePair && newId == leaving {
        return 0, trace;
      } else if prev.value == TYPE_DIR && !empty {
        return NOTEMPTY, trace;
      }
      if !samePair {
        gmove := Move(oldPair, leaving);
      }
      var attr := Attr(ty, |name|, name);
      var moved := disk.dirs[oldPair][oldId];
      ApplyNewEntry(disk.dirs[newPair], newId, prev.Some?, attr, moved);
      ghost var was := disk;
      ghost var put := Put(disk.dirs[newPair], newId, prev.Some?, [attr] + MovedAttrs(moved));
      var attrs := NewEntry(newId, prev.Some?, attr, moved);
      if samePair {
        RemoveRecord(put, leaving);
        ApplyConcat(disk.dirs[newPair], attrs, [DeleteRecord(leaving)]);
        Commit(newPair, attrs + [DeleteRecord(leaving)]);
        return 0, [disk];
      }
      Commit(newPair, attrs);
      trace := [disk];
      if gmove.Move? {
        gmove := NoMove;
        RemoveRecord(disk.dirs[oldPair], oldId);
        Commit(oldPair, [DeleteRecord(oldId)]);
        trace := trace + [disk];
      }
      BothRenamed(was, oldPair, oldId, newPair, newId, prev.Some?, [attr] + MovedAttrs(moved));
      err := 0;
    }
  }

  /** The disk between the two commits and after them. */
  lemma BothRenamed(was: Disk, oldPair: int, oldId: int, newPair: int, newId: int, prev: bool, e: Entry)
    requires oldPair in was.dirs && newPair in was.dirs && oldPair != newPair && was.move == NoMove
    requires 0 <= oldId < |was.dirs[oldPair]| && 0 <= newId <= |was.dirs[newPair]|
    requires prev ==> newId < |was.dirs[newPair]|
    ensures
      var one := Disk(was.dirs[newPair := Put(was.dirs[newPair], newId, prev, e)], Move(oldPair, oldId));
      var two := Disk(one.dirs[oldPair := RemoveAt(one.dirs[oldPair], oldId)], NoMove);
      && Consistent(one) && Demoved(one) == two
      && Renamed(was, one, oldPair, oldId, newPair, newId, prev, e)
      && Renamed(was, two, oldPair, oldId, newPair, newId, prev, e)
  {
    hide RemoveAt, Put;
  }
}
