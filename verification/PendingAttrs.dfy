/** What commits and compactions write for the pending attributes, and what these stand for: a move stands
    for all structs and user attributes of the entry it takes from another directory. */
module PendingAttrs {
  import opened LfsBase
  import opened TagLog
  import opened Compaction
  import opened Traversal
  import R = Rename

  // ---- what a move writes ----

  /** The structs and user attributes among the records of entry from, for an entry with another id. */
  function MovedOut(kept: seq<Record>, from: int, to: int): seq<Record> {
    if kept == [] then []
    else
      var e := kept[|kept| - 1];
      MovedOut(kept[..|kept| - 1], from, to)
      + if e.tag.id == from && R.Moves(e.tag.ty) then [Record(e.tag.(id := to), e.data)] else []
  }

  lemma MovedOutLast(kept: seq<Record>, from: int, to: int)
    requires kept != []
    ensures
      var e, before := kept[|kept| - 1], MovedOut(kept[..|kept| - 1], from, to);
      MovedOut(kept, from, to) ==
        if e.tag.id == from && R.Moves(e.tag.ty) then before + [Record(e.tag.(id := to), e.data)] else before
  {
    hide R.Moves;
    var before := MovedOut(kept[..|kept| - 1], from, to);
    assert before + [] == before;
  }

  lemma MovedOutSnoc(kept: seq<Record>, e: Record, from: int, to: int)
    ensures MovedOut(kept + [e], from, to) == MovedOut(kept, from, to) + MovedOut([e], from, to)
  {
    hide R.Moves;
    assert (kept + [e])[..|kept|] == kept;
    MovedOutOne(e, from, to);
  }

  lemma {:induction false} MovedOutConcat(a: seq<Record>, b: seq<Record>, from: int, to: int)
    ensures MovedOut(a + b, from, to) == MovedOut(a, from, to) + MovedOut(b, from, to)
    decreases |b|
  {
    hide R.Moves;
    if b == [] {
      assert a + b == a;
    } else {
      hide MovedOut;
      var e, before := b[|b| - 1], b[..|b| - 1];
      MovedOutConcat(a, before, from, to);
      assert b == before + [e] && a + b == a + before + [e];
      MovedOutSnoc(a + before, e, from, to);
      MovedOutSnoc(before, e, from, to);
      var x, y, z := MovedOut(a, from, to), MovedOut(before, from, to), MovedOut([e], from, to);
      assert (x + y) + z == x + (y + z);
    }
  }

  lemma MovedOutOne(e: Record, from: int, to: int)
    ensures MovedOut([], from, to) == []
    ensures MovedOut([e], from, to)
         == if e.tag.id == from && R.Moves(e.tag.ty) then [Record(e.tag.(id := to), e.data)] else []
  {
    hide R.Moves;
    assert [e][..0] == [];
  }

  /** Scanning an item for later tags does to it what those tags do to its record. */
  lemma {:induction false} SiftedThrough(item: Item, later: seq<Record>)
    requires item.tag.ty != FROM_NOOP
    ensures
      var through, s := Through(Record(item.tag, DataOf(item)), later), Sifted(item, later);
      && s.buffer == item.buffer
      && (s.tag.ty == FROM_NOOP <==> through == [])
      && (through != [] ==> through == [Record(s.tag, DataOf(item))] && s.tag == item.tag.(id := s.tag.id))
    decreases |later|
  {
    hide Filter;
    if later != [] {
      match Filter(later[0].tag, item.tag)
      case None =>
      case Some(t) =>
        SplicedTag(later[0].tag, item.tag);
        SiftedThrough(item.(tag := t), later[1..]);
    }
  }

  lemma {:induction false} LaterOnDisk(log: seq<Record>, p: nat)
    requires OnDisk(log) && p <= |log|
    ensures Later(FromDisk(log)[p..]) == log[p..]
    decreases |log| - p
  {
    hide IsRecord;
    if p < |log| {
      LaterNext(FromDisk(log), p);
      LaterOnDisk(log, p + 1);
      assert log[p..] == [log[p]] + log[p + 1..];
    } else {
      assert FromDisk(log)[p..] == [];
    }
  }

  lemma CollectedNext(log: seq<Record>, p: nat)
    requires p < |log|
    ensures Collected(log, p + 1)
         == Collected(log, p) + if Kept(log[p].tag) then Through(log[p], log[p + 1..]) else []
  {
    hide Kept, Through;
  }

  lemma MovesKept(t: Tag)
    ensures R.Moves(t.ty) ==> Kept(t)
    ensures R.Moves(t.ty) <==> Agree(0x600, t.ty, R.STRUCT)
    ensures Kept(t) <==> Agree(0x400, t.ty, 0)
  {
  }

  /** One record of the directory an entry is moved from. */
  lemma MovedStep(log: seq<Record>, p: nat, l: Level)
    requires p < |log| && OnDisk(log) && l.items == FromDisk(log) && l.tmask == 0x600 && l.ttag == R.STRUCT && l.ids
    requires l.end == l.begin + 1
    ensures
      MovedOut(Collected(log, p + 1), l.begin, l.begin + l.diff) ==
        MovedOut(Collected(log, p), l.begin, l.begin + l.diff)
        + if Selected(l, log[p].tag) then Finish(Sifted(l.items[p], log[p + 1..]), l, 0) else []
  {
    hide Kept, Through, MovedOut, Collected, Sifted, R.Moves, Agree;
    var item := l.items[p];
    assert IsRecord(log[p].tag);
    CollectedNext(log, p);
    MovesKept(log[p].tag);
    var through := Through(log[p], log[p + 1..]);
    if Kept(log[p].tag) {
      MovedOutConcat(Collected(log, p), through, l.begin, l.begin + l.diff);
      SiftedThrough(item, log[p + 1..]);
      MovedOutOne(if through == [] then log[p] else through[0], l.begin, l.begin + l.diff);
    } else {
      assert Collected(log, p) + [] == Collected(log, p);
    }
  }

  lemma {:induction false} EmitsMoved(log: seq<Record>, l: Level)
    requires l.pos <= |log| && OnDisk(log) && l.items == FromDisk(log)
    requires l.tmask == 0x600 && l.ttag == R.STRUCT && l.ids && l.end == l.begin + 1
    ensures MovedOut(Collected(log, l.pos), l.begin, l.begin + l.diff) + Emits(l, 0)
         == MovedOut(Survivors(log), l.begin, l.begin + l.diff)
    decreases |log| - l.pos
  {
    hide MovedOut, Collected, Survivors, Sifted, Finish, Selected, Emits;
    if l.pos < |log| {
      EmitsMoved(log, Next(l));
      MovedStep(log, l.pos, l);
      LaterOnDisk(log, l.pos + 1);
      EmitsNext(l, 0);
      assert l.items[l.pos].tag == log[l.pos].tag;
      var now := if Selected(l, log[l.pos].tag) then Finish(Sifted(l.items[l.pos], log[l.pos + 1..]), l, 0) else [];
      Associate(MovedOut(Collected(log, l.pos), l.begin, l.begin + l.diff), now, Emits(Next(l), 0));
    } else {
      CollectedSurvivors(log);
      AtEnd(l, 0);
    }
  }

  /** Entering a move writes the surviving structs and user attributes of the entry, under its new id. */
  lemma MoveWrites(move: Item, diff: int)
    requires move.tag.ty == FROM_MOVE && ItemOk(move)
    ensures Emits(Moving(move, diff), 0)
         == MovedOut(Survivors(move.buffer.log), move.tag.size, move.tag.id + diff)
  {
    hide MovedOut, Survivors, Emits;
    var l := Moving(move, diff);
    EmitsMoved(move.buffer.log, l);
    CollectedStart(move.buffer.log);
    MovedOutOne(Record(NOOP, []), l.begin, l.begin + l.diff);
    assert [] + Emits(l, 0) == Emits(l, 0);
  }

  lemma CollectedStart(log: seq<Record>)
    ensures Collected(log, 0) == []
  {
  }

  // ---- what a commit appends ----

  /** What an item comes to, without tags that follow. */
  function WrittenItem(item: Item): seq<Record> {
    if item.tag.ty == FROM_NOOP then []
    else if item.tag.ty == FROM_MOVE then
      if item.buffer.Dir? then MovedOut(Survivors(item.buffer.log), item.tag.size, item.tag.id) else []
    else [Record(item.tag, DataOf(item))]
  }

  /** The log that a directory and its pending attributes come to, the newest of them last. */
  function Written(items: seq<Item>): seq<Record> {
    if items == [] then [] else Written(items[..|items| - 1]) + WrittenItem(items[|items| - 1])
  }

  lemma WrittenNext(items: seq<Item>, n: nat)
    requires n < |items|
    ensures Written(items[..n + 1]) == Written(items[..n]) + WrittenItem(items[n])
  {
    hide WrittenItem;
    assert items[..n + 1][..n] == items[..n];
  }

  lemma FinishAppended(item: Item, l: Level)
    requires ItemOk(item) && !l.ids && l.diff == 0
    ensures Finish(item, l, 1) == WrittenItem(item)
  {
    hide MovedOut, Survivors, Emits, OnDisk;
    if item.tag.ty == FROM_MOVE {
      MoveWrites(item, 0);
    }
  }

  lemma {:induction false} AppendedFrom(l: Level)
    requires ItemsOk(l.items) && l.pos <= |l.items| && l.tmask == 0 && !l.ids && l.diff == 0
    ensures Written(l.items[..l.pos]) + Emits(l, 1) == Written(l.items)
    decreases |l.items| - l.pos
  {
    hide WrittenItem, Written, Finish, Emits, Sifted, Later;
    if l.pos < |l.items| {
      AppendedFrom(Next(l));
      EmitsNext(l, 1);
      WrittenNext(l.items, l.pos);
      FinishAppended(l.items[l.pos], l);
      Associate(Written(l.items[..l.pos]), WrittenItem(l.items[l.pos]), Emits(Next(l), 1));
    } else {
      AtEnd(l, 1);
      assert l.items[..l.pos] == l.items;
    }
  }

  /** A commit appends what its attributes come to. */
  lemma AppendWrites(attrs: seq<Item>)
    requires ItemsOk(attrs)
    ensures Emits(Appending(attrs), 1) == Written(attrs)
  {
    hide Written, Emits;
    AppendedFrom(Appending(attrs));
    assert attrs[..0] == [];
    assert Written([]) == [] by { WrittenNothing(); }
  }

  lemma WrittenNothing()
    ensures Written([]) == []
  {
  }

  lemma WrittenOne(items: seq<Item>, x: Item)
    ensures Written(items + [x]) == Written(items) + WrittenItem(x)
  {
    hide WrittenItem;
    assert (items + [x])[..|items|] == items;
  }

  lemma {:induction false} WrittenConcat(a: seq<Item>, b: seq<Item>)
    ensures Written(a + b) == Written(a) + Written(b)
    decreases |b|
  {
    hide WrittenItem;
    if b == [] {
      assert a + b == a;
    } else {
      var last, before := b[|b| - 1], b[..|b| - 1];
      hide Written;
      WrittenConcat(a, before);
      assert b == before + [last] && a + b == a + before + [last];
      WrittenOne(a + before, last);
      WrittenOne(before, last);
      var x, y, z := Written(a), Written(before), WrittenItem(last);
      assert (x + y) + z == x + (y + z);
    }
  }

  lemma {:induction false} WrittenDisk(log: seq<Record>)
    requires OnDisk(log)
    ensures Written(FromDisk(log)) == log
  {
    hide IsRecord;
    if log != [] {
      var older := log[..|log| - 1];
      WrittenDisk(older);
      assert FromDisk(log)[..|log| - 1] == FromDisk(older);
      assert IsRecord(log[|log| - 1].tag);
      OneRecord(log[|log| - 1]);
    }
  }

  lemma OneRecord(e: Record)
    requires IsRecord(e.tag)
    ensures WrittenItem(Item(e.tag, Bytes(e.data))) == [e]
  {
  }

  // ---- what a compaction writes ----

  /** No record is marked as removed, and entry id has no struct or user attribute: what is moved there
      neither makes anything redundant nor is mixed with anything. */
  predicate Fresh(kept: seq<Record>, id: int) {
    forall k | 0 <= k < |kept| :: !IsDelete(kept[k].tag) && !(kept[k].tag.id == id && R.Moves(kept[k].tag.ty))
  }

  /** A directory whose newest record does not mark an attribute as removed. On disk that is the crc of the
      last commit. */
  predicate Closed(log: seq<Record>) {
    RegularSplices(log) && (log == [] || !Kept(log[|log| - 1].tag) || !IsDelete(log[|log| - 1].tag))
  }

  /** The conditions on one more attribute behind others. */
  predicate ReadyItem(items: seq<Item>, x: Item) {
    && ItemOk(x)
    && (IsRecord(x.tag) ==> RegularSplice(x.tag) && (Kept(x.tag) ==> NoMoves(items)))
    && (x.tag.ty == FROM_MOVE ==>
          Closed(x.buffer.log) && x.tag.size != REMOVED && Fresh(Survivors(Written(items)), x.tag.id))
  }

  /** Attributes a directory can be compacted with: entries are moved to new ones, and only the removal of
      entries comes behind a move. */
  predicate Ready(items: seq<Item>) {
    items == [] || (Ready(items[..|items| - 1]) && ReadyItem(items[..|items| - 1], items[|items| - 1]))
  }

  /** What an item gives after the tags that follow it. */
  function Given(item: Item, later: seq<Record>): seq<Record> {
    if item.tag.ty == FROM_NOOP then [] else WrittenItem(Sifted(item, later))
  }

  /** What the traversal has to hand out for the first n items. */
  function Handed(items: seq<Item>, n: nat): seq<Record>
    requires n <= |items|
  {
    if n == 0 then []
    else Handed(items, n - 1) + if Kept(items[n - 1].tag) then Given(items[n - 1], Later(items[n..])) else []
  }

  /** One more tag at the end of those that follow. */
  lemma {:induction false} SiftedLast(item: Item, later: seq<Record>, x: Record)
    requires item.tag.ty != FROM_NOOP
    ensures
      var s := Sifted(item, later);
      Sifted(item, later + [x]) ==
        if s.tag.ty == FROM_NOOP then s
        else match Filter(x.tag, s.tag) case None => s.(tag := NOOP) case Some(t) => s.(tag := t)
    decreases |later|
  {
    hide Filter;
    if later == [] {
      assert (later + [x])[1..] == [];
    } else {
      assert (later + [x])[1..] == later[1..] + [x] && (later + [x])[0] == later[0];
      match Filter(later[0].tag, item.tag)
      case None =>
      case Some(t) =>
        FilterKeepsType(later[0].tag, item.tag);
        SiftedLast(item.(tag := t), later[1..], x);
    }
  }

  predicate NoneRemoved(kept: seq<Record>) {
    forall k | 0 <= k < |kept| :: !IsDelete(kept[k].tag)
  }

  /** Behind a crc no record that is marked as removed survives. */
  lemma ClosedSurvivors(log: seq<Record>)
    requires Closed(log)
    ensures AllKept(Survivors(log)) && NonRedundant(Survivors(log)) && NoneRemoved(Survivors(log))
  {
    hide Kept, FilterAll, Supersedes, RegularSplice;
    SurvivorsNonRedundant(log);
    if log != [] {
      var e, before := log[|log| - 1], Survivors(log[..|log| - 1]);
      FilteredNotRemoved(e.tag, before);
      assert Survivors(log) == FilterAll(e.tag, before) + if Kept(e.tag) then [e] else [];
    }
  }

  lemma FilteredNotRemoved(t: Tag, kept: seq<Record>)
    ensures NoneRemoved(FilterAll(t, kept))
  {
    hide FilterAll, Filter, IsDelete;
    forall j | 0 <= j < |FilterAll(t, kept)|
      ensures !IsDelete(FilterAll(t, kept)[j].tag)
    {
      var i := FilterAllOrigin(t, kept, j);
      SplicedTag(t, kept[i].tag);
      SameRemoved(kept[i].tag, FilterAll(t, kept)[j].tag);
    }
  }

  lemma SameRemoved(f: Tag, e: Tag)
    requires f.size == e.size
    ensures IsDelete(f) == IsDelete(e)
  {
  }

  lemma {:induction false} MovedOutOrigin(kept: seq<Record>, from: int, to: int, j: nat) returns (i: nat)
    requires j < |MovedOut(kept, from, to)|
    ensures i < |kept| && kept[i].tag.id == from && R.Moves(kept[i].tag.ty)
    ensures MovedOut(kept, from, to)[j] == Record(kept[i].tag.(id := to), kept[i].data)
    decreases |kept|
  {
    hide R.Moves;
    if j < |MovedOut(kept[..|kept| - 1], from, to)| {
      i := MovedOutOrigin(kept[..|kept| - 1], from, to, j);
    } else {
      i := |kept| - 1;
    }
  }

  /** A later tag does to all that is moved what it does to the move, unless it belongs to an entry. */
  lemma {:induction false} MovedFiltered(kept: seq<Record>, from: int, to: int, t: Tag)
    requires NoneRemoved(kept) && !Kept(t) && from != REMOVED
    ensures FilterAll(t, MovedOut(kept, from, to)) ==
      match Filter(t, Tag(FROM_MOVE, to, from)) case None => [] case Some(m) => MovedOut(kept, from, m.id)
    decreases |kept|
  {
    hide Kept, Filter, R.Moves;
    if kept == [] {
      FilterAllNothing(t);
    } else {
      var e, older := kept[|kept| - 1], kept[..|kept| - 1];
      MovedFiltered(older, from, to, t);
      MovedOutLast(kept, from, to);
      if e.tag.id == from && R.Moves(e.tag.ty) {
        var r := Record(e.tag.(id := to), e.data);
        FilterAllConcat(t, MovedOut(older, from, to), [r]);
        FilterOne(t, r);
        MovesKept(r.tag);
        FilteredById(t, r.tag, Tag(FROM_MOVE, to, from));
      }
    }
  }

  lemma FilterOne(t: Tag, r: Record)
    ensures FilterAll(t, [r]) == FilterRecord(t, r)
  {
    hide FilterRecord;
    assert [r][..0] == [];
  }

  /** A tag that belongs to no entry treats all tags of the same id alike. */
  lemma FilteredById(t: Tag, a: Tag, b: Tag)
    requires !Kept(t) && Kept(a) && !IsDelete(a) && !IsDelete(b) && a.id == b.id && b.ty == FROM_MOVE
    ensures Filter(t, a) == None <==> Filter(t, b) == None
    ensures Filter(t, a).Some? ==> Filter(t, a).value == a.(id := Filter(t, b).value.id)
  {
    hide Supersedes, IsSplice;
    KeptFacts(t, a);
    KeptFacts(t, b);
  }

  /** One more tag filters what an item has given so far. */
  lemma GivenMore(item: Item, later: seq<Record>, x: Record)
    requires ItemOk(item)
    requires item.tag.ty == FROM_MOVE ==> Closed(item.buffer.log) && item.tag.size != REMOVED && !Kept(x.tag)
    ensures Given(item, later + [x]) == FilterAll(x.tag, Given(item, later))
  {
    hide Filter, Kept, FilterAll, Survivors, MovedOut, OnDisk, Closed, Through;
    FilterAllNothing(x.tag);
    if item.tag.ty != FROM_NOOP {
      SiftedLast(item, later, x);
      SiftedThrough(item, later);
      var s := Sifted(item, later);
      if s.tag.ty != FROM_NOOP {
        if item.tag.ty == FROM_MOVE {
          ClosedSurvivors(item.buffer.log);
          MovedFiltered(Survivors(item.buffer.log), s.tag.size, s.tag.id, x.tag);
          assert s.tag == Tag(FROM_MOVE, s.tag.id, s.tag.size);
        } else {
          FilterOne(x.tag, Record(s.tag, DataOf(s)));
        }
        if Filter(x.tag, s.tag).Some? {
          SplicedTag(x.tag, s.tag);
        }
      }
    }
  }

  lemma {:induction false} LaterMore(items: seq<Item>, x: Item)
    ensures Later(items + [x]) == Later(items) + if IsRecord(x.tag) then [Record(x.tag, DataOf(x))] else []
  {
    hide IsRecord;
    if items == [] {
      assert (items + [x])[1..] == [];
    } else {
      hide Later;
      var more := items + [x];
      LaterMore(items[1..], x);
      assert more[1..] == items[1..] + [x] && more[0] == items[0];
      LaterFirst(items);
      LaterFirst(more);
    }
  }

  lemma LaterFirst(items: seq<Item>)
    requires items != []
    ensures Later(items)
         == (if IsRecord(items[0].tag) then [Record(items[0].tag, DataOf(items[0]))] else []) + Later(items[1..])
  {
  }

  lemma HandedNext(items: seq<Item>, n: nat)
    requires 0 < n <= |items|
    ensures Handed(items, n)
         == Handed(items, n - 1) + if Kept(items[n - 1].tag) then Given(items[n - 1], Later(items[n..])) else []
  {
    hide Kept, Given, Later;
  }

  /** The sources of moves, wherever they are among the items. */
  predicate Sources(items: seq<Item>) {
    forall k | 0 <= k < |items| ::
      ItemOk(items[k]) && (items[k].tag.ty == FROM_MOVE ==> Closed(items[k].buffer.log) && items[k].tag.size != REMOVED)
  }

  /** One more item filters what was handed out, when it is a tag. */
  lemma {:induction false} HandedMore(items: seq<Item>, x: Item, n: nat)
    requires n <= |items| && Sources(items) && (IsRecord(x.tag) && Kept(x.tag) ==> NoMoves(items))
    ensures Handed(items + [x], n) == if IsRecord(x.tag) then FilterAll(x.tag, Handed(items, n)) else Handed(items, n)
    decreases n
  {
    hide Kept, Given, Later, FilterAll, Handed, IsRecord, ItemOk, Closed;
    if n > 0 {
      HandedMore(items, x, n - 1);
      HandedNext(items, n);
      HandedNext(items + [x], n);
      var item := items[n - 1];
      assert (items + [x])[n..] == items[n..] + [x] && (items + [x])[n - 1] == item;
      LaterMore(items[n..], x);
      if IsRecord(x.tag) {
        HandedFilter(items, x, n);
      } else {
        assert Later(items[n..]) + [] == Later(items[n..]);
      }
    } else {
      HandedNone(items);
      HandedNone(items + [x]);
      FilterAllNothing(x.tag);
    }
  }

  lemma HandedNone(items: seq<Item>)
    ensures Handed(items, 0) == []
  {
  }

  lemma HandedFilter(items: seq<Item>, x: Item, n: nat)
    requires 0 < n <= |items| && Sources(items) && IsRecord(x.tag) && (Kept(x.tag) ==> NoMoves(items))
    ensures FilterAll(x.tag, Handed(items, n)) == FilterAll(x.tag, Handed(items, n - 1))
      + if Kept(items[n - 1].tag) then Given(items[n - 1], Later(items[n..]) + [Record(x.tag, DataOf(x))]) else []
  {
    hide Kept, Given, Later, FilterAll, Handed, IsRecord, ItemOk, Closed;
    var item := items[n - 1];
    HandedNext(items, n);
    if Kept(item.tag) {
      GivenMore(item, Later(items[n..]), Record(x.tag, DataOf(x)));
      FilterAllConcat(x.tag, Handed(items, n - 1), Given(item, Later(items[n..])));
    } else {
      assert Handed(items, n - 1) + [] == Handed(items, n - 1);
      assert FilterAll(x.tag, Handed(items, n - 1)) + [] == FilterAll(x.tag, Handed(items, n - 1));
    }
  }

  /** A tag that supersedes nothing and shifts nothing leaves everything as it is. */
  lemma {:induction false} FilterIdle(t: Tag, kept: seq<Record>)
    requires Kept(t) && NoneRemoved(kept) && NoneSuperseded(t, kept)
    ensures FilterAll(t, kept) == kept
    decreases |kept|
  {
    hide Kept, Supersedes;
    KeptFacts(t, t);
    if kept != [] {
      FilterIdle(t, kept[..|kept| - 1]);
    }
  }

  /** What is moved to a new entry is added to the survivors. */
  lemma {:induction false} SurvivorsMoved(log: seq<Record>, kept: seq<Record>, from: int, to: int)
    requires AllKept(kept) && NonRedundant(kept) && NoneRemoved(kept) && Fresh(Survivors(log), to)
    ensures Survivors(log + MovedOut(kept, from, to)) == Survivors(log) + MovedOut(kept, from, to)
    decreases |kept|
  {
    hide Kept, R.Moves, Survivors, Supersedes, FilterAll, Fresh;
    if kept == [] {
      assert log + [] == log && Survivors(log) + [] == Survivors(log);
    } else {
      var e, older := kept[|kept| - 1], kept[..|kept| - 1];
      NonRedundantOlder(kept);
      SurvivorsMoved(log, older, from, to);
      var before := MovedOut(older, from, to);
      MovedOutLast(kept, from, to);
      if e.tag.id == from && R.Moves(e.tag.ty) {
        var r := Record(e.tag.(id := to), e.data);
        assert log + (before + [r]) == (log + before) + [r];
        KeptAlike(e.tag, r.tag);
        MovedIdle(log, kept, from, to, r.tag);
        OneMore(log + before, r);
      }
    }
  }

  lemma MovedIdle(log: seq<Record>, kept: seq<Record>, from: int, to: int, t: Tag)
    requires kept != [] && NonRedundant(kept) && NoneRemoved(kept) && AllKept(kept) && Fresh(Survivors(log), to)
    requires kept[|kept| - 1].tag.id == from && R.Moves(t.ty) && t == kept[|kept| - 1].tag.(id := to)
    ensures
      var all := Survivors(log) + MovedOut(kept[..|kept| - 1], from, to);
      FilterAll(t, all) == all
  {
    hide Kept, R.Moves, Survivors, Supersedes, FilterAll, IsDelete;
    var older := kept[..|kept| - 1];
    var s, before := Survivors(log), MovedOut(older, from, to);
    var all := s + before;
    forall k | 0 <= k < |all|
      ensures !IsDelete(all[k].tag) && !Supersedes(t, all[k].tag)
    {
      if k < |s| {
        assert all[k] == s[k];
        SupersededMoves(t, s[k].tag);
      } else {
        var i := MovedOutOrigin(older, from, to, k - |s|);
        assert kept[i] == older[i];
        SameRemoved(kept[i].tag, all[k].tag);
        assert !Supersedes(kept[|kept| - 1].tag, kept[i].tag);
        SupersedesAlike(kept[|kept| - 1].tag, kept[i].tag, t, all[k].tag);
      }
    }
    MovesKept(t);
    FilterIdle(t, all);
  }

  lemma SupersededMoves(t: Tag, older: Tag)
    requires R.Moves(t.ty)
    ensures Supersedes(t, older) ==> older.id == t.id && R.Moves(older.ty)
  {
  }

  lemma SupersedesAlike(t: Tag, older: Tag, t': Tag, older': Tag)
    requires t.ty == t'.ty && older.ty == older'.ty && t.id == older.id && t'.id == older'.id
    ensures Supersedes(t, older) == Supersedes(t', older')
  {
  }

  lemma {:induction false} ReadySources(items: seq<Item>)
    requires Ready(items)
    ensures Sources(items) && ItemsOk(items) && RegularSplices(Written(items))
  {
    hide ItemOk, Closed, RegularSplice, IsRecord, Kept, Fresh, Survivors, NoMoves, WrittenItem;
    if items != [] {
      var x := items[|items| - 1];
      ReadySources(items[..|items| - 1]);
      WrittenSplices(x);
    }
  }

  lemma WrittenSplices(x: Item)
    requires ItemOk(x) && (IsRecord(x.tag) ==> RegularSplice(x.tag)) && (x.tag.ty == FROM_MOVE ==> Closed(x.buffer.log))
    ensures RegularSplices(WrittenItem(x))
  {
    hide Kept, Survivors, R.Moves, RegularSplice, OnDisk;
    if x.tag.ty == FROM_MOVE {
      var kept := Survivors(x.buffer.log);
      forall j | 0 <= j < |MovedOut(kept, x.tag.size, x.tag.id)|
        ensures RegularSplice(MovedOut(kept, x.tag.size, x.tag.id)[j].tag)
      {
        var i := MovedOutOrigin(kept, x.tag.size, x.tag.id, j);
        var t := MovedOut(kept, x.tag.size, x.tag.id)[j].tag;
        MovesKept(t);
        NoSplice(t);
      }
    }
  }

  lemma NoSplice(t: Tag)
    requires Kept(t)
    ensures RegularSplice(t)
  {
    hide Kept, IsSplice;
    KeptFacts(t, t);
  }

  /** What is handed out for all items is what survives of the log they come to. */
  lemma {:induction false} HandedSurvivors(items: seq<Item>)
    requires Ready(items)
    ensures Handed(items, |items|) == Survivors(Written(items))
  {
    hide ItemOk, Closed, RegularSplice, IsRecord, Kept, Fresh, Survivors, NoMoves, WrittenItem, Given, Later, Handed;
    if items == [] {
      HandedNone(items);
      assert Survivors([]) == [] by { SurvivorsNothing(); }
    } else {
      var x, older := items[|items| - 1], items[..|items| - 1];
      HandedSurvivors(older);
      ReadySources(older);
      assert older + [x] == items;
      HandedMore(older, x, |older|);
      HandedNext(items, |items|);
      LastGiven(Written(older), x);
      assert items[|items|..] == [];
    }
  }

  lemma SurvivorsNothing()
    ensures Survivors([]) == []
  {
  }

  /** The last item, added to the survivors of the log before it. */
  lemma LastGiven(log: seq<Record>, x: Item)
    requires ItemOk(x)
    requires x.tag.ty == FROM_MOVE ==> Closed(x.buffer.log) && Fresh(Survivors(log), x.tag.id)
    ensures Survivors(log + WrittenItem(x)) ==
      (if IsRecord(x.tag) then FilterAll(x.tag, Survivors(log)) else Survivors(log))
      + if Kept(x.tag) then Given(x, Later([])) else []
  {
    hide OnDisk, Closed, FilterAll, Survivors, Fresh, MovedOut, Kept;
    if !IsRecord(x.tag) {
      SpecialKept(x.tag);
    }
    assert Later([]) == [] && Sifted(x, []) == x;
    if x.tag.ty == FROM_MOVE {
      ClosedSurvivors(x.buffer.log);
      SurvivorsMoved(log, Survivors(x.buffer.log), x.tag.size, x.tag.id);
    } else if x.tag.ty == FROM_NOOP {
      assert log + [] == log && Survivors(log) + [] == Survivors(log);
    } else {
      OneMore(log, Record(x.tag, DataOf(x)));
    }
  }

  lemma SpecialKept(t: Tag)
    requires t.ty == FROM_MOVE || t.ty == FROM_NOOP
    ensures Kept(t)
  {
  }

  lemma OneMore(log: seq<Record>, r: Record)
    ensures Survivors(log + [r]) == FilterAll(r.tag, Survivors(log)) + if Kept(r.tag) then [r] else []
  {
    hide Kept, FilterAll;
    assert (log + [r])[..|log|] == log;
  }

  lemma {:induction false} SelectMoved(kept: seq<Record>, from: int, to: int, begin: int, end: int)
    ensures Select(MovedOut(kept, from, to), begin, end)
         == if begin <= to < end then MovedOut(kept, from, to - begin) else []
    decreases |kept|
  {
    hide R.Moves, Select, MovedOut;
    SelectOne(Record(NOOP, []), begin, end);
    if kept == [] {
      MovedOutOne(Record(NOOP, []), from, to);
      MovedOutOne(Record(NOOP, []), from, to - begin);
    } else {
      var e, older := kept[|kept| - 1], kept[..|kept| - 1];
      SelectMoved(older, from, to, begin, end);
      MovedOutLast(kept, from, to);
      MovedOutLast(kept, from, to - begin);
      if e.tag.id == from && R.Moves(e.tag.ty) {
        var r := Record(e.tag.(id := to), e.data);
        SelectConcat(MovedOut(older, from, to), [r], begin, end);
        SelectOne(r, begin, end);
      }
    }
  }

  lemma SelectOne(e: Record, begin: int, end: int)
    ensures Select([], begin, end) == []
    ensures Select([e], begin, end)
         == if begin <= e.tag.id < end then [Record(e.tag.(id := e.tag.id - begin), e.data)] else []
  {
    assert [e][..0] == [];
  }

  /** What an item gives at a level that compacts is what it gives, cut to the range. */
  lemma FinishGiven(item: Item, later: seq<Record>, l: Level)
    requires ItemOk(item) && l.ids && l.diff == -l.begin
    ensures Finish(Sifted(item, later), l, 1) == Select(Given(item, later), l.begin, l.end)
  {
    hide OnDisk, Survivors, MovedOut, Select, Emits, Through;
    var s := Sifted(item, later);
    SelectOne(Record(s.tag, DataOf(s)), l.begin, l.end);
    if item.tag.ty == FROM_NOOP {
      SiftedNoop(item, later);
    } else {
      SiftedThrough(item, later);
      if s.tag.ty == FROM_MOVE {
        MoveWrites(s, l.diff);
        SelectMoved(Survivors(s.buffer.log), s.tag.size, s.tag.id, l.begin, l.end);
      }
    }
  }

  lemma {:induction false} SiftedNoop(item: Item, later: seq<Record>)
    requires item.tag.ty == FROM_NOOP
    ensures Sifted(item, later).tag.ty == FROM_NOOP
    decreases |later|
  {
    hide Filter;
    if later != [] && Filter(later[0].tag, item.tag).Some? {
      FilterKeepsType(later[0].tag, item.tag);
      SiftedNoop(item.(tag := Filter(later[0].tag, item.tag).value), later[1..]);
    }
  }

  lemma {:induction false} CompactedFrom(l: Level)
    requires ItemsOk(l.items) && l.pos <= |l.items| && l.tmask == 0x400 && l.ttag == 0 && l.ids && l.diff == -l.begin
    ensures Select(Handed(l.items, l.pos), l.begin, l.end) + Emits(l, 1)
         == Select(Handed(l.items, |l.items|), l.begin, l.end)
    decreases |l.items| - l.pos
  {
    hide Handed, Select, Finish, Emits, Sifted, Later, Given, Kept, Agree, ItemOk;
    if l.pos < |l.items| {
      CompactedFrom(Next(l));
      EmitsNext(l, 1);
      HandedNext(l.items, l.pos + 1);
      var item := l.items[l.pos];
      MovesKept(item.tag);
      var later := Later(l.items[l.pos + 1..]);
      FinishGiven(item, later, l);
      var now := if Kept(item.tag) then Given(item, later) else [];
      SelectConcat(Handed(l.items, l.pos), now, l.begin, l.end);
      SelectOne(Record(NOOP, []), l.begin, l.end);
      Associate(Select(Handed(l.items, l.pos), l.begin, l.end), Select(now, l.begin, l.end), Emits(Next(l), 1));
    } else {
      AtEnd(l, 1);
      assert Select(Handed(l.items, l.pos), l.begin, l.end) + [] == Select(Handed(l.items, l.pos), l.begin, l.end);
    }
  }

  /** A compaction writes the compacted form of the log that the items come to. */
  lemma CompactionWrites(items: seq<Item>, begin: int, end: int)
    requires Ready(items)
    ensures ItemsOk(items) && Emits(Compacting(items, begin, end), 1) == Compact(Written(items), begin, end)
  {
    hide Handed, Select, Emits, Written, Ready, Survivors, ItemOk;
    ReadySources(items);
    var l := Compacting(items, begin, end);
    CompactedFrom(l);
    HandedSurvivors(items);
    HandedNone(items);
    SelectOne(Record(NOOP, []), begin, end);
    assert [] + Emits(l, 1) == Emits(l, 1);
  }

  // ---- what the attributes mean ----

  /** A move names an entry of the directory it takes it from. */
  predicate FromEntry(item: Item) {
    item.tag.ty != FROM_MOVE
    || (item.buffer.Dir? && WellFormed(item.buffer.log, item.buffer.base)
        && 0 <= item.tag.size < Count(item.buffer.log, item.buffer.base))
  }

  predicate FromEntries(items: seq<Item>) {
    forall k | 0 <= k < |items| :: FromEntry(items[k])
  }

  /** What an item stands for: a move brings all structs and user attributes of the old entry. */
  function MeantItem(item: Item): seq<Record>
    requires FromEntry(item)
  {
    if item.tag.ty == FROM_NOOP then []
    else if item.tag.ty == FROM_MOVE then
      R.MovedRecords(Replay(item.buffer.log, item.buffer.base)[item.tag.size], item.tag.id)
    else [Record(item.tag, DataOf(item))]
  }

  function Meant(items: seq<Item>): seq<Record>
    requires FromEntries(items)
  {
    if items == [] then [] else Meant(items[..|items| - 1]) + MeantItem(items[|items| - 1])
  }

  lemma LookupMore(log: seq<Record>, e: Record, mask: bv16, ty: bv16, id: int)
    ensures Kept(e.tag) ==> Unspliced(e.tag, id) == id && e.tag.ty != CREATE
    ensures Lookup(log + [e], mask, ty, id) ==
      if e.tag == Tag(CREATE, id, 0) then None
      else if Matches(e.tag, mask, ty, Unspliced(e.tag, id)) then (if IsDelete(e.tag) then None else Some(AttrOf(e)))
      else Lookup(log, mask, ty, Unspliced(e.tag, id))
  {
    hide Agree, Kept, IsSplice, Lookup;
    LookupSnoc(log, e, mask, ty, id);
    KeptFacts(e.tag, e.tag);
  }

  lemma QueryFacts(t: bv16, mask: bv16, ty: bv16)
    requires Granular(mask, ty)
    ensures Agree(mask, t, ty) ==> (R.Moves(t) <==> R.Moves(ty))
    ensures EntryQuery(mask, ty)
  {
  }

  /** The records a move writes answer what the survivors of the old entry answer, and nothing else. */
  lemma {:induction false} MovedOutLookup(log: seq<Record>, kept: seq<Record>, from: int, to: int, mask: bv16, ty: bv16,
                                          id: int)
    requires AllKept(kept) && NoneRemoved(kept) && Granular(mask, ty)
    requires id == to && R.Moves(ty) ==> Lookup(log, mask, ty, id) == None
    ensures Lookup(log + MovedOut(kept, from, to), mask, ty, id)
         == if id == to && R.Moves(ty) then Lookup(kept, mask, ty, from) else Lookup(log, mask, ty, id)
    decreases |kept|
  {
    hide Kept, R.Moves, Lookup, Granular, Agree;
    if kept == [] {
      LookupNothing(mask, ty, from);
      assert log + [] == log;
    } else {
      var e, older := kept[|kept| - 1], kept[..|kept| - 1];
      LookupKept(kept, mask, ty, from);
      MovedOutLookup(log, older, from, to, mask, ty, id);
      MovedOutLast(kept, from, to);
      QueryFacts(e.tag.ty, mask, ty);
      if e.tag.id == from && R.Moves(e.tag.ty) {
        var r := Record(e.tag.(id := to), e.data);
        KeptAlike(e.tag, r.tag);
        assert log + (MovedOut(older, from, to) + [r]) == (log + MovedOut(older, from, to)) + [r];
        LookupMore(log + MovedOut(older, from, to), r, mask, ty, id);
      }
    }
  }

  /** The attributes of the old entry answer what the entry answers, and nothing else. */
  lemma {:induction false} MovedRecordsLookup(log: seq<Record>, entry: R.Entry, to: int, mask: bv16, ty: bv16, id: int)
    requires Granular(mask, ty)
    requires id == to && R.Moves(ty) ==> Lookup(log, mask, ty, id) == None
    ensures Lookup(log + R.MovedRecords(entry, to), mask, ty, id)
         == if id == to && R.Moves(ty) then Newest(entry, mask, ty) else Lookup(log, mask, ty, id)
    decreases |entry|
  {
    hide Kept, R.Moves, Lookup, Granular, Agree;
    if entry == [] {
      assert log + R.MovedRecords(entry, to) == log;
    } else {
      var a, older := entry[|entry| - 1], entry[..|entry| - 1];
      MovedRecordsLookup(log, older, to, mask, ty, id);
      QueryFacts(a.ty, mask, ty);
      if R.Moves(a.ty) {
        var r := Record(Tag(a.ty, to, a.size), a.data);
        MovesKept(r.tag);
        assert log + R.MovedRecords(entry, to) == (log + R.MovedRecords(older, to)) + [r];
        LookupMore(log + R.MovedRecords(older, to), r, mask, ty, id);
      } else {
        assert R.MovedRecords(entry, to) == R.MovedRecords(older, to);
      }
    }
  }

  lemma {:induction false} FreshLookup(kept: seq<Record>, mask: bv16, ty: bv16, id: int)
    requires AllKept(kept) && Fresh(kept, id) && Granular(mask, ty) && R.Moves(ty)
    ensures Lookup(kept, mask, ty, id) == None
    decreases |kept|
  {
    hide Kept, R.Moves, Lookup, Granular, Agree, IsDelete;
    if kept == [] {
      LookupNothing(mask, ty, id);
    } else {
      LookupKept(kept, mask, ty, id);
      QueryFacts(kept[|kept| - 1].tag.ty, mask, ty);
      FreshLookup(kept[..|kept| - 1], mask, ty, id);
    }
  }

  /** What is written for the items answers every lookup like what they stand for. */
  lemma {:induction false} WrittenMeant(items: seq<Item>, mask: bv16, ty: bv16, id: int)
    requires Ready(items) && FromEntries(items) && Granular(mask, ty)
    ensures Lookup(Written(items), mask, ty, id) == Lookup(Meant(items), mask, ty, id)
    decreases |items|
  {
    hide Kept, Lookup, Granular, Agree, Fresh, Closed, ItemOk, RegularSplice, NoMoves, WrittenItem, MeantItem,
         FromEntry, Unspliced;
    if items != [] {
      var x, older := items[|items| - 1], items[..|items| - 1];
      assert FromEntry(x);
      if x.tag.ty == FROM_MOVE {
        WrittenMeant(older, mask, ty, id);
        MoveMeant(older, x, mask, ty, id);
      } else if x.tag.ty == FROM_NOOP {
        WrittenMeant(older, mask, ty, id);
        NoopMeant(x);
        assert Written(older) + [] == Written(older) && Meant(older) + [] == Meant(older);
      } else {
        var e := Record(x.tag, DataOf(x));
        RecordMeant(x);
        WrittenMeant(older, mask, ty, Unspliced(e.tag, id));
        LookupMore(Written(older), e, mask, ty, id);
        LookupMore(Meant(older), e, mask, ty, id);
      }
    }
  }

  lemma NoopMeant(x: Item)
    requires x.tag.ty == FROM_NOOP
    ensures FromEntry(x) && WrittenItem(x) == MeantItem(x) == []
  {
  }

  lemma RecordMeant(x: Item)
    requires IsRecord(x.tag)
    ensures FromEntry(x) && WrittenItem(x) == MeantItem(x) == [Record(x.tag, DataOf(x))]
  {
  }

  /** What a move writes answers like all attributes of the old entry. */
  lemma MoveMeant(older: seq<Item>, x: Item, mask: bv16, ty: bv16, id: int)
    requires Ready(older) && FromEntries(older) && FromEntry(x) && ItemOk(x) && x.tag.ty == FROM_MOVE
      && Granular(mask, ty)
    requires Closed(x.buffer.log) && Fresh(Survivors(Written(older)), x.tag.id)
    requires Lookup(Written(older), mask, ty, id) == Lookup(Meant(older), mask, ty, id)
    ensures Lookup(Written(older) + WrittenItem(x), mask, ty, id) == Lookup(Meant(older) + MeantItem(x), mask, ty, id)
  {
    hide Kept, Lookup, Granular, Agree, Fresh, Ready, Written, Meant, Survivors, MovedOut, R.MovedRecords, R.Moves,
         Newest, RegularSplice, OnDisk, WellFormed, EntryQuery;
    var log, base, from := x.buffer.log, x.buffer.base, x.tag.size;
    ReadySources(older);
    if id == x.tag.id && R.Moves(ty) {
      SurvivorsNonRedundant(Written(older));
      FreshLookup(Survivors(Written(older)), mask, ty, id);
      SurvivorsLookup(Written(older), mask, ty, id);
    }
    ClosedSurvivors(log);
    MovedOutLookup(Written(older), Survivors(log), from, x.tag.id, mask, ty, id);
    MovedRecordsLookup(Meant(older), Replay(log, base)[from], x.tag.id, mask, ty, id);
    SurvivorsLookup(log, mask, ty, from);
    QueryFacts(ty, mask, ty);
    LookupReplays(log, base, mask, ty, from);
  }

  /** Compaction with pending attributes answers every lookup like the log with what they stand for. */
  lemma CompactionMeant(items: seq<Item>, begin: int, end: int, mask: bv16, ty: bv16, id: int)
    requires Ready(items) && FromEntries(items) && Granular(mask, ty) && 0 <= id < end - begin
    ensures Lookup(Emits(Compacting(items, begin, end), 1), mask, ty, id) == Lookup(Meant(items), mask, ty, begin + id)
  {
    hide Lookup, Emits, Compact, Written, Meant, Granular, Ready, RegularSplice;
    CompactionWrites(items, begin, end);
    ReadySources(items);
    CompactionPreserves(Written(items), begin, end, mask, ty, id);
    WrittenMeant(items, mask, ty, begin + id);
  }

  /** To a finer lookup it answers the newest name or struct they leave, or nothing. */
  lemma CompactionMeantFine(items: seq<Item>, begin: int, end: int, mask: bv16, ty: bv16, id: int)
    requires Ready(items) && FromEntries(items) && Fine(mask, ty) && 0 <= id < end - begin
    ensures Lookup(Emits(Compacting(items, begin, end), 1), mask, ty, id)
         == IfAgrees(Lookup(Meant(items), 0x700, ty, begin + id), mask, ty)
  {
    hide Lookup, Emits, Compact, Written, Meant, Granular, Ready, RegularSplice, Fine, IfAgrees;
    CompactionWrites(items, begin, end);
    ReadySources(items);
    FineQuery(mask, ty);
    FineLookup(Written(items), begin, end, mask, ty, id);
    WrittenMeant(items, 0x700, ty, begin + id);
  }

  // ---- renaming ----

  function DeleteItem(id: int): Item {
    Item(Tag(DELETE, id, 0), Bytes([]))
  }

  function NoItem(): Item {
    Item(NOOP, Bytes([]))
  }

  /** The attributes of the first commit of lfs_rawrename; conditions that do not hold leave no-ops. */
  function RenameAttrs(newId: int, prev: bool, ty: bv16, name: seq<bv8>, oldId: int, source: Buffer, samePair: bool,
                       leaving: int): seq<Item> {
    [if prev then DeleteItem(newId) else NoItem(),
     Item(Tag(CREATE, newId, 0), Bytes([])),
     Item(Tag(ty, newId, |name|), Bytes(name)),
     Item(Tag(FROM_MOVE, newId, oldId), source),
     if samePair then DeleteItem(leaving) else NoItem()]
  }

  /** What the first commit of a rename is meant to do. */
  function RenameRecords(newId: int, prev: bool, ty: bv16, name: seq<bv8>, moved: R.Entry, samePair: bool,
                         leaving: int): seq<Record> {
    R.NewEntry(newId, prev, Attr(ty, |name|, name), moved) + if samePair then [R.DeleteRecord(leaving)] else []
  }

  /** The old entry, in a directory that is on disk. */
  predicate Movable(source: Buffer, oldId: int) {
    && source.Dir? && OnDisk(source.log) && Closed(source.log)
    && WellFormed(source.log, source.base) && 0 <= oldId < Count(source.log, source.base)
  }

  /** The type of a name, and a name that does not look like a removed one. */
  predicate Nameable(ty: bv16, name: seq<bv8>) {
    ty & NAME_MASK == 0 && ty != FROM_NOOP && |name| != REMOVED
  }

  lemma {:induction false} MeantDisk(log: seq<Record>)
    requires OnDisk(log)
    ensures FromEntries(FromDisk(log)) && Meant(FromDisk(log)) == log
  {
    hide IsRecord, MeantItem;
    if log != [] {
      var older := log[..|log| - 1];
      MeantDisk(older);
      assert FromDisk(log)[..|log| - 1] == FromDisk(older);
      assert IsRecord(log[|log| - 1].tag);
      RecordMeant(FromDisk(log)[|log| - 1]);
      forall k | 0 <= k < |log|
        ensures FromEntry(FromDisk(log)[k])
      {
        assert IsRecord(log[k].tag);
        RecordMeant(FromDisk(log)[k]);
      }
    }
  }

  lemma MeantMore(items: seq<Item>, x: Item)
    requires FromEntries(items) && FromEntry(x)
    ensures FromEntries(items + [x]) && Meant(items + [x]) == Meant(items) + MeantItem(x)
  {
    hide FromEntry, MeantItem;
    assert (items + [x])[..|items|] == items;
  }

  /** The attributes one after the other behind a log. */
  lemma Behind(items: seq<Item>, a: seq<Item>)
    requires |a| == 5
    ensures items + a == items + [a[0]] + [a[1]] + [a[2]] + [a[3]] + [a[4]]
  {
  }

  lemma RenameTypes(ty: bv16, name: seq<bv8>)
    requires Nameable(ty, name)
    ensures IsRecord(Tag(ty, 0, 0)) && IsRecord(Tag(CREATE, 0, 0)) && IsRecord(Tag(DELETE, 0, 0))
    ensures Kept(Tag(ty, 0, 0)) && !Kept(Tag(CREATE, 0, 0)) && !Kept(Tag(DELETE, 0, 0)) && !R.Moves(ty)
  {
  }

  /** The attributes of a rename stand for the new entry with all that is moved. */
  lemma RenameMeant(log: seq<Record>, newId: int, prev: bool, ty: bv16, name: seq<bv8>, oldId: int, source: Buffer,
                    samePair: bool, leaving: int)
    requires OnDisk(log) && Movable(source, oldId) && Nameable(ty, name)
    ensures
      var attrs := RenameAttrs(newId, prev, ty, name, oldId, source, samePair, leaving);
      && FromEntries(FromDisk(log) + attrs)
      && Meant(FromDisk(log) + attrs) ==
           log + RenameRecords(newId, prev, ty, name, Replay(source.log, source.base)[oldId], samePair, leaving)
  {
    hide Meant, Kept, OnDisk, Closed, WellFormed, IsRecord, R.MovedRecords;
    var a := RenameAttrs(newId, prev, ty, name, oldId, source, samePair, leaving);
    var items := FromDisk(log);
    RenameTypes(ty, name);
    Behind(items, a);
    MeantDisk(log);
    SameKind(ty);
    MeantMore(items, a[0]);
    MeantMore(items + [a[0]], a[1]);
    MeantMore(items + [a[0]] + [a[1]], a[2]);
    MeantMore(items + [a[0]] + [a[1]] + [a[2]], a[3]);
    MeantMore(items + [a[0]] + [a[1]] + [a[2]] + [a[3]], a[4]);
    RenameParts(log, newId, prev, ty, name, Replay(source.log, source.base)[oldId], samePair, leaving);
  }

  lemma SameKind(ty: bv16)
    ensures forall t: Tag :: t.ty == ty ==> IsRecord(t) == IsRecord(Tag(ty, 0, 0))
  {
  }

  lemma RenameParts(log: seq<Record>, newId: int, prev: bool, ty: bv16, name: seq<bv8>, moved: R.Entry, samePair: bool,
                    leaving: int)
    ensures
      log + (if prev then [R.DeleteRecord(newId)] else []) + [R.CreateRecord(newId)]
      + [Record(Tag(ty, newId, |name|), name)] + R.MovedRecords(moved, newId)
      + (if samePair then [R.DeleteRecord(leaving)] else [])
      == log + RenameRecords(newId, prev, ty, name, moved, samePair, leaving)
  {
    hide R.MovedRecords;
  }

  lemma WrittenMore(items: seq<Item>, x: Item)
    ensures Written(items + [x]) == Written(items) + WrittenItem(x)
  {
    hide WrittenItem;
    assert (items + [x])[..|items|] == items;
  }

  lemma ReadyMore(items: seq<Item>, x: Item)
    requires Ready(items) && ReadyItem(items, x)
    ensures Ready(items + [x])
    ensures NoMoves(items) && x.tag.ty != FROM_MOVE ==> NoMoves(items + [x])
  {
    hide ItemOk, RegularSplice, Kept, Closed, Fresh, Survivors, Written, IsRecord;
    assert (items + [x])[..|items|] == items;
  }

  lemma {:induction false} ReadyDisk(log: seq<Record>)
    requires OnDisk(log) && RegularSplices(log)
    ensures Ready(FromDisk(log)) && NoMoves(FromDisk(log))
  {
    hide RegularSplice, Kept, Closed, Fresh, Survivors, Written;
    if log != [] {
      var older, e := log[..|log| - 1], log[|log| - 1];
      ReadyDisk(older);
      assert FromDisk(log) == FromDisk(older) + [Item(e.tag, Bytes(e.data))];
      ReadyMore(FromDisk(older), Item(e.tag, Bytes(e.data)));
    }
  }

  /** Behind the creation of an entry and its name, the entry has nothing else. */
  lemma FreshEntry(log: seq<Record>, id: int, ty: bv16, name: seq<bv8>)
    requires Nameable(ty, name)
    ensures Fresh(Survivors(log + [R.CreateRecord(id)] + [Record(Tag(ty, id, |name|), name)]), id)
  {
    hide Kept, FilterAll, Survivors, R.Moves, IsSplice, Supersedes;
    var create, named := R.CreateRecord(id), Record(Tag(ty, id, |name|), name);
    RenameTypes(ty, name);
    KeptAlike(create.tag, Tag(CREATE, 0, 0));
    KeptAlike(named.tag, Tag(ty, 0, 0));
    OneMore(log, create);
    OneMore(log + [create], named);
    var one := FilterAll(create.tag, Survivors(log));
    assert one + [] == one;
    var two := FilterAll(named.tag, one);
    FilteredNotRemoved(named.tag, one);
    KeptFacts(named.tag, named.tag);
    forall k | 0 <= k < |two|
      ensures two[k].tag.id != id
    {
      var j := FilterAllOrigin(named.tag, one, k);
      var i := FilterAllOrigin(create.tag, Survivors(log), j);
      SplicedTag(create.tag, Survivors(log)[i].tag);
      NoShift(named.tag, one[j].tag);
    }
  }

  lemma NoShift(t: Tag, older: Tag)
    requires !IsSplice(t) && Filter(t, older).Some?
    ensures Filter(t, older).value == older
  {
    hide Supersedes, IsSplice;
  }

  lemma SpliceItems(id: int)
    ensures ItemOk(DeleteItem(id)) && RegularSplice(Tag(DELETE, id, 0)) && IsRecord(Tag(DELETE, id, 0))
    ensures !Kept(Tag(DELETE, id, 0)) && !Kept(Tag(CREATE, id, 0))
    ensures ItemOk(Item(Tag(CREATE, id, 0), Bytes([]))) && RegularSplice(Tag(CREATE, id, 0))
      && IsRecord(Tag(CREATE, id, 0))
    ensures WrittenItem(Item(Tag(CREATE, id, 0), Bytes([]))) == [R.CreateRecord(id)]
    ensures ItemOk(NoItem()) && !IsRecord(NOOP) && NOOP.ty != FROM_MOVE
  {
  }

  lemma NameItem(ty: bv16, id: int, name: seq<bv8>)
    requires Nameable(ty, name)
    ensures ItemOk(Item(Tag(ty, id, |name|), Bytes(name))) && RegularSplice(Tag(ty, id, |name|))
      && IsRecord(Tag(ty, id, |name|))
    ensures WrittenItem(Item(Tag(ty, id, |name|), Bytes(name))) == [Record(Tag(ty, id, |name|), name)]
  {
  }

  /** A directory can be compacted with the attributes of every rename. */
  lemma RenameReady(log: seq<Record>, newId: int, prev: bool, ty: bv16, name: seq<bv8>, oldId: int, source: Buffer,
                    samePair: bool, leaving: int)
    requires OnDisk(log) && RegularSplices(log) && Movable(source, oldId) && Nameable(ty, name)
    ensures Ready(FromDisk(log) + RenameAttrs(newId, prev, ty, name, oldId, source, samePair, leaving))
  {
    hide Written, Kept, Closed, WellFormed, IsRecord, Survivors, Fresh, RegularSplice, ItemOk, Ready, NoMoves,
         RegularSplices, WrittenItem, Nameable, OnDisk;
    var a := RenameAttrs(newId, prev, ty, name, oldId, source, samePair, leaving);
    var i0 := FromDisk(log);
    Behind(i0, a);
    SpliceItems(newId);
    SpliceItems(leaving);
    NameItem(ty, newId, name);
    ReadyDisk(log);
    var i1 := i0 + [a[0]];
    ReadyMore(i0, a[0]);
    var i2 := i1 + [a[1]];
    ReadyMore(i1, a[1]);
    var i3 := i2 + [a[2]];
    ReadyMore(i2, a[2]);
    WrittenMore(i1, a[1]);
    WrittenMore(i2, a[2]);
    FreshEntry(Written(i1), newId, ty, name);
    MoveOk(source, oldId, newId);
    ReadyMore(i3, a[3]);
    ReadyMore(i3 + [a[3]], a[4]);
  }

  lemma MoveOk(source: Buffer, oldId: int, newId: int)
    requires Movable(source, oldId)
    ensures ItemOk(Item(Tag(FROM_MOVE, newId, oldId), source)) && oldId != REMOVED
      && !IsRecord(Tag(FROM_MOVE, newId, oldId))
  {
    hide Closed;
    ghost var entries := Replay(source.log, source.base);
  }

  /** Committing records to a log is applying them to its entries. */
  lemma {:induction false} ReplayAll(log: seq<Record>, base: nat, attrs: seq<Record>)
    requires WellFormed(log, base) && R.CanApply(Replay(log, base), attrs)
    ensures WellFormed(log + attrs, base) && Replay(log + attrs, base) == R.ApplyAll(Replay(log, base), attrs)
    decreases |attrs|
  {
    hide Fits, Apply;
    if attrs == [] {
      assert log + attrs == log;
    } else {
      assert (log + [attrs[0]])[..|log|] == log;
      ReplayAll(log + [attrs[0]], base, attrs[1..]);
      assert log + attrs == log + [attrs[0]] + attrs[1..];
    }
  }

  /** The entries of the new directory after the first commit of a rename. */
  function RenamedEntries(entries: seq<R.Entry>, newId: int, prev: bool, e: R.Entry, samePair: bool,
                          leaving: int): seq<R.Entry>
    requires 0 <= newId <= |entries| && (prev ==> newId < |entries|)
    requires samePair ==> 0 <= leaving < |entries| + if prev then 0 else 1
  {
    var put := R.Put(entries, newId, prev, e);
    if samePair then R.RemoveAt(put, leaving) else put
  }

  lemma RenameApplies(entries: seq<R.Entry>, newId: int, prev: bool, ty: bv16, name: seq<bv8>, moved: R.Entry,
                      samePair: bool, leaving: int)
    requires 0 <= newId <= |entries| && (prev ==> newId < |entries|) && |entries| + 1 < NO_ID && Nameable(ty, name)
    requires samePair ==> 0 <= leaving < |entries| + if prev then 0 else 1
    ensures
      var records := RenameRecords(newId, prev, ty, name, moved, samePair, leaving);
      && R.CanApply(entries, records)
      && R.ApplyAll(entries, records) ==
           RenamedEntries(entries, newId, prev, [Attr(ty, |name|, name)] + R.MovedAttrs(moved), samePair, leaving)
  {
    hide R.CanApply, R.ApplyAll, R.Put, R.RemoveAt, R.NewEntry, R.MovedAttrs;
    var attr := Attr(ty, |name|, name);
    R.ApplyNewEntry(entries, newId, prev, attr, moved);
    var attrs := R.NewEntry(newId, prev, attr, moved);
    if samePair {
      R.RemoveRecord(R.Put(entries, newId, prev, [attr] + R.MovedAttrs(moved)), leaving);
      R.ApplyConcat(entries, attrs, [R.DeleteRecord(leaving)]);
    } else {
      assert attrs + [] == attrs;
    }
  }

  /** The first commit of a rename, appended or compacted on the way: what is on disk afterwards answers
      every lookup as the renamed entries do. */
  lemma RenameCommitted(log: seq<Record>, base: nat, newId: int, prev: bool, ty: bv16, name: seq<bv8>, oldId: int,
                        source: Buffer, samePair: bool, leaving: int, begin: nat, end: nat, mask: bv16, q: bv16,
                        id: nat)
    requires WellFormed(log, base) && OnDisk(log) && Movable(source, oldId) && Nameable(ty, name) && Granular(mask, q)
    requires Count(log, base) + 1 < NO_ID && 0 <= newId <= Count(log, base) && (prev ==> newId < Count(log, base))
    requires samePair ==> 0 <= leaving < Count(log, base) + if prev then 0 else 1
    ensures
      var attrs := RenameAttrs(newId, prev, ty, name, oldId, source, samePair, leaving);
      var e := [Attr(ty, |name|, name)] + R.MovedAttrs(Replay(source.log, source.base)[oldId]);
      var entries := RenamedEntries(Replay(log, base), newId, prev, e, samePair, leaving);
      && (id < |entries| ==>
            Lookup(log + Emits(Appending(attrs), 1), mask, q, id) == Newest(entries[id], mask, q))
      && (begin + id < end <= |entries| ==>
            Lookup(Emits(Compacting(FromDisk(log) + attrs, begin, end), 1), mask, q, id)
              == Newest(entries[begin + id], mask, q))
  {
    hide Lookup, Emits, Closed, WellFormed, Granular, Newest, Meant, Written, Ready, RegularSplices, RenameAttrs,
         RenameRecords, RenamedEntries, R.CanApply, R.ApplyAll, OnDisk, Nameable, R.MovedAttrs, FromEntries, ItemOk,
         EntryQuery;
    var attrs := RenameAttrs(newId, prev, ty, name, oldId, source, samePair, leaving);
    var moved := Replay(source.log, source.base)[oldId];
    var records := RenameRecords(newId, prev, ty, name, moved, samePair, leaving);
    var items := FromDisk(log) + attrs;
    WellFormedSplices(log, base);
    RenameReady(log, newId, prev, ty, name, oldId, source, samePair, leaving);
    RenameMeant(log, newId, prev, ty, name, oldId, source, samePair, leaving);
    RenameApplies(Replay(log, base), newId, prev, ty, name, moved, samePair, leaving);
    ReplayAll(log, base, records);
    QueryFacts(0, mask, q);
    AppendedBehind(log, attrs);
    var entries := Replay(log + records, base);
    if id < |entries| {
      WrittenMeant(items, mask, q, id);
      LookupReplays(log + records, base, mask, q, id);
    }
    if begin + id < end <= |entries| {
      CompactionMeant(items, begin, end, mask, q, id);
      LookupReplays(log + records, base, mask, q, begin + id);
    }
  }

  /** Names and structs are read back from disk as finely as the code reads them: from a compacted directory
      the newest one of the entry or nothing, from one appended to whenever the newest one agrees. */
  lemma RenameCommittedFine(log: seq<Record>, base: nat, newId: int, prev: bool, ty: bv16, name: seq<bv8>, oldId: int,
                            source: Buffer, samePair: bool, leaving: int, begin: nat, end: nat, mask: bv16, q: bv16,
                            id: nat)
    requires WellFormed(log, base) && OnDisk(log) && Movable(source, oldId) && Nameable(ty, name) && Fine(mask, q)
    requires Count(log, base) + 1 < NO_ID && 0 <= newId <= Count(log, base) && (prev ==> newId < Count(log, base))
    requires samePair ==> 0 <= leaving < Count(log, base) + if prev then 0 else 1
    ensures
      var attrs := RenameAttrs(newId, prev, ty, name, oldId, source, samePair, leaving);
      var e := [Attr(ty, |name|, name)] + R.MovedAttrs(Replay(source.log, source.base)[oldId]);
      var entries := RenamedEntries(Replay(log, base), newId, prev, e, samePair, leaving);
      && (id < |entries| && IfAgrees(Newest(entries[id], 0x700, q), mask, q) != None ==>
            Lookup(log + Emits(Appending(attrs), 1), mask, q, id) == IfAgrees(Newest(entries[id], 0x700, q), mask, q))
      && (begin + id < end <= |entries| ==>
            Lookup(Emits(Compacting(FromDisk(log) + attrs, begin, end), 1), mask, q, id)
              == IfAgrees(Newest(entries[begin + id], 0x700, q), mask, q))
  {
    hide Lookup, Emits, Closed, WellFormed, Granular, Newest, Meant, Written, Ready, RegularSplices, RenameAttrs,
         RenameRecords, RenamedEntries, R.CanApply, R.ApplyAll, OnDisk, Nameable, R.MovedAttrs, FromEntries, ItemOk,
         EntryQuery, Fine, Agree;
    var attrs := RenameAttrs(newId, prev, ty, name, oldId, source, samePair, leaving);
    var moved := Replay(source.log, source.base)[oldId];
    var records := RenameRecords(newId, prev, ty, name, moved, samePair, leaving);
    var items := FromDisk(log) + attrs;
    WellFormedSplices(log, base);
    RenameReady(log, newId, prev, ty, name, oldId, source, samePair, leaving);
    RenameMeant(log, newId, prev, ty, name, oldId, source, samePair, leaving);
    RenameApplies(Replay(log, base), newId, prev, ty, name, moved, samePair, leaving);
    ReplayAll(log, base, records);
    FineQuery(mask, q);
    AppendedBehind(log, attrs);
    var entries := Replay(log + records, base);
    if id < |entries| {
      WrittenMeant(items, 0x700, q, id);
      LookupReplays(log + records, base, 0x700, q, id);
      NewestFirst(Written(items), mask, q, id);
    }
    if begin + id < end <= |entries| {
      CompactionMeantFine(items, begin, end, mask, q, id);
      LookupReplays(log + records, base, 0x700, q, begin + id);
    }
  }

  lemma RenamedSize(entries: seq<R.Entry>, newId: int, prev: bool, e: R.Entry, samePair: bool, leaving: int, id: int)
    requires 0 <= newId <= |entries| && (prev ==> newId < |entries|)
    requires samePair ==> 0 <= leaving < |entries| + (if prev then 0 else 1) && leaving != newId
    requires id == if samePair && leaving < newId then newId - 1 else newId
    ensures
      var after := RenamedEntries(entries, newId, prev, e, samePair, leaving);
      && |after| == |entries| + (if prev then 0 else 1) - (if samePair then 1 else 0)
      && 0 <= id < |after| && after[id] == e
  {
  }

  lemma NameFine()
    ensures Fine(NAME_MASK, 0)
  {
  }

  /** The new name is read back from disk, with the mask by which names are read. */
  lemma RenamedNameRead(log: seq<Record>, base: nat, newId: int, prev: bool, ty: bv16, name: seq<bv8>, oldId: int,
                        source: Buffer, samePair: bool, leaving: int, id: nat)
    requires WellFormed(log, base) && OnDisk(log) && Movable(source, oldId) && Nameable(ty, name)
    requires Count(log, base) + 1 < NO_ID && 0 <= newId <= Count(log, base) && (prev ==> newId < Count(log, base))
    requires samePair ==> 0 <= leaving < Count(log, base) + (if prev then 0 else 1) && leaving != newId
    requires id == if samePair && leaving < newId then newId - 1 else newId
    ensures
      var attrs, attr := RenameAttrs(newId, prev, ty, name, oldId, source, samePair, leaving), Attr(ty, |name|, name);
      var n := Count(log, base) + (if prev then 0 else 1) - (if samePair then 1 else 0);
      && Lookup(log + Emits(Appending(attrs), 1), NAME_MASK, 0, id) == Some(attr)
      && Lookup(Emits(Compacting(FromDisk(log) + attrs, 0, n), 1), NAME_MASK, 0, id) == Some(attr)
  {
    hide Lookup, Emits, Closed, WellFormed, Newest, RenameAttrs, RenamedEntries, OnDisk, R.MovedAttrs, Fine, IsRecord,
         Granular;
    var attr := Attr(ty, |name|, name);
    var moved := Replay(source.log, source.base)[oldId];
    var n := Count(log, base) + (if prev then 0 else 1) - (if samePair then 1 else 0);
    NameFine();
    R.MovedName(attr, moved, 0x700);
    R.NameAgrees(ty, NAME_MASK);
    RenamedSize(Replay(log, base), newId, prev, [attr] + R.MovedAttrs(moved), samePair, leaving, id);
    RenameCommittedFine(log, base, newId, prev, ty, name, oldId, source, samePair, leaving, 0, n, NAME_MASK, 0, id);
  }

  /** What is appended behind a log is what the log and the attributes come to. */
  lemma AppendedBehind(log: seq<Record>, attrs: seq<Item>)
    requires OnDisk(log) && Ready(FromDisk(log) + attrs)
    ensures log + Emits(Appending(attrs), 1) == Written(FromDisk(log) + attrs)
  {
    hide Written, Emits, OnDisk, Ready, ItemOk;
    ReadySources(FromDisk(log) + attrs);
    forall k | 0 <= k < |attrs|
      ensures ItemOk(attrs[k])
    {
      assert attrs[k] == (FromDisk(log) + attrs)[|log| + k];
    }
    AppendWrites(attrs);
    WrittenConcat(FromDisk(log), attrs);
    WrittenDisk(log);
  }
}
