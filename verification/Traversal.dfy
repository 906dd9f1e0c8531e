/** lfs_dir_traverse: the records a commit or a compaction writes, from the log on disk and the pending
    attributes, among them no-ops and moves of entries from other directories. */
module Traversal {
  import opened LfsBase
  import opened TagLog
  import opened Compaction
  import R = Rename

  const FROM_NOOP: bv16 := 0x000
  const FROM_MOVE: bv16 := 0x101

  /** What a pending attribute points to: its data, or the directory an entry is moved from. */
  datatype Buffer = Bytes(data: seq<bv8>) | Dir(log: seq<Record>, base: nat)

  /** A tag on its way through the traversal. A move names the new entry by its id and the old one by
      its size. */
  datatype Item = Item(tag: Tag, buffer: Buffer)

  const NOOP := Tag(FROM_NOOP, 0, 0)

  predicate IsRecord(t: Tag) {
    t.ty != FROM_NOOP && t.ty != FROM_MOVE
  }

  predicate OnDisk(log: seq<Record>) {
    forall k | 0 <= k < |log| :: IsRecord(log[k].tag)
  }

  predicate ItemOk(i: Item) {
    && (i.tag.ty == FROM_MOVE <==> i.buffer.Dir?)
    && (i.buffer.Dir? ==> OnDisk(i.buffer.log))
  }

  predicate ItemsOk(items: seq<Item>) {
    forall k | 0 <= k < |items| :: ItemOk(items[k])
  }

  predicate NoMoves(items: seq<Item>) {
    forall k | 0 <= k < |items| :: items[k].tag.ty != FROM_MOVE
  }

  function DataOf(i: Item): seq<bv8> {
    if i.buffer.Bytes? then i.buffer.data else []
  }

  function FromDisk(log: seq<Record>): (items: seq<Item>)
    ensures |items| == |log|
  {
    seq(|log|, k requires 0 <= k < |log| => Item(log[k].tag, Bytes(log[k].data)))
  }

  /** The state of one level of the traversal: what it reads and from where, which types and ids it
      takes, how it shifts the ids, and whether its tags go to the filter or are written. */
  datatype Level = Level(items: seq<Item>, pos: nat, tmask: bv16, ttag: bv16, ids: bool, begin: int, end: int,
                         diff: int, filtering: bool)

  /** How a compaction reads the entries from begin to end. */
  function Compacting(items: seq<Item>, begin: int, end: int): Level {
    Level(items, 0, 0x400, 0, true, begin, end, -begin, false)
  }

  /** How a commit reads the attributes it appends. */
  function Appending(attrs: seq<Item>): Level {
    Level(attrs, 0, 0, 0, false, 0, 0, 0, false)
  }

  /** The scan for later tags that make the current one redundant. */
  function Filtering(l: Level): Level {
    Level(l.items, l.pos, 0, 0, false, 0, 0, 0, true)
  }

  /** The structs and user attributes of the entry that is moved. */
  function Moving(move: Item, diff: int): Level
    requires move.buffer.Dir?
  {
    Level(FromDisk(move.buffer.log), 0, 0x600, R.STRUCT, true, move.tag.size, move.tag.size + 1,
          move.tag.id - move.tag.size + diff, false)
  }

  predicate Selected(l: Level, t: Tag) {
    Agree(l.tmask, t.ty, l.ttag)
  }

  predicate InRange(l: Level, t: Tag) {
    !l.ids || l.begin <= t.id < l.end
  }

  /** The records that the filter sees. */
  function Later(items: seq<Item>): (log: seq<Record>)
    ensures OnDisk(log)
  {
    if items == [] then []
    else (if IsRecord(items[0].tag) then [Record(items[0].tag, DataOf(items[0]))] else []) + Later(items[1..])
  }

  /** An item after the tags that follow it: redundant ones turn into no-ops. */
  function Sifted(item: Item, later: seq<Record>): Item
    decreases |later|
  {
    if later == [] then item
    else match Filter(later[0].tag, item.tag)
         case None => item.(tag := NOOP)
         case Some(t) => Sifted(item.(tag := t), later[1..])
  }

  /** What an item gives once nothing can make it redundant any more. */
  function Finish(item: Item, l: Level, depth: nat): seq<Record>
    decreases depth, 0
  {
    if !InRange(l, item.tag) || item.tag.ty == FROM_NOOP then []
    else if item.tag.ty == FROM_MOVE then
      if depth == 0 || !item.buffer.Dir? then [] else Emits(Moving(item, l.diff), depth - 1)
    else [Record(item.tag.(id := item.tag.id + l.diff), DataOf(item))]
  }

  /** What a level gives from its position on, with moves nested so deep. */
  function Emits(l: Level, depth: nat): seq<Record>
    decreases depth, 1 + if l.pos < |l.items| then |l.items| - l.pos else 0
  {
    if l.pos >= |l.items| then []
    else
      var item := l.items[l.pos];
      (if !Selected(l, item.tag) then []
       else Finish(if l.ids then Sifted(item, Later(l.items[l.pos + 1..])) else item, l, depth))
      + Emits(l.(pos := l.pos + 1), depth)
  }

  // ---- the explicit stack ----

  /** A suspended level and the item it was suspended for. */
  datatype Frame = Frame(level: Level, current: Item)

  /** A level that writes, in the directory or, with nothing to move, in the one an entry is moved from. */
  predicate Writing(l: Level, outer: bool) {
    && !l.filtering && l.pos <= |l.items|
    && if outer then ItemsOk(l.items) else NoMoves(l.items) && l.ids
  }

  predicate Scans(l: Level, f: Frame, outer: bool) {
    && l.filtering && Writing(f.level, outer) && f.level.ids
    && l.items == f.level.items && f.level.pos <= l.pos <= |l.items|
    && (if outer then f.current.tag.ty == FROM_MOVE ==> ItemOk(f.current) else f.current.tag.ty != FROM_MOVE)
    && l == Filtering(f.level).(pos := l.pos)
  }

  /** The four states: writing; scanning for a filter; moving; scanning for a filter while moving. */
  predicate Shape(stack: seq<Frame>, l: Level) {
    match |stack|
    case 0 => Writing(l, true)
    case 1 => if l.filtering then Scans(l, stack[0], true)
              else Writing(l, false) && Writing(stack[0].level, true) && stack[0].current.tag.ty == FROM_NOOP
    case 2 => Scans(l, stack[1], false) && Writing(stack[0].level, true) && stack[0].current.tag.ty == FROM_NOOP
    case _ => false
  }

  /** What is still to be written. */
  function Rest(stack: seq<Frame>, l: Level): seq<Record>
    requires Shape(stack, l)
  {
    if |stack| == 0 then Emits(l, 1)
    else if |stack| == 2 then
      Scanned(l, stack[1], 0) + Emits(stack[0].level, 1)
    else if l.filtering then Scanned(l, stack[0], 1)
    else Emits(l, 0) + Emits(stack[0].level, 1)
  }

  function Scanned(l: Level, f: Frame, depth: nat): seq<Record>
    requires l.pos <= |l.items|
  {
    Finish(Sifted(f.current, Later(l.items[l.pos..])), f.level, depth) + Emits(f.level, depth)
  }

  // ---- how long it takes ----

  function Left(l: Level): int {
    |l.items| - l.pos
  }

  /** Items not begun; whether the current one is being filtered, moved, or done; the same within the move. */
  function Measure(stack: seq<Frame>, l: Level): (m: (int, int, int, int, int))
  {
    if |stack| == 0 then (Left(l), 0, 0, 0, 0)
    else if |stack| == 1 && l.filtering then (Left(stack[0].level), 2, Left(l), 0, 0)
    else if |stack| == 1 then (Left(stack[0].level), 1, Left(l), 0, 0)
    else (Left(stack[0].level), 1, Left(stack[1].level), 1, Left(l))
  }

  predicate Below(m: (int, int, int, int, int), n: (int, int, int, int, int)) {
    || m.0 < n.0
    || (m.0 == n.0 && m.1 < n.1)
    || (m.0 == n.0 && m.1 == n.1 && m.2 < n.2)
    || (m.0 == n.0 && m.1 == n.1 && m.2 == n.2 && m.3 < n.3)
    || (m.0 == n.0 && m.1 == n.1 && m.2 == n.2 && m.3 == n.3 && m.4 < n.4)
  }

  predicate Bounded(m: (int, int, int, int, int)) {
    m.0 >= 0 && m.1 >= 0 && m.2 >= 0 && m.3 >= 0 && m.4 >= 0
  }

  lemma ShapeFacts(stack: seq<Frame>, l: Level)
    requires Shape(stack, l)
    ensures Bounded(Measure(stack, l)) && |stack| <= 2 && l.pos <= |l.items|
    ensures l.filtering ==> |stack| > 0
    ensures stack == [] ==> !l.filtering
  {
    hide ItemsOk, NoMoves;
  }

  function Next(l: Level): Level {
    l.(pos := l.pos + 1)
  }

  lemma EmitsNext(l: Level, depth: nat)
    requires l.pos < |l.items|
    ensures
      var item := l.items[l.pos];
      Emits(l, depth) ==
        (if !Selected(l, item.tag) then []
         else Finish(if l.ids then Sifted(item, Later(l.items[l.pos + 1..])) else item, l, depth))
        + Emits(Next(l), depth)
  {
    hide Finish, Sifted, Later, Selected;
  }

  lemma SameFinish(item: Item, l: Level, depth: nat)
    ensures Finish(item, Next(l), depth) == Finish(item, l, depth)
  {
  }

  /** A tag of another type is passed over. */
  lemma PassOver(stack: seq<Frame>, l: Level)
    requires Shape(stack, l) && !l.filtering && l.pos < |l.items| && !Selected(l, l.items[l.pos].tag)
    ensures Shape(stack, Next(l)) && Rest(stack, Next(l)) == Rest(stack, l)
    ensures Below(Measure(stack, Next(l)), Measure(stack, l))
  {
    hide ItemsOk, NoMoves, Emits, Finish, Sifted, Later, Selected;
    EmitsNext(l, if |stack| == 0 then 1 else 0);
    assert [] + Emits(Next(l), if |stack| == 0 then 1 else 0) == Emits(Next(l), if |stack| == 0 then 1 else 0);
  }

  /** A tag that later ones may make redundant suspends the level; there is room for it on the stack. */
  lemma Suspend(stack: seq<Frame>, l: Level)
    requires Shape(stack, l) && !l.filtering && l.pos < |l.items| && l.ids && Selected(l, l.items[l.pos].tag)
    ensures |stack| < 2
    ensures
      var s := stack + [Frame(Next(l), l.items[l.pos])];
      && Shape(s, Filtering(Next(l))) && Rest(s, Filtering(Next(l))) == Rest(stack, l)
      && Below(Measure(s, Filtering(Next(l))), Measure(stack, l))
  {
    hide Emits, Finish, Sifted, Later, Selected;
    var depth := if |stack| == 0 then 1 else 0;
    EmitsNext(l, depth);
    SameFinish(Sifted(l.items[l.pos], Later(l.items[l.pos + 1..])), l, depth);
    var s := stack + [Frame(Next(l), l.items[l.pos])];
    if |stack| == 1 {
      assert s[0] == stack[0] && s[1] == Frame(Next(l), l.items[l.pos]);
    } else {
      assert ItemOk(l.items[l.pos]);
    }
  }

  lemma FilterTakesAll(stack: seq<Frame>, l: Level, t: Tag)
    requires Shape(stack, l) && l.filtering
    ensures Selected(l, t) && !l.ids
  {
  }

  lemma LaterNext(items: seq<Item>, pos: nat)
    requires pos < |items|
    ensures Later(items[pos..]) ==
      (if IsRecord(items[pos].tag) then [Record(items[pos].tag, DataOf(items[pos]))] else []) + Later(items[pos + 1..])
  {
    assert items[pos..][1..] == items[pos + 1..] && items[pos..][0] == items[pos];
  }

  /** A later tag in the filter. */
  lemma SiftNext(item: Item, items: seq<Item>, pos: nat)
    requires pos < |items|
    ensures Sifted(item, Later(items[pos..])) ==
      if !IsRecord(items[pos].tag) then Sifted(item, Later(items[pos + 1..]))
      else match Filter(items[pos].tag, item.tag)
           case None => item.(tag := NOOP)
           case Some(t) => Sifted(item.(tag := t), Later(items[pos + 1..]))
  {
    hide Filter, Later, IsRecord;
    LaterNext(items, pos);
    var more := Later(items[pos + 1..]);
    if IsRecord(items[pos].tag) {
      var e := Record(items[pos].tag, DataOf(items[pos]));
      assert ([e] + more)[1..] == more && ([e] + more)[0] == e;
    } else {
      assert [] + more == more;
    }
  }

  function Top(stack: seq<Frame>): Frame
    requires stack != []
  {
    stack[|stack| - 1]
  }

  function WithTop(stack: seq<Frame>, f: Frame): (s: seq<Frame>)
    requires stack != []
    ensures |s| == |stack|
  {
    stack[|stack| - 1 := f]
  }

  /** How deep moves may still be nested in the level that a filter scans for. */
  function Depth(stack: seq<Frame>): nat {
    if |stack| == 0 then 1 else 0
  }

  /** A tag that leaves the current one alone or shifts its id. */
  lemma Sift(stack: seq<Frame>, l: Level, current: Item)
    requires Shape(stack, l) && l.filtering && l.pos < |l.items| && stack != []
    requires
      var item := l.items[l.pos];
      if IsRecord(item.tag) then
        Filter(item.tag, Top(stack).current.tag).Some?
        && current == Top(stack).current.(tag := Filter(item.tag, Top(stack).current.tag).value)
      else current == Top(stack).current
    ensures
      var s := WithTop(stack, Top(stack).(current := current));
      && Shape(s, Next(l)) && Rest(s, Next(l)) == Rest(stack, l)
      && Below(Measure(s, Next(l)), Measure(stack, l))
  {
    hide ItemsOk, NoMoves, Emits, Finish, Sifted, Later, Filter, IsRecord, OnDisk;
    SiftNext(Top(stack).current, l.items, l.pos);
    if IsRecord(l.items[l.pos].tag) {
      FilterKeepsType(l.items[l.pos].tag, Top(stack).current.tag);
    }
  }

  lemma FilterKeepsType(t: Tag, older: Tag)
    requires Filter(t, older).Some?
    ensures Filter(t, older).value.ty == older.ty
  {
  }

  /** What the traversal returns to: a level that writes, and the item it was suspended for. */
  predicate Popped(stack: seq<Frame>, l: Level, current: Item, m: (int, int, int, int, int)) {
    && |stack| < 2 && Shape(stack, l) && !l.filtering
    && (current.tag.ty == FROM_MOVE ==>
          stack == [] && ItemOk(current) && (m.0 > Left(l) || (m.0 == Left(l) && m.1 > 1)))
    && Below(Measure(stack, l), m)
  }

  /** The filter has made the current item redundant, or has come to the end. */
  lemma Pop(stack: seq<Frame>, l: Level, current: Item)
    requires Shape(stack, l) && l.filtering && stack != []
    requires
      if l.pos < |l.items| then
        && IsRecord(l.items[l.pos].tag) && Filter(l.items[l.pos].tag, Top(stack).current.tag) == None
        && current == Top(stack).current.(tag := NOOP)
      else current == Top(stack).current
    ensures
      var s, level := stack[..|stack| - 1], Top(stack).level;
      && Popped(s, level, current, Measure(stack, l))
      && Finish(current, level, Depth(s)) + Rest(s, level) == Rest(stack, l)
  {
    hide ItemsOk, NoMoves, Emits, Finish, Sifted, Later, Filter, IsRecord, OnDisk;
    if l.pos < |l.items| {
      SiftNext(Top(stack).current, l.items, l.pos);
    } else {
      NothingLater(current, l.items);
    }
    if |stack| == 2 {
      assert stack[..1][0] == stack[0];
      Associate(Finish(current, Top(stack).level, 0), Emits(Top(stack).level, 0), Emits(stack[0].level, 1));
    }
  }

  lemma NothingLater(item: Item, items: seq<Item>)
    ensures Sifted(item, Later(items[|items|..])) == item
  {
  }

  lemma Associate(a: seq<Record>, b: seq<Record>, c: seq<Record>)
    ensures (a + b) + c == a + (b + c)
  {
  }

  /** The move is over. */
  lemma PopMove(stack: seq<Frame>, l: Level)
    requires Shape(stack, l) && !l.filtering && stack != [] && l.pos == |l.items|
    ensures Popped([], stack[0].level, stack[0].current, Measure(stack, l))
    ensures |stack| == 1 && Finish(stack[0].current, stack[0].level, 1) + Rest([], stack[0].level) == Rest(stack, l)
  {
    hide ItemsOk, NoMoves, InRange;
    assert Emits(l, 0) == [];
    assert Finish(stack[0].current, stack[0].level, 1) == [];
  }

  /** A level without a filter writes each tag as it comes. */
  lemma TakeUp(stack: seq<Frame>, l: Level)
    requires Shape(stack, l) && !l.filtering && l.pos < |l.items| && !l.ids && Selected(l, l.items[l.pos].tag)
    ensures stack == [] && Popped([], Next(l), l.items[l.pos], Measure(stack, l))
    ensures Finish(l.items[l.pos], Next(l), 1) + Rest([], Next(l)) == Rest(stack, l)
  {
    hide NoMoves, Emits, Finish, Sifted, Later, Selected;
    EmitsNext(l, 1);
    SameFinish(l.items[l.pos], l, 1);
  }

  /** A move is entered; there is room for it on the stack. */
  lemma Enter(stack: seq<Frame>, l: Level, current: Item, m: (int, int, int, int, int))
    requires Popped(stack, l, current, m) && current.tag.ty == FROM_MOVE && InRange(l, current.tag)
    ensures
      var s := [Frame(l, current.(tag := NOOP))];
      && Shape(s, Moving(current, l.diff)) && Below(Measure(s, Moving(current, l.diff)), m)
      && Rest(s, Moving(current, l.diff)) == Finish(current, l, Depth(stack)) + Rest(stack, l)
  {
    hide Emits, InRange;
    SourceMoves(current.buffer.log);
  }

  lemma SourceMoves(log: seq<Record>)
    requires OnDisk(log)
    ensures NoMoves(FromDisk(log))
  {
  }

  lemma AtEnd(l: Level, depth: nat)
    requires l.pos >= |l.items|
    ensures Emits(l, depth) == []
  {
  }

  /** lfs_dir_traverse over the directory and the pending attributes, with its explicit stack of two
      frames. */
  method Traverse(items: Level) returns (out: seq<Record>)
    requires Writing(items, true)
    ensures out == Emits(items, 1)
  {
    hide Shape, Writing, Scans, Rest, Measure, Emits, Finish, Filter, IsRecord, ItemOk, Popped, Selected, InRange;
    var level, stack: seq<Frame> := items, [];
    out := [];
    StartShape(items);
    while true
      invariant |stack| <= 2
      invariant Shape(stack, level) && out + Rest(stack, level) == Emits(items, 1)
      decreases Measure(stack, level).0, Measure(stack, level).1, Measure(stack, level).2, Measure(stack, level).3,
                Measure(stack, level).4
    {
      ghost var m, rest := Measure(stack, level), Rest(stack, level);
      ShapeFacts(stack, level);
      var current: Item;
      if level.pos < |level.items| {
        var item := level.items[level.pos];
        if !Selected(level, item.tag) {
          if level.filtering {
            FilterTakesAll(stack, level, item.tag);
          }
          PassOver(stack, level);
          level := Next(level);
          ShapeFacts(stack, level);
          continue;
        }
        if level.ids {
          if level.filtering {
            FilterTakesAll(stack, level, item.tag);
          }
          Suspend(stack, level);
          stack, level := stack + [Frame(Next(level), item)], Filtering(Next(level));
          ShapeFacts(stack, level);
          continue;
        }
        if level.filtering {
          var frame := Top(stack);
          if !IsRecord(item.tag) {
            Sift(stack, level, frame.current);
            stack, level := WithTop(stack, frame), Next(level);
            ShapeFacts(stack, level);
            continue;
          }
          var filtered := Filter(item.tag, frame.current.tag);
          if filtered.Some? {
            current := frame.current.(tag := filtered.value);
            Sift(stack, level, current);
            stack, level := WithTop(stack, frame.(current := current)), Next(level);
            ShapeFacts(stack, level);
            continue;
          }
          current := frame.current.(tag := NOOP);
          Pop(stack, level, current);
          stack, level := stack[..|stack| - 1], frame.level;
        } else {
          TakeUp(stack, level);
          current, level := item, Next(level);
        }
      } else if stack == [] {
        AtEnd(level, 1);
        DoneRest(level);
        return;
      } else {
        var frame := Top(stack);
        current := frame.current;
        if level.filtering {
          Pop(stack, level, current);
        } else {
          PopMove(stack, level);
          assert stack[..|stack| - 1] == [];
        }
        stack, level := stack[..|stack| - 1], frame.level;
      }
      // back in a level that writes
      PoppedShape(stack, level, current, m);
      assert Popped(stack, level, current, m) && Finish(current, level, Depth(stack)) + Rest(stack, level) == rest;
      var written;
      written, stack, level := Write(stack, level, current, m);
      Associate(out, written, Rest(stack, level));
      out := out + written;
      ShapeFacts(stack, level);
    }
  }

  lemma PoppedShape(stack: seq<Frame>, l: Level, current: Item, m: (int, int, int, int, int))
    requires Popped(stack, l, current, m)
    ensures Shape(stack, l)
  {
    hide Shape;
  }

  lemma StartShape(items: Level)
    requires Writing(items, true)
    ensures Shape([], items) && Rest([], items) == Emits(items, 1)
  {
    hide Writing, Emits;
  }

  lemma DoneRest(l: Level)
    requires Shape([], l) && l.pos >= |l.items|
    ensures Rest([], l) == []
  {
    hide ItemsOk;
  }

  /** The item the traversal has come back with is written, skipped, or entered when it is a move. */
  method Write(stack: seq<Frame>, l: Level, current: Item, ghost m: (int, int, int, int, int))
      returns (written: seq<Record>, stack': seq<Frame>, level: Level)
    requires Popped(stack, l, current, m)
    ensures Shape(stack', level) && Below(Measure(stack', level), m)
    ensures written + Rest(stack', level) == Finish(current, l, Depth(stack)) + Rest(stack, l)
  {
    hide Writing, Scans, Rest, Measure, Emits, OnDisk, InRange, Shape;
    written, stack', level := [], stack, l;
    if !InRange(l, current.tag) || current.tag.ty == FROM_NOOP {
      return;
    }
    if current.tag.ty == FROM_MOVE {
      Enter(stack, l, current, m);
      stack', level := [Frame(l, current.(tag := NOOP))], Moving(current, l.diff);
      assert [] + Rest(stack', level) == Rest(stack', level);
    } else {
      written := [Record(current.tag.(id := current.tag.id + l.diff), DataOf(current))];
    }
  }
}
