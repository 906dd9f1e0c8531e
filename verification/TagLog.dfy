/** The metadata log of littlefs: tags, newest-first lookup with id shifting, and what it means. */
module TagLog {
  import opened LfsBase

  const SPLICE: bv16 := 0x400
  const CREATE: bv16 := 0x401
  const DELETE: bv16 := 0x4ff
  /** The part of a type that tells the names of files and directories. */
  const NAME_MASK: bv16 := 0x780
  /** The id of tags that belong to the directory rather than to one of its entries. */
  const NO_ID := 0x3ff
  /** The size that marks an attribute as removed. */
  const REMOVED := 0x3ff

  /** The fields of a tag word: an 11-bit type, an entry id and a size. */
  datatype Tag = Tag(ty: bv16, id: int, size: int)

  /** One record of the log: a tag and the data stored behind it. */
  datatype Record = Record(tag: Tag, data: seq<bv8>)

  /** An attribute of an entry. */
  datatype Attr = Attr(ty: bv16, size: int, data: seq<bv8>)

  predicate IsSplice(t: Tag) {
    t.ty & 0x700 == SPLICE
  }

  predicate IsDelete(t: Tag) {
    t.size == REMOVED
  }

  /** How many ids a splice tag inserts, the low byte of its type read as a signed number. */
  function SpliceOf(t: Tag): int {
    if t.ty == CREATE then 1
    else if t.ty == DELETE then -1
    else
      var chunk := (t.ty & 0xff) as int;
      if chunk < 0x80 then chunk else chunk - 0x100
  }

  /** The two types agree in the bits of the mask. */
  predicate Agree(mask: bv16, s: bv16, t: bv16) {
    mask & s == mask & t
  }

  /** The masks in use tell types of 11 bits apart exactly, by class, and by name class. */
  lemma MasksMean(s: bv16, t: bv16)
    requires s < 0x800 && t < 0x800
    ensures Agree(0x7ff, s, t) <==> s == t
    ensures Agree(0x700, s, t) <==> s / 0x100 == t / 0x100
    ensures Agree(0x780, s, t) <==> s / 0x80 == t / 0x80
  {
  }

  /** Splices are the types from 0x400 to 0x4ff; half of them create entries, the others delete some. */
  lemma SplicesMean(t: Tag)
    requires t.ty < 0x800
    ensures IsSplice(t) <==> 0x400 <= t.ty < 0x500
    ensures SpliceOf(t) == if t.ty % 0x100 < 0x80 then (t.ty % 0x100) as int else (t.ty % 0x100) as int - 0x100
  {
    SpliceBits(t.ty);
  }

  lemma SpliceBits(ty: bv16)
    requires ty < 0x800
    ensures ty & 0x700 == 0x400 <==> 0x400 <= ty < 0x500
    ensures ty & 0xff == ty % 0x100
  {
  }

  predicate Matches(t: Tag, mask: bv16, ty: bv16, id: int) {
    Agree(mask, t.ty, ty) && t.id == id
  }

  function AttrOf(e: Record): Attr {
    Attr(e.tag.ty, e.tag.size, e.data)
  }

  /** The id that entry id had before the splice. */
  function Unspliced(t: Tag, id: int): int {
    if IsSplice(t) && t.id <= id then id - SpliceOf(t) else id
  }

  /** The newest attribute of entry id whose type agrees with ty on the mask, scanning backwards. */
  function Lookup(log: seq<Record>, mask: bv16, ty: bv16, id: int): Option<Attr> {
    if log == [] then None
    else
      var e, older := log[|log| - 1], log[..|log| - 1];
      var before := Unspliced(e.tag, id);
      if e.tag == Tag(CREATE, id, 0) then None
      else if Matches(e.tag, mask, ty, before) then (if IsDelete(e.tag) then None else Some(AttrOf(e)))
      else Lookup(older, mask, ty, before)
  }

  /** The newest attribute of any id whose type agrees with ty on the mask. */
  function LookupAny(log: seq<Record>, mask: bv16, ty: bv16): Option<Attr> {
    if log == [] then None
    else
      var e := log[|log| - 1];
      if Agree(mask, e.tag.ty, ty) then (if IsDelete(e.tag) then None else Some(AttrOf(e)))
      else LookupAny(log[..|log| - 1], mask, ty)
  }

  /** Lookup of an entry's attributes: the type asked for is not that of a splice. */
  predicate EntryQuery(mask: bv16, ty: bv16) {
    mask & 0x400 == 0x400 && ty & 0x400 == 0
  }

  // ---- what a log means ----

  /** A record a directory of n entries can be extended by. */
  predicate Fits(t: Tag, n: int) {
    if IsSplice(t) then
      (t.ty == CREATE && t.size == 0 && 0 <= t.id <= n && n + 1 < NO_ID) || (t.ty == DELETE && 0 <= t.id < n)
    else
      t.id == NO_ID || 0 <= t.id < n
  }

  /** The entries, each with its attributes from the oldest to the newest, after one more record. */
  function Apply(entries: seq<seq<Attr>>, e: Record): seq<seq<Attr>>
    requires Fits(e.tag, |entries|)
  {
    var id := e.tag.id;
    if e.tag.ty == CREATE then entries[..id] + [[]] + entries[id..]
    else if e.tag.ty == DELETE then entries[..id] + entries[id + 1..]
    else if id < |entries| then entries[id := entries[id] + [AttrOf(e)]]
    else entries
  }

  function Count(log: seq<Record>, base: nat): int {
    if log == [] then base
    else
      var t := log[|log| - 1].tag;
      Count(log[..|log| - 1], base) + if t.ty == CREATE then 1 else if t.ty == DELETE then -1 else 0
  }

  /** One more record. */
  lemma LookupSnoc(log: seq<Record>, e: Record, mask: bv16, ty: bv16, id: int)
    ensures Lookup(log + [e], mask, ty, id) ==
      if e.tag == Tag(CREATE, id, 0) then None
      else if Matches(e.tag, mask, ty, Unspliced(e.tag, id)) then (if IsDelete(e.tag) then None else Some(AttrOf(e)))
      else Lookup(log, mask, ty, Unspliced(e.tag, id))
  {
    hide Matches, Unspliced;
    assert (log + [e])[..|log|] == log;
  }

  /** Every record fits the directory it extends; the oldest one extends a directory of base entries. */
  predicate WellFormed(log: seq<Record>, base: nat) {
    if log == [] then base < NO_ID
    else WellFormed(log[..|log| - 1], base) && Fits(log[|log| - 1].tag, Count(log[..|log| - 1], base))
  }

  /** Replaying the log forwards into a list of entries. */
  function Replay(log: seq<Record>, base: nat): (entries: seq<seq<Attr>>)
    requires WellFormed(log, base)
    ensures |entries| == Count(log, base) < NO_ID
  {
    if log == [] then seq(base, _ => [])
    else Apply(Replay(log[..|log| - 1], base), log[|log| - 1])
  }

  /** The newest attribute that agrees with ty on the mask, unless it is marked as removed. */
  function Newest(attrs: seq<Attr>, mask: bv16, ty: bv16): Option<Attr> {
    if attrs == [] then None
    else
      var a := attrs[|attrs| - 1];
      if Agree(mask, a.ty, ty) then (if a.size == REMOVED then None else Some(a))
      else Newest(attrs[..|attrs| - 1], mask, ty)
  }

  /** Scanning backwards while shifting the id finds what replaying forwards leaves. */
  lemma {:induction false} LookupReplays(log: seq<Record>, base: nat, mask: bv16, ty: bv16, id: nat)
    requires WellFormed(log, base) && EntryQuery(mask, ty) && id < Count(log, base)
    ensures Lookup(log, mask, ty, id) == Newest(Replay(log, base)[id], mask, ty)
    decreases |log|
  {
    hide IsSplice, Agree, Newest, EntryQuery;
    if log != [] {
      var e, older := log[|log| - 1], log[..|log| - 1];
      SpliceFacts(e.tag, mask, ty);
      var before := Unspliced(e.tag, id);
      if e.tag != Tag(CREATE, id, 0) {
        LookupReplays(older, base, mask, ty, before);
      }
      NewestOfEntry(Replay(older, base), e, mask, ty, id);
    } else {
      assert Newest([], mask, ty) == None by { NewestOfNone(mask, ty); }
    }
  }

  lemma NewestOfNone(mask: bv16, ty: bv16)
    ensures Newest([], mask, ty) == None
  {
  }

  lemma SpliceFacts(t: Tag, mask: bv16, ty: bv16)
    requires EntryQuery(mask, ty)
    ensures IsSplice(t) ==> !Agree(mask, t.ty, ty)
    ensures t.ty == CREATE || t.ty == DELETE ==> IsSplice(t)
  {
  }

  /** How one record changes what is found in an entry. */
  lemma NewestOfEntry(was: seq<seq<Attr>>, e: Record, mask: bv16, ty: bv16, id: nat)
    requires Fits(e.tag, |was|) && id < |Apply(was, e)| && EntryQuery(mask, ty) && |was| < NO_ID
    ensures
      if e.tag == Tag(CREATE, id, 0) then Newest(Apply(was, e)[id], mask, ty) == None
      else
        var before := Unspliced(e.tag, id);
        && 0 <= before < |was|
        && Newest(Apply(was, e)[id], mask, ty) ==
             if Matches(e.tag, mask, ty, before) then (if IsDelete(e.tag) then None else Some(AttrOf(e)))
             else Newest(was[before], mask, ty)
  {
    hide IsSplice, Agree, EntryQuery;
    SpliceFacts(e.tag, mask, ty);
    if e.tag.ty != CREATE && e.tag.ty != DELETE && e.tag.id == id {
      assert Apply(was, e)[id] == was[id] + [AttrOf(e)];
      assert (was[id] + [AttrOf(e)])[..|was[id]|] == was[id];
    }
  }

  // ---- a pending move ----

  /** What the lookup does when entry moved of this pair is about to be deleted. */
  function LookupMoved(log: seq<Record>, mask: bv16, ty: bv16, id: int, move: Option<int>): Option<Attr> {
    Lookup(log, mask, ty, if move.Some? && move.value <= id then id + 1 else id)
  }

  /** A pending move behaves exactly as a DELETE of that entry appended to the log. */
  lemma MoveIsDelete(log: seq<Record>, data: seq<bv8>, mask: bv16, ty: bv16, id: int, moved: int)
    requires EntryQuery(mask, ty)
    ensures LookupMoved(log, mask, ty, id, Some(moved))
         == Lookup(log + [Record(Tag(DELETE, moved, 0), data)], mask, ty, id)
  {
    var longer := log + [Record(Tag(DELETE, moved, 0), data)];
    assert longer[..|longer| - 1] == log;
    SpliceFacts(Tag(DELETE, moved, 0), mask, ty);
  }
}
