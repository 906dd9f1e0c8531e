/** Finding an entry by its name while a directory is fetched, lfs_dir_fetchmatch and lfs_dir_find_match:
    the scan keeps one best tag, and it is stated exactly for which logs that finds the right entry. */
module NameMatch {
  import opened LfsBase
  import opened TagLog

  // ---- the order of names ----

  datatype Cmp = LT | EQ | GT

  /** Comparing equally many bytes on disk and in memory. */
  function CmpBytes(disk: seq<bv8>, name: seq<bv8>): Cmp
    requires |disk| == |name|
  {
    if disk == [] then EQ
    else if disk[0] < name[0] then LT
    else if disk[0] > name[0] then GT
    else CmpBytes(disk[1..], name[1..])
  }

  /** lfs_dir_find_match: the name on disk against the one looked for. Of two names one of which continues
      the other, the longer one counts as smaller. */
  function FindMatch(name: seq<bv8>, disk: seq<bv8>): Cmp {
    var diff := Min(|name|, |disk|);
    var res := CmpBytes(disk[..diff], name[..diff]);
    if res != EQ then res
    else if |name| != |disk| then (if |name| < |disk| then LT else GT)
    else EQ
  }

  /** One byte of both names at a time. */
  lemma MatchByte(name: seq<bv8>, disk: seq<bv8>)
    ensures FindMatch(name, disk) ==
      if name == [] then (if disk == [] then EQ else LT)
      else if disk == [] then GT
      else if disk[0] < name[0] then LT
      else if disk[0] > name[0] then GT
      else FindMatch(name[1..], disk[1..])
  {
    if name != [] && disk != [] {
      var diff := Min(|name|, |disk|);
      assert disk[..diff][1..] == disk[1..][..diff - 1] && name[..diff][1..] == name[1..][..diff - 1];
    }
  }

  lemma {:induction false} MatchEqual(name: seq<bv8>, disk: seq<bv8>)
    ensures FindMatch(name, disk) == EQ <==> name == disk
  {
    hide FindMatch;
    MatchByte(name, disk);
    if name != [] && disk != [] {
      MatchEqual(name[1..], disk[1..]);
      assert name == [name[0]] + name[1..] && disk == [disk[0]] + disk[1..];
    }
  }

  lemma {:induction false} MatchFlip(a: seq<bv8>, b: seq<bv8>)
    ensures FindMatch(a, b) == LT <==> FindMatch(b, a) == GT
  {
    hide FindMatch;
    MatchByte(a, b);
    MatchByte(b, a);
    if a != [] && b != [] {
      MatchFlip(a[1..], b[1..]);
    }
  }

  lemma {:induction false} MatchTrans(a: seq<bv8>, b: seq<bv8>, c: seq<bv8>)
    requires FindMatch(b, a) == LT && FindMatch(c, b) == LT
    ensures FindMatch(c, a) == LT
  {
    hide FindMatch;
    MatchByte(b, a);
    MatchByte(c, b);
    MatchByte(c, a);
    if a != [] && b != [] && c != [] {
      if a[0] == b[0] && b[0] == c[0] {
        MatchTrans(a[1..], b[1..], c[1..]);
      }
    }
  }

  // ---- the best tag ----

  /** The best tag so far: nothing, or the type and id of a tag, which is a match when it is valid and
      otherwise the place the name would have. */
  datatype Best = NoBest | Best(ty: bv16, id: int, valid: bool)

  /** The id field, all ones when there is no best tag. */
  function BestId(b: Best): int {
    if b.Best? then b.id else NO_ID
  }

  predicate Found(b: Best, id: int) {
    b.Best? && b.valid && b.id == id
  }

  predicate IsName(t: Tag) {
    Agree(NAME_MASK, t.ty, 0)
  }

  /** What a created or deleted entry does to the best tag. */
  function Shifted(b: Best, t: Tag): Best {
    if b == NoBest || !IsSplice(t) then b
    else if t == Tag(DELETE, b.id, 0) then b.(valid := false)
    else if t.id <= b.id then b.(id := b.id + SpliceOf(t))
    else b
  }

  /** What a name on disk does to the best tag. */
  function Matched(b: Best, t: Tag, res: Cmp): Best {
    if res == EQ then Best(t.ty, t.id, true)
    else if b.Best? && b.ty == t.ty && b.id == t.id then NoBest
    else if res == GT && t.id <= BestId(b) then Best(t.ty, t.id, false)
    else b
  }

  /** One tag of the scan. */
  function MatchStep(b: Best, e: Record, name: seq<bv8>): Best {
    if IsName(e.tag) then Matched(Shifted(b, e.tag), e.tag, FindMatch(name, e.data)) else Shifted(b, e.tag)
  }

  /** The best tag after the records of all closed commits. */
  function BestTag(log: seq<Record>, name: seq<bv8>): Best {
    if log == [] then NoBest else MatchStep(BestTag(log[..|log| - 1], name), log[|log| - 1], name)
  }

  // ---- what the scan should find ----

  function NameOf(entry: seq<Attr>): Option<Attr> {
    Newest(entry, NAME_MASK, 0)
  }

  /** The newest name of the entry is this one. */
  predicate Goes(entry: seq<Attr>, name: seq<bv8>) {
    NameOf(entry).Some? && NameOf(entry).value.data == name
  }

  /** Names carry their bytes, belong to entries and are not marked as removed. */
  predicate NameOk(e: Record) {
    IsName(e.tag) ==> e.tag.size == |e.data| && e.tag.size != REMOVED && e.tag.id != NO_ID
  }

  predicate NamesOk(log: seq<Record>) {
    forall k | 0 <= k < |log| :: NameOk(log[k])
  }

  /** The best tag is valid exactly for the entry that goes by the name. */
  predicate Right(b: Best, entries: seq<seq<Attr>>, name: seq<bv8>) {
    && (b.Best? && b.valid ==> 0 <= b.id < |entries|)
    && forall k | 0 <= k < |entries| :: Goes(entries[k], name) <==> Found(b, k)
  }

  /** A name that entry id can be given while entry k goes by another one: it is a different name, smaller
      than those of later entries; on the same entry, a tag of the same type or a greater name. */
  predicate Compatible(k: int, a: Attr, e: Record) {
    if k == e.tag.id then a.data == e.data || a.ty == e.tag.ty || FindMatch(a.data, e.data) == GT
    else a.data != e.data && (k > e.tag.id ==> FindMatch(a.data, e.data) != GT)
  }

  /** A record that the scan copes with: names are compatible with those of all entries, and deleted
      entries leave no data. */
  predicate Tidy(entries: seq<seq<Attr>>, e: Record) {
    if IsName(e.tag) then
      forall k | 0 <= k < |entries| && NameOf(entries[k]).Some? :: Compatible(k, NameOf(entries[k]).value, e)
    else
      e.tag.ty == DELETE && 0 <= e.tag.id < |entries| ==> e.tag.size == 0 || NameOf(entries[e.tag.id]) == None
  }

  predicate Orderly(log: seq<Record>, base: nat)
    requires WellFormed(log, base)
  {
    log == [] || (Orderly(log[..|log| - 1], base) && Tidy(Replay(log[..|log| - 1], base), log[|log| - 1]))
  }

  /** A match besides has the type of the newest name. */
  predicate Tracks(b: Best, entries: seq<seq<Attr>>, name: seq<bv8>) {
    && Right(b, entries, name)
    && (b.Best? && b.valid ==> NameOf(entries[b.id]).Some? && NameOf(entries[b.id]).value.ty == b.ty)
  }

  lemma NameFacts(t: Tag)
    ensures IsName(t) ==> !IsSplice(t) && t.ty != CREATE && t.ty != DELETE
    ensures EntryQuery(NAME_MASK, 0)
    ensures t.ty == CREATE || t.ty == DELETE ==> IsSplice(t) && !IsName(t)
  {
  }

  /** How one record changes the newest names. */
  lemma NameAfter(entries: seq<seq<Attr>>, e: Record, k: nat)
    requires Fits(e.tag, |entries|) && k < |Apply(entries, e)| && |entries| < NO_ID && NameOk(e)
    ensures
      if e.tag == Tag(CREATE, k, 0) then NameOf(Apply(entries, e)[k]) == None
      else
        var before := Unspliced(e.tag, k);
        && 0 <= before < |entries|
        && NameOf(Apply(entries, e)[k])
           == if IsName(e.tag) && e.tag.id == k then Some(AttrOf(e)) else NameOf(entries[before])
  {
    hide IsSplice, Agree, Newest, EntryQuery, Apply;
    NameFacts(e.tag);
    NewestOfEntry(entries, e, NAME_MASK, 0, k);
  }

  /** A splice moves entries and the best tag alike. */
  lemma TracksSplice(b: Best, entries: seq<seq<Attr>>, e: Record, name: seq<bv8>)
    requires Fits(e.tag, |entries|) && |entries| < NO_ID && NameOk(e) && IsSplice(e.tag)
    requires Tidy(entries, e) && Tracks(b, entries, name)
    ensures Tracks(MatchStep(b, e, name), Apply(entries, e), name)
  {
    hide Agree, Newest, FindMatch;
    NameFacts(e.tag);
    var after, b' := Apply(entries, e), MatchStep(b, e, name);
    forall k | 0 <= k < |after|
      ensures Goes(after[k], name) <==> Found(b', k)
      ensures Found(b', k) ==> NameOf(after[k]).value.ty == b'.ty
    {
      NameAfter(entries, e, k);
    }
  }

  /** A name that is compatible leaves the best tag right. */
  lemma TracksName(b: Best, entries: seq<seq<Attr>>, e: Record, name: seq<bv8>)
    requires Fits(e.tag, |entries|) && |entries| < NO_ID && NameOk(e) && IsName(e.tag)
    requires Tidy(entries, e) && Tracks(b, entries, name)
    ensures Tracks(MatchStep(b, e, name), Apply(entries, e), name)
  {
    hide Agree, Newest, FindMatch, IsSplice;
    NameFacts(e.tag);
    MatchEqual(name, e.data);
    var after, b' := Apply(entries, e), MatchStep(b, e, name);
    forall k | 0 <= k < |after|
      ensures Goes(after[k], name) <==> Found(b', k)
      ensures Found(b', k) ==> NameOf(after[k]).value.ty == b'.ty
    {
      NameAfter(entries, e, k);
    }
  }

  lemma TracksOther(b: Best, entries: seq<seq<Attr>>, e: Record, name: seq<bv8>)
    requires Fits(e.tag, |entries|) && |entries| < NO_ID && NameOk(e) && !IsName(e.tag) && !IsSplice(e.tag)
    requires Tracks(b, entries, name)
    ensures Tracks(MatchStep(b, e, name), Apply(entries, e), name)
  {
    hide Agree, Newest, FindMatch, IsSplice;
    NameFacts(e.tag);
    forall k | 0 <= k < |entries|
      ensures NameOf(Apply(entries, e)[k]) == NameOf(entries[k])
    {
      NameAfter(entries, e, k);
    }
  }

  /** For an orderly log the scan finds the entry that goes by the name, and nothing when none does. */
  lemma {:induction false} ScanTracks(log: seq<Record>, base: nat, name: seq<bv8>)
    requires WellFormed(log, base) && NamesOk(log) && Orderly(log, base)
    ensures Tracks(BestTag(log, name), Replay(log, base), name)
  {
    hide IsSplice, IsName, NameOk, Tidy, Tracks, MatchStep, Fits, Apply;
    if log == [] {
      NothingThere(base, name);
    } else {
      var older, e := log[..|log| - 1], log[|log| - 1];
      ScanTracks(older, base, name);
      if IsName(e.tag) {
        TracksName(BestTag(older, name), Replay(older, base), e, name);
      } else if IsSplice(e.tag) {
        TracksSplice(BestTag(older, name), Replay(older, base), e, name);
      } else {
        TracksOther(BestTag(older, name), Replay(older, base), e, name);
      }
    }
  }

  lemma NothingThere(base: nat, name: seq<bv8>)
    requires base < NO_ID
    ensures Tracks(NoBest, Replay([], base), name)
  {
    hide Agree;
  }

  // ---- and only for orderly logs ----

  /** A record that is not tidy makes the scan for some name go wrong. */
  lemma UntidyWrong(log: seq<Record>, base: nat, e: Record) returns (name: seq<bv8>)
    requires WellFormed(log, base) && NamesOk(log) && Orderly(log, base)
    requires Fits(e.tag, Count(log, base)) && NameOk(e) && !Tidy(Replay(log, base), e)
    ensures !Right(MatchStep(BestTag(log, name), e, name), Apply(Replay(log, base), e), name)
  {
    hide Agree, Newest, FindMatch, IsSplice, Orderly, BestTag, Replay;
    var entries := Replay(log, base);
    NameFacts(e.tag);
    if IsName(e.tag) {
      var k :| 0 <= k < |entries| && NameOf(entries[k]).Some? && !Compatible(k, NameOf(entries[k]).value, e);
      name := NameOf(entries[k]).value.data;
      ScanTracks(log, base, name);
      assert Goes(entries[k], name);
      NameAfter(entries, e, k);
      NameAfter(entries, e, e.tag.id);
      MatchEqual(name, e.data);
    } else {
      name := NameOf(entries[e.tag.id]).value.data;
      ScanTracks(log, base, name);
      assert Goes(entries[e.tag.id], name);
      if e.tag.id > 0 {
        NameAfter(entries, e, e.tag.id - 1);
        assert !Goes(entries[e.tag.id - 1], name);
      }
    }
  }

  /** The scan is right for every name and after every record. */
  ghost predicate AlwaysRight(log: seq<Record>, base: nat)
    requires WellFormed(log, base)
  {
    && (forall name: seq<bv8> :: Right(BestTag(log, name), Replay(log, base), name))
    && (log == [] || AlwaysRight(log[..|log| - 1], base))
  }

  /** Lookups by name are right after every record exactly when the log is orderly. */
  lemma {:induction false} OrderlyExactly(log: seq<Record>, base: nat)
    requires WellFormed(log, base) && NamesOk(log)
    ensures Orderly(log, base) <==> AlwaysRight(log, base)
  {
    hide IsSplice, IsName, NameOk, Tidy, MatchStep, Fits, Apply, Right;
    if log != [] {
      var older, e := log[..|log| - 1], log[|log| - 1];
      OrderlyExactly(older, base);
      if Orderly(older, base) && !Tidy(Replay(older, base), e) {
        var name := UntidyWrong(older, base, e);
        assert !Right(BestTag(log, name), Replay(log, base), name);
      }
    }
    if Orderly(log, base) {
      forall name: seq<bv8>
        ensures Right(BestTag(log, name), Replay(log, base), name)
      {
        ScanTracks(log, base, name);
      }
    }
  }

  /** A log that is well formed and whose entries have different names, but not in order: the scan loses
      the entry that goes by "b" when "c" is created before it. */
  lemma OrderMatters()
    ensures
      var b, c := Record(Tag(0x001, 0, 1), [98]), Record(Tag(0x001, 0, 1), [99]);
      var create := Record(Tag(CREATE, 0, 0), []);
      var log := [create, b, create, c];
      && WellFormed(log, 0) && NamesOk(log) && !Orderly(log, 0)
      && Replay(log, 0) == [[AttrOf(c)], [AttrOf(b)]] && !Found(BestTag(log, [98]), 1)
  {
    var b, c := Record(Tag(0x001, 0, 1), [98]), Record(Tag(0x001, 0, 1), [99]);
    var create := Record(Tag(CREATE, 0, 0), []);
    var log := [create, b, create, c];
    assert log[..3] == [create, b, create] && log[..3][..2] == [create, b] && log[..2][..1] == [create]
      && log[..1][..0] == [];
    OrderMattersReplay(create, b, c);
    OrderMattersScan(create, b, c);
    assert NameOf([AttrOf(b)]) == Some(AttrOf(b)) by { assert [AttrOf(b)][..0] == []; }
    assert Goes(Replay(log, 0)[1], [98]);
    LostNotOrderly(log, 0, [98], 1);
  }

  lemma LostNotOrderly(log: seq<Record>, base: nat, name: seq<bv8>, k: nat)
    requires WellFormed(log, base) && NamesOk(log) && k < Count(log, base)
    requires Goes(Replay(log, base)[k], name) && !Found(BestTag(log, name), k)
    ensures !Orderly(log, base)
  {
    hide Goes, Orderly, Replay, BestTag;
    if Orderly(log, base) {
      ScanTracks(log, base, name);
    }
  }

  lemma OrderMattersReplay(create: Record, b: Record, c: Record)
    requires create == Record(Tag(CREATE, 0, 0), []) && b.tag == c.tag == Tag(0x001, 0, 1)
    ensures WellFormed([create, b, create, c], 0) && Replay([create, b, create, c], 0) == [[AttrOf(c)], [AttrOf(b)]]
  {
    hide WellFormed, Replay, Apply, Fits, Count;
    OrderMattersApply(create, b, c);
    ReplayStart();
    ReplayMore([], 0, create);
    assert [] + [create] == [create];
    ReplayMore([create], 0, b);
    assert [create] + [b] == [create, b];
    ReplayMore([create, b], 0, create);
    assert [create, b] + [create] == [create, b, create];
    ReplayMore([create, b, create], 0, c);
    assert [create, b, create] + [c] == [create, b, create, c];
  }

  lemma ReplayStart()
    ensures WellFormed([], 0) && Replay([], 0) == []
  {
  }

  lemma OrderMattersApply(create: Record, b: Record, c: Record)
    requires create == Record(Tag(CREATE, 0, 0), []) && b.tag == c.tag == Tag(0x001, 0, 1)
    ensures Fits(create.tag, 0) && Apply([], create) == [[]] && Fits(b.tag, 1) && Apply([[]], b) == [[AttrOf(b)]]
    ensures Fits(create.tag, 1) && Apply([[AttrOf(b)]], create) == [[], [AttrOf(b)]]
    ensures Fits(c.tag, 2) && Apply([[], [AttrOf(b)]], c) == [[AttrOf(c)], [AttrOf(b)]]
  {
    assert [] + [AttrOf(b)] == [AttrOf(b)] && [] + [AttrOf(c)] == [AttrOf(c)];
  }

  lemma ReplayMore(log: seq<Record>, base: nat, e: Record)
    requires WellFormed(log, base) && Fits(e.tag, Count(log, base))
    ensures WellFormed(log + [e], base) && Replay(log + [e], base) == Apply(Replay(log, base), e)
  {
    hide Fits, Apply;
    assert (log + [e])[..|log|] == log;
  }

  lemma OrderMattersScan(create: Record, b: Record, c: Record)
    requires create == Record(Tag(CREATE, 0, 0), []) && b == Record(Tag(0x001, 0, 1), [98])
      && c == Record(Tag(0x001, 0, 1), [99])
    ensures BestTag([create, b, create, c], [98]) == Best(0x001, 0, false)
  {
    hide MatchStep;
    ScanMore([], create, [98]);
    assert [] + [create] == [create];
    ScanMore([create], b, [98]);
    assert [create] + [b] == [create, b];
    ScanMore([create, b], create, [98]);
    assert [create, b] + [create] == [create, b, create];
    ScanMore([create, b, create], c, [98]);
    assert [create, b, create] + [c] == [create, b, create, c];
    OrderMattersSteps(create, b, c);
  }

  lemma ScanMore(log: seq<Record>, e: Record, name: seq<bv8>)
    ensures BestTag(log + [e], name) == MatchStep(BestTag(log, name), e, name)
  {
    hide MatchStep;
    assert (log + [e])[..|log|] == log;
  }

  lemma OrderMattersSteps(create: Record, b: Record, c: Record)
    requires create == Record(Tag(CREATE, 0, 0), []) && b == Record(Tag(0x001, 0, 1), [98])
      && c == Record(Tag(0x001, 0, 1), [99])
    ensures MatchStep(NoBest, create, [98]) == NoBest && MatchStep(NoBest, b, [98]) == Best(0x001, 0, true)
    ensures MatchStep(Best(0x001, 0, true), create, [98]) == Best(0x001, 1, true)
    ensures MatchStep(Best(0x001, 1, true), c, [98]) == Best(0x001, 0, false)
  {
    MatchEqual([98], [98]);
    MatchByte([98], [99]);
  }

  // ---- how many entries the scan counts ----

  /** Names of files, of directories and of the superblock. */
  predicate IsNameKind(t: Tag) {
    t.ty & 0x700 == 0
  }

  /** One tag of the count: entries come with their names, and with splices. */
  function CountStep(n: int, t: Tag): int {
    if IsNameKind(t) then (if t.id >= n then t.id + 1 else n)
    else if IsSplice(t) then n + SpliceOf(t)
    else n
  }

  function NameCount(log: seq<Record>): int {
    if log == [] then 0 else CountStep(NameCount(log[..|log| - 1]), log[|log| - 1].tag)
  }

  /** The entry has a name of some kind in the log. */
  predicate Mentioned(log: seq<Record>, id: int) {
    exists k | 0 <= k < |log| :: IsNameKind(log[k].tag) && log[k].tag.id == id
  }

  predicate NoSplices(log: seq<Record>) {
    forall k | 0 <= k < |log| :: !IsSplice(log[k].tag)
  }

  predicate KindsOk(log: seq<Record>) {
    forall k | 0 <= k < |log| :: IsNameKind(log[k].tag) ==> log[k].tag.id != NO_ID
  }

  lemma KindFacts(t: Tag)
    ensures IsNameKind(t) ==> !IsSplice(t)
    ensures IsSplice(t) ==> t.ty != 0
    ensures t.ty == CREATE || t.ty == DELETE ==> IsSplice(t)
    ensures IsName(t) ==> IsNameKind(t)
  {
  }

  /** Without splices the count ends behind the last entry with a name. */
  lemma {:induction false} CountNamed(log: seq<Record>, base: nat)
    requires WellFormed(log, base) && NoSplices(log) && KindsOk(log)
    ensures Count(log, base) == base && 0 <= NameCount(log) <= base
    ensures forall id | 0 <= id < base && Mentioned(log, id) :: id < NameCount(log)
  {
    hide IsSplice, IsNameKind;
    if log != [] {
      var older, e := log[..|log| - 1], log[|log| - 1];
      CountNamed(older, base);
      KindFacts(e.tag);
      forall id | 0 <= id < base && Mentioned(log, id)
        ensures id < NameCount(log)
      {
        var k :| 0 <= k < |log| && IsNameKind(log[k].tag) && log[k].tag.id == id;
        if k < |older| {
          assert older[k] == log[k];
          assert Mentioned(older, id);
        }
      }
    }
  }

  /** The count of a directory every entry of which has a name, and of what is committed to it, is the
      number of its entries. */
  lemma {:induction false} CountRight(log: seq<Record>, more: seq<Record>, base: nat)
    requires WellFormed(log + more, base) && NoSplices(log) && KindsOk(log + more)
    requires forall id | 0 <= id < base :: Mentioned(log, id)
    ensures NameCount(log + more) == Count(log + more, base)
    decreases |more|
  {
    hide IsSplice, IsNameKind, Mentioned;
    if more == [] {
      assert log + more == log;
      CountNamed(log, base);
      if base > 0 {
        assert Mentioned(log, base - 1);
      }
    } else {
      var all, e := log + more, more[|more| - 1];
      assert all[..|all| - 1] == log + more[..|more| - 1] && all[|all| - 1] == e;
      KindsPart(all, |all| - 1);
      CountRight(log, more[..|more| - 1], base);
      KindFacts(e.tag);
      FitsCount(e.tag, Count(log + more[..|more| - 1], base));
    }
  }

  lemma KindsPart(log: seq<Record>, n: nat)
    requires KindsOk(log) && n <= |log|
    ensures KindsOk(log[..n])
  {
    hide IsNameKind;
  }

  lemma FitsCount(t: Tag, n: int)
    requires Fits(t, n) && (IsNameKind(t) ==> t.id != NO_ID)
    ensures CountStep(n, t) == n + if t.ty == CREATE then 1 else if t.ty == DELETE then -1 else 0
  {
    hide IsNameKind, IsSplice;
    KindFacts(t);
  }

  // ---- the result of the fetch ----

  /** What lfs_dir_fetchmatch returns: the id of the match; otherwise the place the name would have, and
      whether that is within this pair or the search goes on in the next one of the directory. */
  datatype Outcome = Hit(id: int) | NoEntry(place: int) | Elsewhere(place: int)

  /** The pending move of an entry of this pair, put on top of what was found. */
  function Synthetic(b: Best, move: Option<int>): Best {
    if move == None || b == NoBest then b
    else if move.value == b.id then b.(valid := false)
    else if move.value < b.id then b.(id := b.id - 1)
    else b
  }

  function FetchMatch(log: seq<Record>, name: seq<bv8>, move: Option<int>): Outcome {
    var b, count := Synthetic(BestTag(log, name), move), NameCount(log);
    if b.Best? && b.valid then Hit(b.id)
    else if BestId(b) < count then NoEntry(Min(BestId(b), count))
    else Elsewhere(Min(BestId(b), count))
  }

  /** The entries of a pair without the one that is about to be moved away. */
  function Without(entries: seq<seq<Attr>>, move: Option<int>): seq<seq<Attr>> {
    if move.Some? && 0 <= move.value < |entries| then entries[..move.value] + entries[move.value + 1..] else entries
  }

  /** The fetch finds entry id exactly when that is what goes by the name, a pending move counted in. */
  lemma FetchExact(log: seq<Record>, base: nat, name: seq<bv8>, move: Option<int>, id: int)
    requires WellFormed(log, base) && NamesOk(log) && Orderly(log, base)
    requires move.Some? ==> 0 <= move.value < Count(log, base)
    ensures
      var view := Without(Replay(log, base), move);
      FetchMatch(log, name, move) == Hit(id) <==> 0 <= id < |view| && Goes(view[id], name)
  {
    hide Orderly, Goes, NameCount, BestTag;
    var entries, view, b := Replay(log, base), Without(Replay(log, base), move), BestTag(log, name);
    ScanTracks(log, base, name);
    if 0 <= id < |view| {
      var k := if move.Some? && move.value <= id then id + 1 else id;
      assert view[id] == entries[k];
    } else if b.Best? && b.valid && move.Some? {
      assert Goes(entries[b.id], name) by { assert Found(b, b.id); }
    }
  }
}
