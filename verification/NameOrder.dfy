/** Directories kept sorted by name: what commits have to observe, that lookups by name then stay right, and
    that a lookup which finds nothing tells the place that keeps the directory sorted. */
module NameOrder {
  import opened LfsBase
  import opened TagLog
  import opened NameMatch

  /** The name of every entry of a directory, where it has one. */
  type Names = seq<Option<Attr>>

  function NamesOf(entries: seq<seq<Attr>>): (ns: Names)
    ensures |ns| == |entries|
  {
    seq(|entries|, k requires 0 <= k < |entries| => NameOf(entries[k]))
  }

  /** The names after one more record. */
  function ApplyName(ns: Names, e: Record): (after: Names)
    requires Fits(e.tag, |ns|)
  {
    if e.tag.ty == CREATE then ns[..e.tag.id] + [None] + ns[e.tag.id..]
    else if e.tag.ty == DELETE then ns[..e.tag.id] + ns[e.tag.id + 1..]
    else if IsName(e.tag) && e.tag.id < |ns| then ns[e.tag.id := Some(AttrOf(e))]
    else ns
  }

  lemma NamesApply(entries: seq<seq<Attr>>, e: Record)
    requires Fits(e.tag, |entries|) && |entries| < NO_ID && NameOk(e)
    ensures NamesOf(Apply(entries, e)) == ApplyName(NamesOf(entries), e)
  {
    hide IsSplice, IsName, NameOf, NameOk;
    NameFacts(e.tag);
    var after := Apply(entries, e);
    assert |after| == |ApplyName(NamesOf(entries), e)|;
    forall k | 0 <= k < |after|
      ensures NameOf(after[k]) == ApplyName(NamesOf(entries), e)[k]
    {
      NameAfter(entries, e, k);
    }
  }

  /** One name sorts before another. */
  predicate Less(a: seq<bv8>, b: seq<bv8>) {
    FindMatch(b, a) == LT
  }

  predicate Sorted(ns: Names) {
    forall j, k | 0 <= j < k < |ns| && ns[j].Some? && ns[k].Some? :: Less(ns[j].value.data, ns[k].value.data)
  }

  /** The entries from lo on have names; before lo there is only the superblock. */
  predicate AllNamed(ns: Names, lo: nat) {
    forall k | 0 <= k < |ns| :: ns[k].Some? <==> lo <= k
  }

  /** The place of a name: smaller names before it, greater ones behind. */
  predicate FitsAt(ns: Names, id: int, name: seq<bv8>) {
    forall k | 0 <= k < |ns| && k != id && ns[k].Some? ::
      if k < id then Less(ns[k].value.data, name) else Less(name, ns[k].value.data)
  }

  predicate Created(prev: Option<Record>, id: int) {
    prev.Some? && prev.value.tag == Tag(CREATE, id, 0)
  }

  /** A record of a sorted directory. Names go to entries without one, at their place: right behind the
      creation of the entry, or in a compacted log, that has no splices; created and deleted are entries
      from lo on, when all of those have names. */
  predicate Proper(first: bool, prev: Option<Record>, ns: Names, e: Record, lo: nat) {
    && NameOk(e)
    && (IsNameKind(e.tag) ==>
          && 0 <= e.tag.id < |ns| && e.tag.size != REMOVED
          && (IsName(e.tag) <==> lo <= e.tag.id)
          && (lo <= e.tag.id ==>
                ns[e.tag.id] == None && FitsAt(ns, e.tag.id, e.data) && (first || Created(prev, e.tag.id))))
    && (IsSplice(e.tag) ==> lo <= e.tag.id && e.tag.size == 0 && AllNamed(ns, lo))
  }

  function Last(log: seq<Record>): Option<Record> {
    if log == [] then None else Some(log[|log| - 1])
  }

  /** The log of a directory that has been kept sorted from the first record on. */
  predicate Disciplined(log: seq<Record>, base: nat, lo: nat)
    requires WellFormed(log, base)
  {
    if log == [] then lo <= base
    else
      var older, e := log[..|log| - 1], log[|log| - 1];
      Disciplined(older, base, lo) && Proper(NoSplices(older), Last(older), NamesOf(Replay(older, base)), e, lo)
  }

  // ---- sorted directories are orderly ----

  lemma LessOrder(a: seq<bv8>, b: seq<bv8>)
    ensures Less(a, b) ==> a != b && FindMatch(a, b) == GT && !Less(b, a)
  {
    hide FindMatch;
    MatchEqual(a, b);
    MatchEqual(b, a);
    MatchFlip(b, a);
  }

  lemma ProperTidy(first: bool, prev: Option<Record>, entries: seq<seq<Attr>>, e: Record, lo: nat)
    requires Proper(first, prev, NamesOf(entries), e, lo)
    ensures Tidy(entries, e)
  {
    hide FindMatch, NameOf, IsSplice, Agree, Less, IsNameKind;
    NameFacts(e.tag);
    KindFacts(e.tag);
    var ns := NamesOf(entries);
    if IsName(e.tag) {
      forall k | 0 <= k < |entries| && NameOf(entries[k]).Some?
        ensures Compatible(k, NameOf(entries[k]).value, e)
      {
        assert ns[k] == NameOf(entries[k]);
        var a := NameOf(entries[k]).value.data;
        LessIs(a, e.data);
        LessIs(e.data, a);
        LessOrder(a, e.data);
        LessOrder(e.data, a);
      }
    }
  }

  lemma LessIs(a: seq<bv8>, b: seq<bv8>)
    ensures Less(a, b) <==> FindMatch(b, a) == LT
  {
  }

  /** One more proper record keeps the names sorted. */
  lemma SortedAfter(first: bool, prev: Option<Record>, ns: Names, e: Record, lo: nat)
    requires Proper(first, prev, ns, e, lo) && Fits(e.tag, |ns|) && Sorted(ns)
    ensures Sorted(ApplyName(ns, e))
  {
    hide Less, IsSplice, NameOk, IsNameKind, IsName;
    NameFacts(e.tag);
    KindFacts(e.tag);
  }

  lemma {:induction false} DisciplinedFacts(log: seq<Record>, base: nat, lo: nat)
    requires WellFormed(log, base) && Disciplined(log, base, lo)
    ensures NamesOk(log) && KindsOk(log) && Orderly(log, base) && Sorted(NamesOf(Replay(log, base)))
    ensures lo <= base
  {
    hide Proper, Sorted, Tidy, NameOk, IsNameKind, Fits, Apply, ApplyName;
    if log == [] {
      NoNames(base);
    } else {
      var older, e := log[..|log| - 1], log[|log| - 1];
      DisciplinedFacts(older, base, lo);
      var entries := Replay(older, base);
      ProperOk(NoSplices(older), Last(older), NamesOf(entries), e, lo);
      ProperTidy(NoSplices(older), Last(older), entries, e, lo);
      SortedAfter(NoSplices(older), Last(older), NamesOf(entries), e, lo);
      NamesApply(entries, e);
    }
  }

  lemma ProperOk(first: bool, prev: Option<Record>, ns: Names, e: Record, lo: nat)
    requires Proper(first, prev, ns, e, lo) && |ns| < NO_ID
    ensures NameOk(e) && (IsNameKind(e.tag) ==> e.tag.id != NO_ID)
  {
  }

  lemma NoNames(base: nat)
    requires base < NO_ID
    ensures Sorted(NamesOf(Replay([], base))) && forall k | 0 <= k < base :: NamesOf(Replay([], base))[k] == None
  {
    hide Agree;
  }

  // ---- where a name would go ----

  /** The best tag is at the place of the name: smaller names before it, none from it on. */
  predicate AtPlace(b: Best, ns: Names, name: seq<bv8>, lo: nat) {
    && (b.Best? ==> lo <= b.id <= |ns|)
    && forall k | 0 <= k < |ns| && ns[k].Some? :: Less(ns[k].value.data, name) <==> k < BestId(b)
  }

  /** Besides, it is not at an entry that can be given a name next. */
  predicate Aside(first: bool, prev: Option<Record>, b: Best, ns: Names) {
    b.Best? ==> (first ==> 0 <= b.id < |ns| && ns[b.id].Some?) && !Created(prev, b.id)
  }

  lemma LessTrans(a: seq<bv8>, b: seq<bv8>, c: seq<bv8>)
    ensures Less(a, b) && Less(b, c) ==> Less(a, c)
  {
    hide FindMatch;
    LessIs(a, b);
    LessIs(b, c);
    LessIs(a, c);
    if Less(a, b) && Less(b, c) {
      MatchTrans(a, b, c);
    }
  }

  /** A name at its place moves the best tag to the place of the one looked for. */
  lemma PlaceName(first: bool, prev: Option<Record>, b: Best, ns: Names, e: Record, name: seq<bv8>, lo: nat)
    requires Proper(first, prev, ns, e, lo) && |ns| < NO_ID && Sorted(ns) && IsName(e.tag) && Fits(e.tag, |ns|)
    requires AtPlace(b, ns, name, lo) && Aside(first, prev, b, ns)
    requires first || NamedBut(ns, e.tag.id, lo)
    ensures AtPlace(MatchStep(b, e, name), ApplyName(ns, e), name, lo)
    ensures first ==> Aside(first, Some(e), MatchStep(b, e, name), ApplyName(ns, e))
  {
    hide FindMatch, Agree, IsSplice, Less, IsNameKind;
    NameFacts(e.tag);
    KindFacts(e.tag);
    MatchEqual(name, e.data);
    LessIs(e.data, name);
    MatchFlip(e.data, name);
    LessIs(name, e.data);
    forall k | 0 <= k < |ns| && ns[k].Some?
      ensures Less(ns[k].value.data, e.data) && Less(e.data, name) ==> Less(ns[k].value.data, name)
      ensures Less(name, e.data) && Less(e.data, ns[k].value.data) ==> !Less(ns[k].value.data, name)
      ensures Less(e.data, ns[k].value.data) ==> !Less(ns[k].value.data, e.data)
    {
      var a := ns[k].value.data;
      LessTrans(a, e.data, name);
      LessTrans(name, e.data, a);
      LessOrder(name, a);
      LessOrder(e.data, a);
    }
    LessOrder(name, name);
    LessOrder(e.data, name);
    if b.Best? && b.id <= e.tag.id {
      assert b.id != e.tag.id;
      assert ns[b.id].Some?;
    }
    var b', after := MatchStep(b, e, name), ApplyName(ns, e);
    assert b' == Matched(b, e.tag, FindMatch(name, e.data));
    assert !(b.Best? && b.id == e.tag.id);
    assert b'.Best? ==> lo <= b'.id <= |after|;
    forall k | 0 <= k < |after| && after[k].Some?
      ensures Less(after[k].value.data, name) <==> k < BestId(b')
    {
      if k == e.tag.id {
        assert after[k].value.data == e.data;
      } else {
        assert after[k] == ns[k];
      }
    }
  }

  /** All entries from lo on have names, but for this one. */
  predicate NamedBut(ns: Names, id: int, lo: nat) {
    forall k | lo <= k < |ns| && k != id :: ns[k].Some?
  }

  lemma PlaceSplice(first: bool, prev: Option<Record>, b: Best, ns: Names, e: Record, name: seq<bv8>, lo: nat)
    requires Proper(first, prev, ns, e, lo) && |ns| < NO_ID && IsSplice(e.tag) && Fits(e.tag, |ns|)
    requires AtPlace(b, ns, name, lo)
    ensures AtPlace(MatchStep(b, e, name), ApplyName(ns, e), name, lo)
    ensures !(MatchStep(b, e, name).Best? && Created(Some(e), MatchStep(b, e, name).id))
    ensures e.tag.ty == CREATE ==> NamedBut(ApplyName(ns, e), e.tag.id, lo)
    ensures e.tag.ty == DELETE ==> AllNamed(ApplyName(ns, e), lo)
  {
    hide FindMatch, Agree, Less, IsNameKind;
    NameFacts(e.tag);
    KindFacts(e.tag);
  }

  /** What holds of the best tag and of the count after every record of a disciplined log. */
  predicate Placed(log: seq<Record>, ns: Names, b: Best, name: seq<bv8>, lo: nat) {
    && |ns| >= lo
    && AtPlace(b, ns, name, lo)
    && Aside(NoSplices(log), Last(log), b, ns)
    && forall id | lo <= id < |ns| && Created(Last(log), id) :: NamedBut(ns, id, lo)
  }

  lemma SplicesAfter(log: seq<Record>)
    requires log != []
    ensures NoSplices(log) <==> NoSplices(log[..|log| - 1]) && !IsSplice(log[|log| - 1].tag)
  {
    hide IsSplice;
  }

  lemma PlacedStep(older: seq<Record>, e: Record, log: seq<Record>, ns: Names, b: Best, name: seq<bv8>, lo: nat)
    requires log != [] && older == log[..|log| - 1] && e == log[|log| - 1] && |ns| < NO_ID && Fits(e.tag, |ns|)
    requires Proper(NoSplices(older), Last(older), ns, e, lo) && Sorted(ns) && Placed(older, ns, b, name, lo)
    ensures Placed(log, ApplyName(ns, e), MatchStep(b, e, name), name, lo)
  {
    hide AtPlace, IsSplice, IsName, IsNameKind, NameOk, Sorted, FitsAt, NamedBut, MatchStep, NoSplices, AllNamed;
    SplicesAfter(log);
    NameFacts(e.tag);
    KindFacts(e.tag);
    if IsName(e.tag) {
      PlaceName(NoSplices(older), Last(older), b, ns, e, name, lo);
    } else if IsSplice(e.tag) {
      PlaceSplice(NoSplices(older), Last(older), b, ns, e, name, lo);
      DeletedFrom(ns, e, lo);
    } else {
      PlaceOther(b, e, name);
    }
  }

  lemma PlaceOther(b: Best, e: Record, name: seq<bv8>)
    requires !IsName(e.tag) && !IsSplice(e.tag)
    ensures MatchStep(b, e, name) == b
  {
  }

  lemma DeletedFrom(ns: Names, e: Record, lo: nat)
    requires IsSplice(e.tag) && Fits(e.tag, |ns|) && lo <= e.tag.id
    ensures |ApplyName(ns, e)| >= lo
    ensures e.tag.ty != CREATE ==> !Created(Some(e), e.tag.id)
  {
    hide IsSplice;
  }

  lemma {:induction false} PlaceScan(log: seq<Record>, base: nat, name: seq<bv8>, lo: nat)
    requires WellFormed(log, base) && Disciplined(log, base, lo)
    ensures Placed(log, NamesOf(Replay(log, base)), BestTag(log, name), name, lo)
  {
    hide Proper, Sorted, Orderly, Placed, MatchStep, Fits, Apply, ApplyName;
    if log == [] {
      NoNames(base);
      PlacedNothing(NamesOf(Replay(log, base)), name, lo);
    } else {
      var older, e := log[..|log| - 1], log[|log| - 1];
      var entries := Replay(older, base);
      PlaceScan(older, base, name, lo);
      DisciplinedFacts(older, base, lo);
      ProperOk(NoSplices(older), Last(older), NamesOf(entries), e, lo);
      PlacedStep(older, e, log, NamesOf(entries), BestTag(older, name), name, lo);
      NamesApply(entries, e);
    }
  }

  lemma PlacedNothing(ns: Names, name: seq<bv8>, lo: nat)
    requires lo <= |ns| && forall k | 0 <= k < |ns| :: ns[k] == None
    ensures Placed([], ns, NoBest, name, lo)
  {
  }

  // ---- the count of a disciplined log ----

  predicate Counted(n: int, ns: Names, mentioned: bool, lo: nat) {
    && 0 <= n <= |ns| && lo <= |ns| && (mentioned ==> lo <= n)
    && forall k | lo <= k < |ns| && ns[k].Some? :: k < n
  }

  lemma CountedStep(first: bool, prev: Option<Record>, n: int, ns: Names, mentioned: bool, e: Record, lo: nat)
    requires Proper(first, prev, ns, e, lo) && Fits(e.tag, |ns|) && Counted(n, ns, mentioned, lo)
    ensures
      var now := mentioned || (IsNameKind(e.tag) && e.tag.id == lo - 1);
      Counted(CountStep(n, e.tag), ApplyName(ns, e), now, lo)
  {
    hide FitsAt, Agree, IsSplice, IsNameKind, NameOk;
    NameFacts(e.tag);
    KindFacts(e.tag);
    if IsSplice(e.tag) && e.tag.ty == DELETE {
      assert ns[|ns| - 1].Some?;
    }
  }

  lemma MentionedAfter(log: seq<Record>, id: int)
    requires log != []
    ensures Mentioned(log, id) <==>
      Mentioned(log[..|log| - 1], id) || (IsNameKind(log[|log| - 1].tag) && log[|log| - 1].tag.id == id)
  {
    hide IsNameKind;
    var older := log[..|log| - 1];
    if Mentioned(older, id) {
      var k :| 0 <= k < |older| && IsNameKind(older[k].tag) && older[k].tag.id == id;
      assert log[k] == older[k];
    }
    if Mentioned(log, id) {
      var k :| 0 <= k < |log| && IsNameKind(log[k].tag) && log[k].tag.id == id;
      if k < |older| {
        assert older[k] == log[k];
      }
    }
  }

  lemma {:induction false} CountDisciplined(log: seq<Record>, base: nat, lo: nat)
    requires WellFormed(log, base) && Disciplined(log, base, lo)
    ensures Counted(NameCount(log), NamesOf(Replay(log, base)), Mentioned(log, lo - 1), lo)
  {
    hide Proper, Sorted, Orderly, Counted, CountStep, Fits, Apply, ApplyName, Mentioned, IsNameKind;
    if log == [] {
      NoNames(base);
      CountedNothing(NamesOf(Replay(log, base)), lo);
    } else {
      var older, e := log[..|log| - 1], log[|log| - 1];
      var entries := Replay(older, base);
      CountDisciplined(older, base, lo);
      DisciplinedFacts(older, base, lo);
      ProperOk(NoSplices(older), Last(older), NamesOf(entries), e, lo);
      CountedStep(NoSplices(older), Last(older), NameCount(older), NamesOf(entries), Mentioned(older, lo - 1), e, lo);
      MentionedAfter(log, lo - 1);
      NamesApply(entries, e);
    }
  }

  lemma CountedNothing(ns: Names, lo: nat)
    requires lo <= |ns| && forall k | 0 <= k < |ns| :: ns[k] == None
    ensures Counted(0, ns, Mentioned([], lo - 1), lo)
  {
  }

  /** The superblock, which is the last entry before lo, has its name. */
  predicate SuperNamed(log: seq<Record>, lo: nat) {
    lo > 0 ==> Lookup(log, 0x700, 0, lo - 1).Some?
  }

  /** A directory with a name for every entry. */
  predicate KeptSorted(log: seq<Record>, base: nat, lo: nat) {
    && WellFormed(log, base) && Disciplined(log, base, lo) && AllNamed(NamesOf(Replay(log, base)), lo)
    && SuperNamed(log, lo)
  }

  lemma {:induction false} SuperMentioned(log: seq<Record>, base: nat, lo: nat)
    requires WellFormed(log, base) && Disciplined(log, base, lo) && lo > 0 && Lookup(log, 0x700, 0, lo - 1).Some?
    ensures Mentioned(log, lo - 1)
  {
    hide IsSplice, IsNameKind, Mentioned, FitsAt, AllNamed, IsName, Agree;
    if log != [] {
      var e := log[|log| - 1];
      MentionedAfter(log, lo - 1);
      KindAgrees(e.tag);
      if !(IsNameKind(e.tag) && e.tag.id == lo - 1) {
        SuperMentioned(log[..|log| - 1], base, lo);
      }
    }
  }

  lemma KindAgrees(t: Tag)
    ensures IsNameKind(t) <==> Agree(0x700, t.ty, 0)
    ensures IsName(t) <==> Agree(NAME_MASK, t.ty, 0)
    ensures IsNameKind(t) ==> !IsSplice(t) && t.ty != CREATE && t.ty != DELETE
  {
  }

  /** The fetch counts the entries. */
  lemma CountKept(log: seq<Record>, base: nat, lo: nat)
    requires KeptSorted(log, base, lo)
    ensures NameCount(log) == Count(log, base)
  {
    hide Disciplined, Mentioned;
    CountDisciplined(log, base, lo);
    if lo > 0 {
      SuperMentioned(log, base, lo);
    }
    var ns := NamesOf(Replay(log, base));
    if |ns| > lo {
      assert ns[|ns| - 1].Some?;
    }
  }

  lemma LessTotal(a: seq<bv8>, b: seq<bv8>)
    ensures Less(a, b) || a == b || Less(b, a)
  {
    hide FindMatch;
    LessIs(a, b);
    LessIs(b, a);
    MatchEqual(b, a);
    MatchFlip(a, b);
  }

  /** Names before the place are smaller, those from it on greater. */
  predicate PlaceOf(ns: Names, place: int, name: seq<bv8>) {
    && 0 <= place <= |ns|
    && forall k | 0 <= k < |ns| && ns[k].Some? ::
         if k < place then Less(ns[k].value.data, name) else Less(name, ns[k].value.data)
  }

  predicate GoesAt(ns: Names, id: int, name: seq<bv8>) {
    0 <= id < |ns| && ns[id].Some? && ns[id].value.data == name
  }

  /** The names without that of the entry about to be moved away. */
  function NamesBut(ns: Names, move: Option<int>): Names {
    if move.Some? && 0 <= move.value < |ns| then ns[..move.value] + ns[move.value + 1..] else ns
  }

  /** The names behind it move up by one. */
  lemma ButAt(ns: Names, move: Option<int>)
    requires move.Some? ==> 0 <= move.value < |ns|
    ensures
      var but := NamesBut(ns, move);
      && |but| == |ns| - (if move.Some? then 1 else 0)
      && forall k | 0 <= k < |but| :: but[k] == ns[if move.Some? && move.value <= k then k + 1 else k]
  {
  }

  lemma NamesWithout(entries: seq<seq<Attr>>, move: Option<int>)
    ensures NamesOf(Without(entries, move)) == NamesBut(NamesOf(entries), move)
  {
    hide NameOf;
  }

  /** What the pending move makes of the best tag at its place. */
  lemma PlaceBut(ns: Names, b: Best, name: seq<bv8>, lo: nat, move: Option<int>)
    requires AtPlace(b, ns, name, lo) && lo <= |ns| < NO_ID && (move.Some? ==> lo <= move.value < |ns|)
    requires forall k | 0 <= k < |ns| && ns[k].Some? :: ns[k].value.data == name <==> Found(b, k)
    requires b.Best? && b.valid ==> GoesAt(ns, b.id, name)
    ensures
      var s, but := Synthetic(b, move), NamesBut(ns, move);
      if s.Best? && s.valid then lo <= s.id && GoesAt(but, s.id, name)
      else if BestId(s) < |ns|
      then lo <= s.id && PlaceOf(but, s.id, name) && (move == None ==> s.id < |but|)
      else lo <= |ns| && PlaceOf(ns, |ns|, name) && PlaceOf(but, |but|, name)
  {
    hide Less, NamesBut;
    forall k | 0 <= k < |ns| && ns[k].Some?
      ensures Less(ns[k].value.data, name) || ns[k].value.data == name || Less(name, ns[k].value.data)
    {
      LessTotal(ns[k].value.data, name);
    }
    var s, but := Synthetic(b, move), NamesBut(ns, move);
    ButAt(ns, move);
    forall k | 0 <= k < |but| && but[k].Some?
      ensures if k < BestId(s) then Less(but[k].value.data, name) else
        Less(name, but[k].value.data) || (s.Best? && s.valid && s.id == k && but[k].value.data == name)
    {
      var i := if move.Some? && move.value <= k then k + 1 else k;
      assert but[k] == ns[i];
    }
    if s.Best? && s.valid {
      assert but[s.id] == ns[b.id];
    }
  }

  /** In a kept directory the fetch finds the entry that goes by the name, an entry that is about to be moved
      away left out. When it finds none it reports the place where the name keeps the others sorted, and that
      the search goes on only when all names, that of the moved entry among them, are smaller. */
  lemma FetchPlace(log: seq<Record>, base: nat, name: seq<bv8>, lo: nat, move: Option<int>)
    requires KeptSorted(log, base, lo)
    requires move.Some? ==> lo <= move.value < Count(log, base)
    ensures
      var all := NamesOf(Replay(log, base));
      var ns := NamesOf(Without(Replay(log, base), move));
      match FetchMatch(log, name, move)
      case Hit(id) => lo <= id && GoesAt(ns, id, name)
      case NoEntry(place) => lo <= place && PlaceOf(ns, place, name) && (move == None ==> place < |ns|)
      case Elsewhere(place) => lo <= place == |all| && PlaceOf(all, place, name) && PlaceOf(ns, |ns|, name)
  {
    hide Disciplined, Mentioned, Less, FindMatch, NameOf, Orderly, BestTag, Sorted, PlaceOf, NamesBut, AtPlace;
    var entries := Replay(log, base);
    var ns, b := NamesOf(entries), BestTag(log, name);
    DisciplinedFacts(log, base, lo);
    CountKept(log, base, lo);
    PlaceScan(log, base, name, lo);
    ScanTracks(log, base, name);
    NamesWithout(entries, move);
    forall k | 0 <= k < |ns| && ns[k].Some?
      ensures ns[k].value.data == name <==> Found(b, k)
    {
      assert Goes(entries[k], name) <==> Found(b, k);
    }
    if b.Best? && b.valid {
      assert Goes(entries[b.id], name) by { assert Found(b, b.id); }
    }
    PlaceBut(ns, b, name, lo, move);
  }

  /** With a move pending the search ends here for every name but those of which no greater one has been seen
      in the log. It is wrong to end exactly when the best tag lies behind the last entry, which is where it
      is left when that was deleted: then all names are smaller, and the name may be in the next pair. */
  lemma SearchEnds(log: seq<Record>, base: nat, name: seq<bv8>, lo: nat, move: Option<int>)
    requires KeptSorted(log, base, lo) && !FetchMatch(log, name, move).Hit?
    requires move.Some? ==> lo <= move.value < Count(log, base)
    ensures
      var all := NamesOf(Replay(log, base));
      (FetchMatch(log, name, move).Elsewhere? <==> PlaceOf(all, |all|, name))
        <==> !(move.Some? && BestId(BestTag(log, name)) == Count(log, base))
  {
    hide Disciplined, Mentioned, Less, Orderly, BestTag, Sorted, NamesOf;
    var ns, b := NamesOf(Replay(log, base)), BestTag(log, name);
    CountKept(log, base, lo);
    PlaceScan(log, base, name, lo);
    if BestId(b) < |ns| {
      assert ns[BestId(b)].Some?;
      LessTotal(ns[BestId(b)].value.data, name);
    }
  }

  /** Such a directory, of the entries "a" and "c" of which "c" was deleted: the search for "b" goes on, but
      not while "a" is about to be moved away. */
  lemma EndsEarly()
    ensures
      var a, c, gone := Record(Tag(0x001, 0, 1), [97]), Record(Tag(0x001, 1, 1), [99]), Record(Tag(DELETE, 1, 0), []);
      var log := [a, c, gone];
      && KeptSorted(log, 2, 0) && Count(log, 2) == 1
      && FetchMatch(log, [98], None) == Elsewhere(1) && FetchMatch(log, [98], Some(0)) == NoEntry(0)
  {
    hide Disciplined, BestTag, NameCount, Replay, WellFormed, Proper, MatchStep, CountStep, NamesOf, ApplyName, Fits;
    var a, c, gone := Record(Tag(0x001, 0, 1), [97]), Record(Tag(0x001, 1, 1), [99]), Record(Tag(DELETE, 1, 0), []);
    EarlyStart([98]);
    EarlyProper(a, c, gone);
    EarlySteps(a, c, gone);
    assert [] + [a] == [a] && [a] + [c] == [a, c] && [a, c] + [gone] == [a, c, gone];
    OneMore([], [None, None], a, [98]);
    OneMore([a], [Some(AttrOf(a)), None], c, [98]);
    OneMore([a, c], [Some(AttrOf(a)), Some(AttrOf(c))], gone, [98]);
  }

  lemma EarlyStart(name: seq<bv8>)
    ensures WellFormed([], 2) && Disciplined([], 2, 0) && NamesOf(Replay([], 2)) == [None, None]
    ensures BestTag([], name) == NoBest && NameCount([]) == 0
  {
    hide NameOf;
    NoNames(2);
  }

  lemma OneMore(log: seq<Record>, ns: Names, e: Record, name: seq<bv8>)
    requires WellFormed(log, 2) && Disciplined(log, 2, 0) && NamesOf(Replay(log, 2)) == ns
    requires Fits(e.tag, |ns|) && |ns| < NO_ID && Proper(NoSplices(log), Last(log), ns, e, 0)
    ensures
      var more := log + [e];
      && WellFormed(more, 2) && Disciplined(more, 2, 0) && NamesOf(Replay(more, 2)) == ApplyName(ns, e)
      && BestTag(more, name) == MatchStep(BestTag(log, name), e, name)
      && NameCount(more) == CountStep(NameCount(log), e.tag)
  {
    hide Fits, Proper, Apply, ApplyName, MatchStep, CountStep, NoSplices;
    ProperOk(NoSplices(log), Last(log), ns, e, 0);
    assert (log + [e])[..|log|] == log;
    NamesApply(Replay(log, 2), e);
  }

  lemma EarlyProper(a: Record, c: Record, gone: Record)
    requires a == Record(Tag(0x001, 0, 1), [97]) && c == Record(Tag(0x001, 1, 1), [99])
      && gone == Record(Tag(DELETE, 1, 0), [])
    ensures
      var named: Names := [Some(AttrOf(a)), Some(AttrOf(c))];
      && Fits(a.tag, 2) && Fits(c.tag, 2) && Fits(gone.tag, 2)
      && Proper(NoSplices([]), Last([]), [None, None], a, 0)
      && Proper(NoSplices([a]), Last([a]), [Some(AttrOf(a)), None], c, 0)
      && Proper(NoSplices([a, c]), Last([a, c]), named, gone, 0)
      && ApplyName([None, None], a) == [Some(AttrOf(a)), None]
      && ApplyName([Some(AttrOf(a)), None], c) == named
      && ApplyName(named, gone) == [Some(AttrOf(a))]
  {
    MatchByte([99], [97]);
    LessIs([97], [99]);
    hide FindMatch, Less;
    assert !IsSplice(a.tag) && !IsSplice(c.tag) && IsSplice(gone.tag);
  }

  lemma EarlySteps(a: Record, c: Record, gone: Record)
    requires a == Record(Tag(0x001, 0, 1), [97]) && c == Record(Tag(0x001, 1, 1), [99])
      && gone == Record(Tag(DELETE, 1, 0), [])
    ensures MatchStep(NoBest, a, [98]) == NoBest && MatchStep(NoBest, c, [98]) == Best(0x001, 1, false)
    ensures MatchStep(Best(0x001, 1, false), gone, [98]) == Best(0x001, 1, false)
    ensures CountStep(0, a.tag) == 1 && CountStep(1, c.tag) == 2 && CountStep(2, gone.tag) == 1
  {
    MatchByte([98], [97]);
    MatchByte([98], [99]);
    hide FindMatch;
  }
}
