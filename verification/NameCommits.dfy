/** Commits and compactions of directories kept sorted by name: every lookup by name stays right over all
    runs, power losses included. */
module NameCommits {
  import opened LfsBase
  import opened TagLog
  import opened Compaction
  import opened NameMatch
  import opened NameOrder
  import M = MetadataPair

  // ---- what a commit has to observe ----

  /** Attributes that keep a directory sorted and leave no entry without a name. */
  predicate Steady(prev: Option<Record>, ns: Names, attrs: seq<Record>, lo: nat)
    decreases |attrs|
  {
    if attrs == [] then AllNamed(ns, lo)
    else
      && Fits(attrs[0].tag, |ns|) && Proper(false, prev, ns, attrs[0], lo)
      && Steady(Some(attrs[0]), ApplyName(ns, attrs[0]), attrs[1..], lo)
  }

  /** The names after a commit. */
  function Committed(prev: Option<Record>, ns: Names, attrs: seq<Record>, lo: nat): Names
    requires Steady(prev, ns, attrs, lo)
    decreases |attrs|
  {
    if attrs == [] then ns else Committed(Some(attrs[0]), ApplyName(ns, attrs[0]), attrs[1..], lo)
  }

  lemma ProperAnyway(first: bool, prev: Option<Record>, last: Option<Record>, ns: Names, e: Record, lo: nat)
    requires Proper(false, prev, ns, e, lo) && (prev == None || prev == last)
    ensures Proper(first, last, ns, e, lo)
  {
    hide FitsAt, AllNamed, IsNameKind, IsSplice, NameOk, IsName;
  }

  lemma SuperKept(log: seq<Record>, e: Record, first: bool, prev: Option<Record>, ns: Names, lo: nat)
    requires SuperNamed(log, lo) && Proper(first, prev, ns, e, lo)
    ensures SuperNamed(log + [e], lo)
  {
    hide FitsAt, AllNamed, IsSplice, IsNameKind, IsName, Agree, NameOk;
    assert (log + [e])[..|log|] == log;
    KindAgrees(e.tag);
    SpliceTypes(e.tag);
  }

  lemma SpliceTypes(t: Tag)
    ensures t.ty == CREATE || t.ty == DELETE ==> IsSplice(t)
  {
  }

  /** A commit that observes them keeps the directory sorted. */
  lemma {:induction false} SteadyKept(log: seq<Record>, base: nat, lo: nat, prev: Option<Record>, attrs: seq<Record>)
    requires WellFormed(log, base) && Disciplined(log, base, lo) && SuperNamed(log, lo)
    requires Steady(prev, NamesOf(Replay(log, base)), attrs, lo) && (prev == None || prev == Last(log))
    ensures KeptSorted(log + attrs, base, lo)
    ensures NamesOf(Replay(log + attrs, base)) == Committed(prev, NamesOf(Replay(log, base)), attrs, lo)
    decreases |attrs|
  {
    hide Proper, Fits, Apply, ApplyName, AllNamed, SuperNamed, NoSplices;
    if attrs == [] {
      assert log + attrs == log;
    } else {
      var e, ns := attrs[0], NamesOf(Replay(log, base));
      var more := log + [e];
      assert more[..|log|] == log;
      ProperAnyway(NoSplices(log), prev, Last(log), ns, e, lo);
      ProperOk(NoSplices(log), Last(log), ns, e, lo);
      SuperKept(log, e, NoSplices(log), Last(log), ns, lo);
      NamesApply(Replay(log, base), e);
      SteadyKept(more, base, lo, Some(e), attrs[1..]);
      assert log + attrs == more + attrs[1..];
    }
  }

  // ---- names under the coarse and the fine lookup ----

  /** Of a sorted directory the entries from lo on answer the lookup of any kind of name with their name,
      and those before lo have none. */
  lemma {:induction false} KindNewest(log: seq<Record>, base: nat, lo: nat, id: nat)
    requires WellFormed(log, base) && Disciplined(log, base, lo) && id < Count(log, base)
    ensures lo <= id ==> Lookup(log, 0x700, 0, id) == Lookup(log, NAME_MASK, 0, id)
    ensures id < lo ==> Lookup(log, NAME_MASK, 0, id) == None
    decreases |log|
  {
    hide IsSplice, IsNameKind, FitsAt, AllNamed, IsName, Agree, NameOk, NamesOf;
    if log != [] {
      var e, older := log[|log| - 1], log[..|log| - 1];
      KindAgrees(e.tag);
      KindFacts(e.tag);
      SpliceTypes(e.tag);
      FitsSplices(e.tag, Count(older, base));
      if e.tag != Tag(CREATE, id, 0) {
        KindNewest(older, base, lo, Unspliced(e.tag, id));
      }
    }
  }

  lemma FitsSplices(t: Tag, n: int)
    requires Fits(t, n)
    ensures IsSplice(t) && t.ty == CREATE ==> t.size == 0 && SpliceOf(t) == 1 && 0 <= t.id <= n
    ensures IsSplice(t) && t.ty != CREATE ==> t.ty == DELETE && SpliceOf(t) == -1 && 0 <= t.id < n
  {
    hide IsSplice;
  }

  lemma NamesLookup(log: seq<Record>, base: nat, id: nat)
    requires WellFormed(log, base) && id < Count(log, base)
    ensures NamesOf(Replay(log, base))[id] == Lookup(log, NAME_MASK, 0, id)
  {
    hide Lookup, Newest, WellFormed;
    NameFacts(Tag(0, 0, 0));
    LookupReplays(log, base, NAME_MASK, 0, id);
  }

  // ---- compaction ----

  /** Every record that survives is one of the log's, but for its id. */
  lemma {:induction false} SurvivorOrigin(log: seq<Record>, j: nat) returns (i: nat)
    requires j < |Survivors(log)|
    ensures i < |log| && Survivors(log)[j] == Record(log[i].tag.(id := Survivors(log)[j].tag.id), log[i].data)
  {
    hide Kept, Filter, FilterAll;
    var e, older := log[|log| - 1], log[..|log| - 1];
    var before := Survivors(older);
    if j < |FilterAll(e.tag, before)| {
      var k := FilteredData(e.tag, before, j);
      i := SurvivorOrigin(older, k);
    } else {
      i := |log| - 1;
    }
  }

  lemma {:induction false} FilteredData(t: Tag, kept: seq<Record>, j: nat) returns (i: nat)
    requires j < |FilterAll(t, kept)|
    ensures i < |kept|
    ensures FilterAll(t, kept)[j] == Record(kept[i].tag.(id := FilterAll(t, kept)[j].tag.id), kept[i].data)
    decreases |kept|
  {
    hide Filter;
    FilterLast(t, kept);
    if j < |FilterAll(t, kept[..|kept| - 1])| {
      i := FilteredData(t, kept[..|kept| - 1], j);
    } else {
      i := |kept| - 1;
      SplicedTag(t, kept[i].tag);
    }
  }

  /** Of the entries from 0 on nothing is renumbered. */
  lemma {:induction false} SelectOrigin(kept: seq<Record>, end: int, j: nat) returns (i: nat)
    requires j < |Select(kept, 0, end)|
    ensures i < |kept| && Select(kept, 0, end)[j] == kept[i] && 0 <= kept[i].tag.id < end
    decreases |kept|
  {
    if j < |Select(kept[..|kept| - 1], 0, end)| {
      i := SelectOrigin(kept[..|kept| - 1], end, j);
    } else {
      i := |kept| - 1;
    }
  }

  lemma {:induction false} SelectApart(kept: seq<Record>, end: int)
    requires AllKept(kept) && NonRedundant(kept)
    ensures AllKept(Select(kept, 0, end)) && NonRedundant(Select(kept, 0, end))
    decreases |kept|
  {
    hide Kept, Supersedes;
    if kept != [] {
      var f, older := kept[|kept| - 1], kept[..|kept| - 1];
      NonRedundantOlder(kept);
      SelectApart(older, end);
      var s := Select(older, 0, end);
      if 0 <= f.tag.id < end {
        assert Record(f.tag.(id := f.tag.id - 0), f.data) == f;
        forall j | 0 <= j < |s|
          ensures !Supersedes(f.tag, s[j].tag)
        {
          var i := SelectOrigin(older, end, j);
        }
      }
    }
  }

  /** A name of a log in which nothing supersedes anything is what lookups find. */
  lemma {:induction false} OnlyName(kept: seq<Record>, i: nat)
    requires AllKept(kept) && NonRedundant(kept) && i < |kept| && IsNameKind(kept[i].tag) && !IsDelete(kept[i].tag)
    ensures Lookup(kept, 0x700, 0, kept[i].tag.id) == Some(AttrOf(kept[i]))
    decreases |kept|
  {
    hide Kept, Supersedes, Lookup, IsNameKind, Agree;
    var f := kept[|kept| - 1];
    LookupKept(kept, 0x700, 0, kept[i].tag.id);
    KindAgrees(f.tag);
    KindAgrees(kept[i].tag);
    if i < |kept| - 1 {
      NonRedundantOlder(kept);
      NamesSupersede(f.tag, kept[i].tag);
      assert !Supersedes(f.tag, kept[i].tag);
      OnlyName(kept[..|kept| - 1], i);
    }
  }

  lemma NamesSupersede(t: Tag, older: Tag)
    ensures IsNameKind(t) && IsNameKind(older) && t.id == older.id ==> Supersedes(t, older)
  {
  }

  /** Names of some kind in the log carry a name of the right size, and are not marked as removed. */
  lemma {:induction false} NameRecords(log: seq<Record>, base: nat, lo: nat, i: nat)
    requires WellFormed(log, base) && Disciplined(log, base, lo) && i < |log|
    ensures NameOk(log[i]) && (IsNameKind(log[i].tag) ==> log[i].tag.size != REMOVED)
  {
    hide FitsAt, AllNamed, IsNameKind, IsSplice, NameOk, IsName;
    if i < |log| - 1 {
      NameRecords(log[..|log| - 1], base, lo, i);
    }
  }

  /** A record of the compacted log. */
  lemma CompactRecord(log: seq<Record>, base: nat, lo: nat, i: nat)
    requires KeptSorted(log, base, lo) && RegularSplices(log) && i < |Compact(log, 0, Count(log, base))|
    ensures
      var e, ns := Compact(log, 0, Count(log, base))[i], NamesOf(Replay(log, base));
      && AllKept(Compact(log, 0, Count(log, base))) && NonRedundant(Compact(log, 0, Count(log, base)))
      && NameOk(e)
      && (IsNameKind(e.tag) ==>
            && 0 <= e.tag.id < |ns| && e.tag.size != REMOVED && (IsName(e.tag) <==> lo <= e.tag.id)
            && (lo <= e.tag.id ==> ns[e.tag.id] == Some(AttrOf(e))))
  {
    hide Lookup, Survivors, Select, Kept, WellFormed, Disciplined, Replay, IsNameKind, IsName, NameOk, SuperNamed,
         AllKept, NonRedundant, AllNamed, NamesOf;
    var n := Count(log, base);
    var c, kept := Compact(log, 0, n), Survivors(log);
    SurvivorsNonRedundant(log);
    SelectApart(kept, n);
    var k := SelectOrigin(kept, n, i);
    var o := SurvivorOrigin(log, k);
    NameRecords(log, base, lo, o);
    SameRecord(log[o], c[i]);
    if IsNameKind(c[i].tag) {
      var id := c[i].tag.id;
      OnlyName(c, i);
      KeyFacts(c[i].tag, c[i].tag, 0x700, 0);
      CompactionPreserves(log, 0, n, 0x700, 0, id);
      KindNewest(log, base, lo, id);
      NamesLookup(log, base, id);
      KindAgrees(c[i].tag);
      LookupType(log, NAME_MASK, 0, id);
      NewestFirst(log, NAME_MASK, 0, id);
      AllNamedAt(NamesOf(Replay(log, base)), lo, id);
    }
  }

  lemma AllNamedAt(ns: Names, lo: nat, id: nat)
    requires AllNamed(ns, lo) && id < |ns|
    ensures ns[id].Some? <==> lo <= id
  {
  }

  lemma SameRecord(a: Record, b: Record)
    requires b == Record(a.tag.(id := b.tag.id), a.data) && NameOk(a) && b.tag.id != NO_ID
    ensures NameOk(b) && IsNameKind(a.tag) == IsNameKind(b.tag)
    ensures IsDelete(a.tag) == IsDelete(b.tag)
  {
  }

  lemma {:induction false} LookupType(log: seq<Record>, mask: bv16, ty: bv16, id: int)
    ensures Lookup(log, mask, ty, id).Some? ==> Agree(mask, Lookup(log, mask, ty, id).value.ty, ty)
    decreases |log|
  {
    hide Agree, IsSplice;
    if log != [] {
      LookupType(log[..|log| - 1], mask, ty, Unspliced(log[|log| - 1].tag, id));
    }
  }

  /** The names that the first records of a compacted log have given so far. */
  predicate GivenSoFar(c: seq<Record>, now: Names, ns: Names) {
    && |now| == |ns|
    && forall k | 0 <= k < |now| && now[k].Some? ::
         now[k] == ns[k] && exists j :: 0 <= j < |c| && IsNameKind(c[j].tag) && c[j].tag.id == k
  }

  /** A record of a compacted log is proper where it stands. */
  lemma CompactProper(c: seq<Record>, i: nat, now: Names, ns: Names, lo: nat)
    requires i < |c| && AllKept(c) && NonRedundant(c) && Sorted(ns) && GivenSoFar(c[..i], now, ns)
    requires NameOk(c[i])
    requires IsNameKind(c[i].tag) ==>
      && 0 <= c[i].tag.id < |ns| && c[i].tag.size != REMOVED && (IsName(c[i].tag) <==> lo <= c[i].tag.id)
      && (lo <= c[i].tag.id ==> ns[c[i].tag.id] == Some(AttrOf(c[i])))
    ensures Proper(NoSplices(c[..i]), Last(c[..i]), now, c[i], lo)
  {
    hide Less, IsNameKind, IsName, NameOk, Supersedes, Kept, IsSplice;
    assert Kept(c[i].tag);
    KeptFacts(c[i].tag, c[i].tag);
    forall j | 0 <= j < i
      ensures !IsSplice(c[..i][j].tag)
    {
      assert Kept(c[j].tag);
      KeptFacts(c[j].tag, c[j].tag);
    }
    var e := c[i];
    if IsNameKind(e.tag) {
      forall j | 0 <= j < i && IsNameKind(c[..i][j].tag)
        ensures c[..i][j].tag.id != e.tag.id
      {
        assert !Supersedes(c[i].tag, c[j].tag);
        NamesSupersede(e.tag, c[j].tag);
      }
    }
  }

  lemma GivenMore(c: seq<Record>, now: Names, ns: Names, e: Record, lo: nat)
    requires GivenSoFar(c, now, ns) && Fits(e.tag, |now|) && Kept(e.tag)
    requires IsNameKind(e.tag) && lo <= e.tag.id < |ns| ==> ns[e.tag.id] == Some(AttrOf(e))
    requires IsNameKind(e.tag) ==> 0 <= e.tag.id < |ns| && (IsName(e.tag) <==> lo <= e.tag.id)
    ensures GivenSoFar(c + [e], ApplyName(now, e), ns)
  {
    hide IsNameKind, IsName, IsSplice, Kept;
    KindFacts(e.tag);
    KeptFacts(e.tag, e.tag);
    var after, longer := ApplyName(now, e), c + [e];
    forall k | 0 <= k < |after| && after[k].Some?
      ensures after[k] == ns[k] && exists j :: 0 <= j < |longer| && IsNameKind(longer[j].tag) && longer[j].tag.id == k
    {
      if IsName(e.tag) && e.tag.id == k {
        assert longer[|c|] == e;
      } else {
        var j :| 0 <= j < |c| && IsNameKind(c[j].tag) && c[j].tag.id == k;
        assert longer[j] == c[j];
      }
    }
  }

  lemma PrefixWellFormed(log: seq<Record>, base: nat, n: nat)
    requires WellFormed(log, base) && n <= |log|
    ensures WellFormed(log[..n], base)
    decreases |log|
  {
    hide Fits;
    if n < |log| {
      PrefixWellFormed(log[..|log| - 1], base, n);
      assert log[..|log| - 1][..n] == log[..n];
    } else {
      assert log[..n] == log;
    }
  }

  /** A compacted log is disciplined, record by record. */
  lemma {:induction false} CompactDisciplined(log: seq<Record>, base: nat, lo: nat, i: nat)
    requires KeptSorted(log, base, lo) && RegularSplices(log) && i <= |Compact(log, 0, Count(log, base))|
    requires WellFormed(Compact(log, 0, Count(log, base)), Count(log, base)) && Count(log, base) >= 0
    ensures
      var c, n := Compact(log, 0, Count(log, base)), Count(log, base);
      && WellFormed(c[..i], n) && Disciplined(c[..i], n, lo)
      && GivenSoFar(c[..i], NamesOf(Replay(c[..i], n)), NamesOf(Replay(log, base)))
  {
    hide Lookup, Compact, Kept, Replay, IsNameKind, IsName, NameOk, SuperNamed, AllKept, NonRedundant, AllNamed,
         NamesOf, Proper, Sorted, GivenSoFar, Orderly, NoSplices, Fits, Apply, ApplyName, KeptSorted;
    var c, n := Compact(log, 0, Count(log, base)), Count(log, base);
    KeptFactsOf(log, base, lo);
    var ns := NamesOf(Replay(log, base));
    PrefixWellFormed(c, n, i);
    if i == 0 {
      assert c[..0] == [];
      NoNames(n);
      GivenNothing(NamesOf(Replay([], n)), ns);
    } else {
      CompactDisciplined(log, base, lo, i - 1);
      var older, e := c[..i - 1], c[i - 1];
      assert c[..i] == older + [e] && c[..i][..|c[..i]| - 1] == older;
      CompactRecord(log, base, lo, i - 1);
      CompactProper(c, i - 1, NamesOf(Replay(older, n)), ns, lo);
      NamesApply(Replay(older, n), e);
      ReplayOne(older, n, e);
      KeptAt(c, i - 1);
      GivenMore(older, NamesOf(Replay(older, n)), ns, e, lo);
    }
  }

  lemma KeptAt(c: seq<Record>, i: nat)
    requires AllKept(c) && i < |c|
    ensures Kept(c[i].tag)
  {
    hide Kept;
  }

  lemma ReplayOne(log: seq<Record>, base: nat, e: Record)
    requires WellFormed(log + [e], base)
    ensures WellFormed(log, base) && Fits(e.tag, Count(log, base))
    ensures Replay(log + [e], base) == Apply(Replay(log, base), e)
  {
    hide Fits, Apply;
    assert (log + [e])[..|log|] == log;
  }

  lemma GivenNothing(now: Names, ns: Names)
    requires |now| == |ns| && forall k | 0 <= k < |now| :: now[k] == None
    ensures GivenSoFar([], now, ns)
  {
  }

  lemma KeptFactsOf(log: seq<Record>, base: nat, lo: nat)
    requires KeptSorted(log, base, lo)
    ensures WellFormed(log, base) && Disciplined(log, base, lo) && SuperNamed(log, lo) && lo <= Count(log, base)
    ensures AllNamed(NamesOf(Replay(log, base)), lo)
    ensures Sorted(NamesOf(Replay(log, base))) && NamesOk(log) && Orderly(log, base)
  {
    hide AllNamed, Sorted, SuperNamed, Disciplined, Orderly, NamesOk, KindsOk;
    DisciplinedFacts(log, base, lo);
    CountDisciplined(log, base, lo);
  }

  /** Compaction changes no name. */
  lemma CompactNames(log: seq<Record>, base: nat, lo: nat, id: nat)
    requires KeptSorted(log, base, lo) && RegularSplices(log) && id < Count(log, base)
    requires WellFormed(Compact(log, 0, Count(log, base)), Count(log, base))
    requires Count(Compact(log, 0, Count(log, base)), Count(log, base)) == Count(log, base)
    ensures NamesOf(Replay(Compact(log, 0, Count(log, base)), Count(log, base)))[id] == NamesOf(Replay(log, base))[id]
  {
    hide Lookup, Compact, WellFormed, Disciplined, Replay, SuperNamed, AllNamed, NamesOf, Agree, RegularSplices;
    var n := Count(log, base);
    NamesLookup(log, base, id);
    NamesLookup(Compact(log, 0, n), n, id);
    FineName();
    FineLookup(log, 0, n, NAME_MASK, 0, id);
    KindNewest(log, base, lo, id);
    LookupType(log, NAME_MASK, 0, id);
    NewestFirst(log, NAME_MASK, 0, id);
  }

  lemma FineName()
    ensures Fine(NAME_MASK, 0) && Granular(0x700, 0)
  {
  }

  lemma SameNames(a: Names, b: Names)
    requires |a| == |b| && forall k | 0 <= k < |a| :: a[k] == b[k]
    ensures a == b
  {
  }

  lemma {:induction false} TrailerSteady(prev: Option<Record>, ns: Names, trailer: seq<Record>, lo: nat)
    requires M.IsTrailer(trailer) && AllNamed(ns, lo)
    ensures Steady(prev, ns, trailer, lo) && Committed(prev, ns, trailer, lo) == ns
    decreases |trailer|
  {
    hide AllNamed, IsSplice, Kept, IsNameKind, IsName, NameOk;
    if trailer != [] {
      var e := trailer[0];
      assert M.TrailerTag(e.tag);
      TrailerPlain(e);
      assert forall k | 0 <= k < |trailer| - 1 :: trailer[1..][k] == trailer[k + 1];
      TrailerSteady(Some(e), ns, trailer[1..], lo);
    }
  }

  lemma TrailerPlain(e: Record)
    requires M.TrailerTag(e.tag)
    ensures !IsNameKind(e.tag) && !IsName(e.tag) && !IsSplice(e.tag) && NameOk(e)
    ensures e.tag.ty != CREATE && e.tag.ty != DELETE
  {
  }

  /** A compacted directory is kept sorted as well, and has the same names. */
  lemma CompactKept(log: seq<Record>, base: nat, lo: nat, trailer: seq<Record>)
    requires KeptSorted(log, base, lo) && M.IsTrailer(trailer)
    ensures
      var c, n := Compact(log, 0, Count(log, base)) + trailer, Count(log, base);
      n >= 0 && KeptSorted(c, n, lo) && NamesOf(Replay(c, n)) == NamesOf(Replay(log, base))
  {
    hide Lookup, Compact, WellFormed, Disciplined, Replay, SuperNamed, AllNamed, NamesOf, RegularSplices, KeptSorted,
         M.IsTrailer, Steady, Committed, Orderly, Sorted, NamesOk, Granular, Fine, Count;
    KeptFactsOf(log, base, lo);
    M.CountRange(log, base);
    var n: nat := Count(log, base);
    var c := Compact(log, 0, n);
    WellFormedSplices(log, base);
    CompactShape(log, 0, n);
    CompactDisciplined(log, base, lo, |c|);
    assert c[..|c|] == c;
    forall k | 0 <= k < n
      ensures NamesOf(Replay(c, n))[k] == NamesOf(Replay(log, base))[k]
    {
      CompactNames(log, base, lo, k);
    }
    SameNames(NamesOf(Replay(c, n)), NamesOf(Replay(log, base)));
    CompactSuper(log, n, lo);
    TrailerSteady(None, NamesOf(Replay(c, n)), trailer, lo);
    SteadyKept(c, n, lo, None, trailer);
  }

  lemma CompactSuper(log: seq<Record>, n: nat, lo: nat)
    requires SuperNamed(log, lo) && RegularSplices(log) && lo <= n
    ensures SuperNamed(Compact(log, 0, n), lo)
  {
    hide Lookup, Compact, RegularSplices, Granular, Fine;
    FineName();
    if lo > 0 {
      CompactionPreserves(log, 0, n, 0x700, 0, lo - 1);
    }
  }

  // ---- runs ----

  /** The pair on disk and the log of all completed commits are the same sorted directory. */
  ghost predicate Named(w: M.World, start: nat, lo: nat) {
    && M.Readable(w)
    && KeptSorted(M.Fetch(w.pair).records, w.base, lo) && KeptSorted(w.history, start, lo)
    && NamesOf(Replay(M.Fetch(w.pair).records, w.base)) == NamesOf(Replay(w.history, start))
  }

  /** The commit observes what keeps the directory sorted. */
  ghost predicate NamedAction(w: M.World, start: nat, lo: nat, a: M.Action) {
    WellFormed(w.history, start) && Steady(None, NamesOf(Replay(w.history, start)), a.attrs, lo)
  }

  /** Every such commit, completed or cut off anywhere, leaves a directory kept sorted. */
  lemma NextNamed(w: M.World, a: M.Action, start: nat, lo: nat)
    requires Named(w, start, lo) && M.Possible(w, a) && NamedAction(w, start, lo, a)
    ensures Named(M.Next(w, a), start, lo)
  {
    hide KeptSorted, Steady, Committed, NamesOf, M.Fetch, M.Scmp, M.ScanBlock, M.Current, M.Erased, M.CommitItems,
         Compact, Replay, WellFormed, M.FitAll, Count, Disciplined, SuperNamed, AllNamed, Orderly, Sorted, NamesOk,
         M.PossibleStage;
    var dir := M.Fetch(w.pair);
    M.FetchCurrent(w.pair, dir.which);
    KeptFactsOf(dir.records, w.base, lo);
    KeptFactsOf(w.history, start, lo);
    SteadyKept(dir.records, w.base, lo, None, a.attrs);
    SteadyKept(w.history, start, lo, None, a.attrs);
    match a
    case Append(attrs, fcrc, cut, clean) =>
      M.AppendAtomic(w.pair, dir.which, attrs, fcrc, cut, clean);
    case Compaction(attrs, trailer, fcrc, stage) =>
      CompactKept(dir.records + attrs, w.base, lo, trailer);
      M.CompactAtomic(w.pair, dir.which, M.Rewritten(w, attrs, trailer), fcrc, stage);
  }

  ghost predicate NamedRun(w: M.World, start: nat, lo: nat, actions: seq<M.Action>)
    requires M.PossibleRun(w, actions)
    decreases |actions|
  {
    actions == [] || (NamedAction(w, start, lo, actions[0]) && NamedRun(M.Next(w, actions[0]), start, lo, actions[1..]))
  }

  lemma {:induction false} RunNamed(w: M.World, actions: seq<M.Action>, start: nat, lo: nat)
    requires Named(w, start, lo) && M.PossibleRun(w, actions) && NamedRun(w, start, lo, actions)
    ensures Named(M.Run(w, actions), start, lo)
    decreases |actions|
  {
    hide Named, M.Possible, M.Next, NamedAction;
    if actions != [] {
      NextNamed(w, actions[0], start, lo);
      RunNamed(M.Next(w, actions[0]), actions[1..], start, lo);
    }
  }

  /** A name has one place in a directory. */
  lemma PlaceUnique(ns: Names, lo: nat, p: int, q: int, name: seq<bv8>)
    requires AllNamed(ns, lo) && PlaceOf(ns, p, name) && PlaceOf(ns, q, name) && lo <= p && lo <= q
    ensures p == q
  {
    hide Less;
    var k := if p < q then p else q;
    if p != q {
      assert ns[k].Some?;
      LessOrder(ns[k].value.data, name);
    }
  }

  lemma NotPlaced(ns: Names, p: int, id: int, name: seq<bv8>)
    requires PlaceOf(ns, p, name)
    ensures !GoesAt(ns, id, name)
  {
    hide Less;
    LessOrder(name, name);
  }

  lemma GoesOnce(ns: Names, i: int, j: int, name: seq<bv8>)
    requires Sorted(ns) && GoesAt(ns, i, name) && GoesAt(ns, j, name)
    ensures i == j
  {
    hide Less;
    LessOrder(name, name);
  }

  /** Two logs of directories kept sorted with the same names give the same result of every fetch. */
  lemma SameFetch(a: seq<Record>, baseA: nat, b: seq<Record>, baseB: nat, lo: nat, name: seq<bv8>)
    requires KeptSorted(a, baseA, lo) && KeptSorted(b, baseB, lo)
    requires NamesOf(Replay(a, baseA)) == NamesOf(Replay(b, baseB))
    ensures FetchMatch(a, name, None) == FetchMatch(b, name, None)
  {
    hide Disciplined, SuperNamed, AllNamed, NamesOf, FetchMatch, PlaceOf, GoesAt, Replay, Sorted, Orderly, NamesOk;
    FetchPlace(a, baseA, name, lo, None);
    FetchPlace(b, baseB, name, lo, None);
    KeptFactsOf(a, baseA, lo);
    var ns, x, y := NamesOf(Replay(a, baseA)), FetchMatch(a, name, None), FetchMatch(b, name, None);
    if x.Hit? && y.Hit? {
      GoesOnce(ns, x.id, y.id, name);
    } else if x.Hit? {
      NotPlaced(ns, y.place, x.id, name);
    } else if y.Hit? {
      NotPlaced(ns, x.place, y.id, name);
    } else {
      PlaceUnique(ns, lo, x.place, y.place, name);
    }
  }

  /** After any run of commits and power losses every name is found, or has the place, that the completed
      commits say. */
  lemma RunResolves(w: M.World, actions: seq<M.Action>, start: nat, lo: nat, name: seq<bv8>)
    requires Named(w, start, lo) && M.PossibleRun(w, actions) && NamedRun(w, start, lo, actions)
    ensures
      var now := M.Run(w, actions);
      M.Readable(now) && FetchMatch(M.Fetch(now.pair).records, name, None) == FetchMatch(now.history, name, None)
  {
    hide M.Run, M.PossibleRun, NamedRun, KeptSorted, FetchMatch, NamesOf, M.Fetch;
    RunNamed(w, actions, start, lo);
    var now := M.Run(w, actions);
    SameFetch(M.Fetch(now.pair).records, now.base, now.history, start, lo, name);
  }
}
