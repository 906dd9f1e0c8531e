/** Walking the list of all metadata pairs along their tails, with Brent's cycle detection. */
module TailList {
  import opened LfsBase

  datatype Pair = Pair(first: int, second: int)

  predicate IsNull(p: Pair) {
    p.first == NULL_BLOCK || p.second == NULL_BLOCK
  }

  /** lfs_pair_issync: the same two blocks, in either order. */
  predicate IsSync(p: Pair, q: Pair) {
    p == q || p == Pair(q.second, q.first)
  }

  /** The first n pairs along the tails, and the one after them. */
  function After(tails: map<Pair, Pair>, start: Pair, n: nat): Pair {
    if n == 0 then start
    else
      var p := After(tails, start, n - 1);
      if p in tails then tails[p] else p
  }

  /** Going on from equal pairs leads to equal pairs. */
  lemma {:induction false} SameWay(tails: map<Pair, Pair>, start: Pair, i: nat, j: nat, k: nat)
    requires After(tails, start, i) == After(tails, start, j)
    ensures After(tails, start, i + k) == After(tails, start, j + k)
  {
    if k > 0 {
      SameWay(tails, start, i, j, k - 1);
    }
  }

  // ---- finitely many pairs ----

  function Elements(s: seq<Pair>): set<Pair> {
    set p | p in s
  }

  lemma {:induction false} DistinctCount(s: seq<Pair>)
    requires forall i, j | 0 <= i < j < |s| :: s[i] != s[j]
    ensures |Elements(s)| == |s|
  {
    if s == [] {
      assert Elements(s) == {};
    } else {
      var older := s[..|s| - 1];
      DistinctCount(older);
      assert Elements(s) == Elements(older) + {s[|s| - 1]};
      assert s[|s| - 1] !in older;
    }
  }

  lemma {:induction false} SubsetCount(a: set<Pair>, b: set<Pair>)
    requires a <= b
    ensures |a| <= |b|
  {
    if x :| x in a {
      SubsetCount(a - {x}, b - {x});
    }
  }

  /** More pairs than there are cannot all be different. */
  lemma Repeats(tails: map<Pair, Pair>, start: Pair, n: nat) returns (i: nat, j: nat)
    requires n == |tails| && forall k | 0 <= k <= n :: After(tails, start, k) in tails
    ensures i < j <= n && After(tails, start, i) == After(tails, start, j)
  {
    var s := seq(n + 1, k requires 0 <= k <= n => After(tails, start, k));
    if forall i, j | 0 <= i < j < |s| :: s[i] != s[j] {
      DistinctCount(s);
      assert Elements(s) <= tails.Keys;
      SubsetCount(Elements(s), tails.Keys);
      assert false;
    }
    i, j :| 0 <= i < j < |s| && s[i] == s[j];
  }

  /** A tortoise far enough along is met again within as many steps as there are pairs. */
  lemma Meets(tails: map<Pair, Pair>, start: Pair, t: nat, n: nat) returns (m: nat)
    requires n > t + |tails| && t >= |tails|
    requires forall k | 0 <= k < n :: After(tails, start, k) in tails
    ensures t < m < n && After(tails, start, m) == After(tails, start, t)
  {
    hide After;
    var i, j := Repeats(tails, start, |tails|);
    SameWay(tails, start, i, j, t - i);
    m := t + (j - i);
  }

  /** Two visits of the same pair. */
  predicate Revisited(visited: seq<Pair>, p: Pair) {
    exists k :: 0 <= k < |visited| && IsSync(visited[k], p)
  }

  /** The tails lead over that many pairs, all different, to the null pair. */
  ghost predicate Acyclic(tails: map<Pair, Pair>, start: Pair, length: nat) {
    && IsNull(After(tails, start, length))
    && (forall k | 0 <= k < length :: !IsNull(After(tails, start, k)) && After(tails, start, k) in tails)
    && (forall j, k | 0 <= j < k < length :: !IsSync(After(tails, start, j), After(tails, start, k)))
  }

  /** Neither a cycle nor a missing pair can be found on such a list, and its end only at its end. */
  lemma AcyclicEnd(tails: map<Pair, Pair>, start: Pair, length: nat, visited: seq<Pair>, end: Pair)
    requires Acyclic(tails, start, length)
    requires forall k | 0 <= k < |visited| :: visited[k] == After(tails, start, k) && !IsNull(visited[k])
    requires end == After(tails, start, |visited|)
    ensures IsNull(end) ==> |visited| == length
    ensures end !in tails || Revisited(visited, end) ==> IsNull(end)
  {
    hide After, IsSync;
    SyncFacts(end, end);
    if !IsNull(end) {
      assert |visited| < length;
    }
  }

  /** The walk of lfs_rawmount, lfs_fs_rawtraverse, lfs_fs_pred and lfs_fs_parent over any graph of
      tails: it ends after at most three times as many fetches as there are pairs. It reports a cycle only
      when it has come to a pair that was visited before, and otherwise visits the list to its end. */
  method Walk(tails: map<Pair, Pair>, start: Pair) returns (err: int, visited: seq<Pair>, end: Pair)
    ensures |visited| <= 3 * |tails| + 2
    ensures forall k | 0 <= k < |visited| :: visited[k] == After(tails, start, k) && !IsNull(visited[k])
    ensures end == After(tails, start, |visited|)
    ensures err == 0 || err == CORRUPT
    ensures err == 0 <==> IsNull(end)
    ensures err == CORRUPT ==> end !in tails || Revisited(visited, end)
    ensures forall length | Acyclic(tails, start, length) :: err == 0 && |visited| == length
  {
    hide After, IsSync, Acyclic;
    visited := [];
    end := start;
    var tortoise, i, period := Pair(NULL_BLOCK, NULL_BLOCK), 1, 1;
    ghost var n, t := |tails|, -1;
    assert After(tails, start, 0) == start by { Start(tails, start); }
    while !IsNull(end)
      invariant end == After(tails, start, |visited|)
      invariant forall k | 0 <= k < |visited| ::
        visited[k] == After(tails, start, k) && visited[k] in tails && !IsNull(visited[k])
      invariant -1 <= t <= 2 * n && period == t + 2 && i == |visited| - t && 1 <= i <= period
      invariant if t < 0 then IsNull(tortoise) else t < |visited| && tortoise == visited[t]
      invariant forall m | 0 <= t < m < |visited| :: !IsSync(visited[m], tortoise)
      invariant t >= n ==> |visited| <= t + n
      decreases 3 * n + 3 - |visited|
    {
      SyncFacts(end, tortoise);
      if IsSync(end, tortoise) {
        assert IsSync(visited[t], end);
        AnyLength(tails, start, visited, end);
        return CORRUPT, visited, end;
      }
      if i == period {
        tortoise := end;
        t := |visited|;
        i := 0;
        period := 2 * period;
      }
      i := i + 1;
      if end !in tails {
        AnyLength(tails, start, visited, end);
        return CORRUPT, visited, end;
      }
      visited := visited + [end];
      Step(tails, start, |visited|);
      end := tails[end];
      if t >= n && |visited| > t + n {
        ghost var m := Meets(tails, start, t, |visited|);
        SyncFacts(visited[m], tortoise);
        assert false;
      }
    }
    AnyLength(tails, start, visited, end);
    return 0, visited, end;
  }

  lemma AnyLength(tails: map<Pair, Pair>, start: Pair, visited: seq<Pair>, end: Pair)
    requires forall k | 0 <= k < |visited| :: visited[k] == After(tails, start, k) && !IsNull(visited[k])
    requires end == After(tails, start, |visited|)
    ensures forall length | Acyclic(tails, start, length) ::
      (IsNull(end) ==> |visited| == length) && (end !in tails || Revisited(visited, end) ==> IsNull(end))
  {
    hide After, IsSync, Acyclic, IsNull, Revisited;
    forall length: nat | Acyclic(tails, start, length)
      ensures (IsNull(end) ==> |visited| == length) && (end !in tails || Revisited(visited, end) ==> IsNull(end))
    {
      AcyclicEnd(tails, start, length, visited, end);
    }
  }

  lemma Start(tails: map<Pair, Pair>, start: Pair)
    ensures After(tails, start, 0) == start
  {
  }

  lemma Step(tails: map<Pair, Pair>, start: Pair, n: nat)
    requires n > 0 && After(tails, start, n - 1) in tails
    ensures After(tails, start, n) == tails[After(tails, start, n - 1)]
  {
  }

  lemma SyncFacts(p: Pair, q: Pair)
    ensures p == q ==> IsSync(p, q)
    ensures IsSync(p, q) <==> IsSync(q, p)
    ensures IsSync(p, q) ==> (IsNull(p) <==> IsNull(q))
  {
  }
}
