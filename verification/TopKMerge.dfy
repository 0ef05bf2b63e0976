/** The merge of search results in cos_lib/context_injector.py: every source is cut to its `k` best
    before the results are de-duplicated by path and cut to the `k` best again. */
module TopKMerge {
  import opened Common

  datatype Match = Match(source: string, path: string, score: real, excerpt: string)

  // ---- Python's stable sort by score, best first ---------------------------------------------

  /** How many of `ranked` score at least `score`, when they are sorted. */
  function Position(ranked: seq<Match>, score: real): (p: nat)
    ensures p <= |ranked|
    ensures forall i :: 0 <= i < p ==> ranked[i].score >= score
    ensures p < |ranked| ==> ranked[p].score < score
  {
    if ranked == [] || ranked[0].score < score then 0 else 1 + Position(ranked[1..], score)
  }

  function Insert(ranked: seq<Match>, m: Match): seq<Match> {
    var p := Position(ranked, m.score);
    ranked[..p] + [m] + ranked[p..]
  }

  function SortByScore(ms: seq<Match>): (r: seq<Match>)
    ensures |r| == |ms|
  {
    if ms == [] then [] else Insert(SortByScore(ms[..|ms| - 1]), ms[|ms| - 1])
  }

  function Take(ms: seq<Match>, k: nat): seq<Match> {
    ms[..Min(|ms|, k)]
  }

  function Best(ms: seq<Match>, k: nat): seq<Match> {
    Take(SortByScore(ms), k)
  }

  // ---- De-duplication by path ------------------------------------------------------------------

  function Find(seen: seq<Match>, path: string): (i: nat)
    ensures i <= |seen|
    ensures i < |seen| ==> seen[i].path == path
    ensures forall j :: 0 <= j < i ==> seen[j].path != path
  {
    if seen == [] || seen[0].path == path then 0 else 1 + Find(seen[1..], path)
  }

  /** A dictionary keyed by path, in insertion order: a better score replaces in place. */
  function Noted(seen: seq<Match>, m: Match): seq<Match> {
    var i := Find(seen, m.path);
    if i == |seen| then seen + [m] else if m.score > seen[i].score then seen[i := m] else seen
  }

  function Deduped(ms: seq<Match>): seq<Match> {
    if ms == [] then [] else Noted(Deduped(ms[..|ms| - 1]), ms[|ms| - 1])
  }

  function Merged(ms: seq<Match>, k: nat): seq<Match> {
    Best(Deduped(ms), k)
  }

  function Concat(sources: seq<seq<Match>>): seq<Match> {
    if sources == [] then [] else Concat(sources[..|sources| - 1]) + sources[|sources| - 1]
  }

  function Truncated(sources: seq<seq<Match>>, k: nat): seq<seq<Match>> {
    seq(|sources|, i requires 0 <= i < |sources| => Best(sources[i], k))
  }

  // ---- The code ----------------------------------------------------------------------------------

  /** One of the `_search_*` functions: `similarity` is the score of an item and `round` Python's
      rounding to four places. */
  method SearchSource(items: seq<Match>, similarity: Match -> real, minScore: real, round: real -> real, k: nat)
    returns (found: seq<Match>)
    ensures found == Best(Scored(items, similarity, minScore, round), k)
  {
    var scored: seq<Match> := [];
    for i := 0 to |items|
      invariant scored == Scored(items[..i], similarity, minScore, round)
    {
      assert items[..i + 1][..i] == items[..i];
      var score := similarity(items[i]);
      if score >= minScore {
        scored := scored + [items[i].(score := round(score))];
      }
    }
    assert items[..|items|] == items;
    found := Best(scored, k);
  }

  function Scored(items: seq<Match>, similarity: Match -> real, minScore: real, round: real -> real): seq<Match> {
    if items == [] then []
    else
      var m := items[|items| - 1];
      Scored(items[..|items| - 1], similarity, minScore, round)
      + if similarity(m) >= minScore then [m.(score := round(similarity(m)))] else []
  }

  /** The merge in `build_context`, given what each source found. */
  method BuildMatches(found: seq<seq<Match>>, k: nat) returns (deduped: seq<Match>)
    ensures deduped == Merged(Concat(found), k)
  {
    var all: seq<Match> := [];
    for i := 0 to |found|
      invariant all == Concat(found[..i])
    {
      assert found[..i + 1][..i] == found[..i];
      all := all + found[i];
    }
    assert found[..|found|] == found;
    var seen: seq<Match> := [];
    for i := 0 to |all|
      invariant seen == Deduped(all[..i])
    {
      assert all[..i + 1][..i] == all[..i];
      var m := all[i];
      var at := Find(seen, m.path);
      if at == |seen| {
        seen := seen + [m];
      } else if m.score > seen[at].score {
        seen := seen[at := m];
      }
    }
    assert all[..|all|] == all;
    deduped := Best(seen, k);
  }

  // ---- Ranking and counting ----------------------------------------------------------------------

  ghost predicate Ranked(ms: seq<Match>) {
    forall i, j :: 0 <= i < j < |ms| ==> ms[i].score >= ms[j].score
  }

  ghost predicate DistinctPaths(ms: seq<Match>) {
    forall i, j :: 0 <= i < j < |ms| ==> ms[i].path != ms[j].path
  }

  /** The paths whose best score is at least `x`. */
  function PathsAtLeast(ms: seq<Match>, x: real): set<string> {
    set m | m in ms && m.score >= x :: m.path
  }

  function Paths(ms: seq<Match>): set<string> {
    set m | m in ms :: m.path
  }

  lemma InsertBetween(ranked: seq<Match>, p: nat, m: Match)
    requires Ranked(ranked) && p <= |ranked|
    requires forall i :: 0 <= i < p ==> ranked[i].score >= m.score
    requires forall i :: p <= i < |ranked| ==> ranked[i].score <= m.score
    ensures Ranked(ranked[..p] + [m] + ranked[p..])
  {
  }

  lemma InsertApart(ranked: seq<Match>, p: nat, m: Match)
    requires DistinctPaths(ranked) && p <= |ranked|
    requires forall i :: 0 <= i < |ranked| ==> ranked[i].path != m.path
    ensures DistinctPaths(ranked[..p] + [m] + ranked[p..])
  {
  }

  lemma InsertRanks(ranked: seq<Match>, m: Match)
    requires Ranked(ranked)
    ensures Ranked(Insert(ranked, m))
  {
    InsertBetween(ranked, Position(ranked, m.score), m);
  }

  lemma InsertMembers(ranked: seq<Match>, m: Match)
    ensures forall x :: x in Insert(ranked, m) <==> x == m || x in ranked
  {
    var p := Position(ranked, m.score);
    var low, high := ranked[..p], ranked[p..];
    assert ranked == low + high;
    forall x ensures x in Insert(ranked, m) <==> x == m || x in low || x in high {
    }
  }

  lemma InsertKeepsApart(ranked: seq<Match>, m: Match)
    requires DistinctPaths(ranked) && m.path !in Paths(ranked)
    ensures DistinctPaths(Insert(ranked, m))
  {
    forall i | 0 <= i < |ranked| ensures ranked[i].path != m.path {
      assert ranked[i] in ranked;
    }
    InsertApart(ranked, Position(ranked, m.score), m);
  }

  lemma LastPathIsNew(ms: seq<Match>)
    requires DistinctPaths(ms) && ms != []
    ensures ms[|ms| - 1].path !in Paths(ms[..|ms| - 1])
    ensures DistinctPaths(ms[..|ms| - 1])
  {
    forall x | x in ms[..|ms| - 1] ensures x.path != ms[|ms| - 1].path {
      var i :| 0 <= i < |ms| - 1 && ms[i] == x;
    }
  }

  lemma {:induction false} SortRanks(ms: seq<Match>)
    ensures Ranked(SortByScore(ms))
    ensures forall x :: x in SortByScore(ms) <==> x in ms
    ensures DistinctPaths(ms) ==> DistinctPaths(SortByScore(ms))
  {
    if ms != [] {
      var front, m := ms[..|ms| - 1], ms[|ms| - 1];
      SortRanks(front);
      InsertRanks(SortByScore(front), m);
      InsertMembers(SortByScore(front), m);
      assert ms == front + [m];
      if DistinctPaths(ms) {
        LastPathIsNew(ms);
        assert Paths(SortByScore(front)) == Paths(front);
        InsertKeepsApart(SortByScore(front), m);
      }
    }
  }

  lemma {:induction false} PathCount(ms: seq<Match>)
    requires DistinctPaths(ms)
    ensures |Paths(ms)| == |ms|
  {
    if ms != [] {
      var front, m := ms[..|ms| - 1], ms[|ms| - 1];
      LastPathIsNew(ms);
      PathCount(front);
      assert ms == front + [m];
      assert Paths(ms) == Paths(front) + {m.path};
    }
  }

  /** In a ranking with distinct paths, the scores of at least `x` are the first so many. */
  lemma {:induction false} RankIsCount(ms: seq<Match>, x: real)
    requires Ranked(ms) && DistinctPaths(ms)
    ensures |PathsAtLeast(ms, x)| <= |ms|
    ensures forall i :: 0 <= i < |ms| ==> (ms[i].score >= x <==> i < |PathsAtLeast(ms, x)|)
  {
    if ms != [] {
      var front, m := ms[..|ms| - 1], ms[|ms| - 1];
      assert ms == front + [m];
      if m.score >= x {
        assert PathsAtLeast(ms, x) == Paths(ms);
        PathCount(ms);
      } else {
        RankIsCount(front, x);
        assert PathsAtLeast(ms, x) == PathsAtLeast(front, x);
      }
    }
  }

  lemma NotedKeepsBest(seen: seq<Match>, m: Match)
    requires DistinctPaths(seen)
    ensures DistinctPaths(Noted(seen, m))
    ensures forall x: real :: PathsAtLeast(Noted(seen, m), x) == PathsAtLeast(seen + [m], x)
    ensures forall y :: y in Noted(seen, m) ==> y == m || y in seen
  {
    var i := Find(seen, m.path);
    var after := Noted(seen, m);
    forall x: real ensures PathsAtLeast(after, x) == PathsAtLeast(seen + [m], x) {
      if i < |seen| {
        forall y | y in seen ensures y in after || (y.path == m.path && y.score < m.score && m in after) {
          var j :| 0 <= j < |seen| && seen[j] == y;
          assert after[j] in after && after[i] in after;
        }
        assert seen[i] in seen;
      }
    }
  }

  lemma {:induction false} DedupKeepsBest(ms: seq<Match>)
    ensures DistinctPaths(Deduped(ms))
    ensures forall x: real :: PathsAtLeast(Deduped(ms), x) == PathsAtLeast(ms, x)
    ensures forall m :: m in Deduped(ms) ==> m in ms
  {
    if ms != [] {
      var front, m := ms[..|ms| - 1], ms[|ms| - 1];
      DedupKeepsBest(front);
      NotedKeepsBest(Deduped(front), m);
      assert ms == front + [m];
      forall x: real ensures PathsAtLeast(Deduped(front) + [m], x) == PathsAtLeast(front + [m], x) {
        AtLeastAppend(Deduped(front), [m], x);
        AtLeastAppend(front, [m], x);
      }
    }
  }

  lemma AtLeastAppend(xs: seq<Match>, ys: seq<Match>, x: real)
    ensures PathsAtLeast(xs + ys, x) == PathsAtLeast(xs, x) + PathsAtLeast(ys, x)
  {
    forall p | p in PathsAtLeast(xs, x) + PathsAtLeast(ys, x) ensures p in PathsAtLeast(xs + ys, x) {
      var m :| (m in xs || m in ys) && m.score >= x && m.path == p;
      assert m in xs + ys;
    }
  }

  predicate ScoresAtLeast(r: seq<Match>, i: nat, x: real) {
    i < |r| && r[i].score >= x
  }

  /** The merge is the `k` best of the best match per path: for every score `x`, the results of at
      least `x` are as many as the paths with such a match, up to `k`. */
  lemma MergeIsBestPerPath(ms: seq<Match>, k: nat, x: real)
    ensures var r := Merged(ms, k);
            && |r| <= k && DistinctPaths(r) && Ranked(r)
            && (forall i :: 0 <= i < k ==> (ScoresAtLeast(r, i, x) <==> i < |PathsAtLeast(ms, x)|))
  {
    var sorted := SortByScore(Deduped(ms));
    DedupKeepsBest(ms);
    SortRanks(Deduped(ms));
    RankIsCount(sorted, x);
    assert PathsAtLeast(sorted, x) == PathsAtLeast(ms, x);
  }

  /** Each result is a given match, and no match with its path scores better. */
  lemma MergeShowsBest(ms: seq<Match>, k: nat, m: Match)
    requires m in Merged(ms, k)
    ensures m in ms
    ensures forall o :: o in ms && o.path == m.path ==> o.score <= m.score
  {
    DedupKeepsBest(ms);
    SortRanks(Deduped(ms));
    assert m in SortByScore(Deduped(ms));
    forall o | o in ms && o.path == m.path ensures o.score <= m.score {
      assert o.path in PathsAtLeast(Deduped(ms), o.score);
      var d :| d in Deduped(ms) && d.score >= o.score && d.path == o.path;
      assert d == m;
    }
  }

  // ---- Which matches, and in which order -----------------------------------------------------------

  /** Positions in a list, in order. */
  ghost predicate Picks(picks: seq<nat>, n: nat) {
    (forall k :: 0 <= k < |picks| ==> picks[k] < n) && forall k, l :: 0 <= k < l < |picks| ==> picks[k] < picks[l]
  }

  /** A source keeps exactly the items whose similarity reaches the threshold, before rounding, in
      their order, with the rounded similarity as score. */
  lemma {:induction false} ScoredExactly(items: seq<Match>, similarity: Match -> real, minScore: real,
                                         round: real -> real) returns (picks: seq<nat>)
    ensures Picks(picks, |items|)
    ensures forall i: nat :: i in picks <==> i < |items| && similarity(items[i]) >= minScore
    ensures var found := Scored(items, similarity, minScore, round);
            && |found| == |picks|
            && forall k :: 0 <= k < |picks| ==>
                 found[k] == items[picks[k]].(score := round(similarity(items[picks[k]])))
  {
    picks := [];
    if items != [] {
      var n := |items| - 1;
      picks := ScoredExactly(items[..n], similarity, minScore, round);
      if similarity(items[n]) >= minScore {
        picks := picks + [n];
      }
    }
  }

  /** The matches that score `x`, in order. */
  function WithScore(ms: seq<Match>, x: real): seq<Match> {
    if ms == [] then []
    else WithScore(ms[..|ms| - 1], x) + if ms[|ms| - 1].score == x then [ms[|ms| - 1]] else []
  }

  lemma {:induction false} WithScoreAppend(xs: seq<Match>, ys: seq<Match>, x: real)
    ensures WithScore(xs + ys, x) == WithScore(xs, x) + WithScore(ys, x)
  {
    if ys == [] {
      assert xs + ys == xs;
    } else {
      assert (xs + ys)[..|xs + ys| - 1] == xs + ys[..|ys| - 1];
      WithScoreAppend(xs, ys[..|ys| - 1], x);
    }
  }

  lemma {:induction false} NoneWithScore(ms: seq<Match>, x: real)
    requires forall i :: 0 <= i < |ms| ==> ms[i].score != x
    ensures WithScore(ms, x) == []
  {
    if ms != [] {
      NoneWithScore(ms[..|ms| - 1], x);
    }
  }

  lemma WithScoreBetween(low: seq<Match>, m: Match, high: seq<Match>, x: real)
    ensures WithScore(low + [m] + high, x)
         == WithScore(low, x) + (if m.score == x then [m] else []) + WithScore(high, x)
  {
    WithScoreAppend(low + [m], high, x);
    assert (low + [m])[..|low|] == low;
  }

  lemma InsertedLast(low: seq<Match>, m: Match, high: seq<Match>, x: real)
    requires forall i :: 0 <= i < |high| ==> high[i].score != m.score
    ensures WithScore(low + [m] + high, x) == WithScore(low + high, x) + if m.score == x then [m] else []
  {
    WithScoreAppend(low, high, x);
    WithScoreBetween(low, m, high, x);
    if m.score == x {
      NoneWithScore(high, x);
    }
  }

  lemma InsertIsStable(ranked: seq<Match>, m: Match, x: real)
    requires Ranked(ranked)
    ensures WithScore(Insert(ranked, m), x) == WithScore(ranked, x) + if m.score == x then [m] else []
  {
    var p := Position(ranked, m.score);
    var low, high := ranked[..p], ranked[p..];
    LowerBehind(ranked, m.score);
    InsertedLast(low, m, high, x);
    assert low + high == ranked;
  }

  lemma LowerBehind(ranked: seq<Match>, score: real)
    requires Ranked(ranked)
    ensures var high := ranked[Position(ranked, score)..];
            forall i :: 0 <= i < |high| ==> high[i].score != score
  {
    var p := Position(ranked, score);
    forall i | p <= i < |ranked| ensures ranked[i].score < score {
      assert p < i ==> ranked[p].score >= ranked[i].score;
    }
  }

  /** The sort is stable: it ranks the matches and leaves those of one score in their order. There is
      only one such list, so nothing is lost or repeated either. */
  lemma {:induction false} SortIsStable(ms: seq<Match>, x: real)
    ensures Ranked(SortByScore(ms)) && WithScore(SortByScore(ms), x) == WithScore(ms, x)
  {
    SortRanks(ms);
    if ms != [] {
      var front, m := ms[..|ms| - 1], ms[|ms| - 1];
      SortRanks(front);
      SortIsStable(front, x);
      InsertIsStable(SortByScore(front), m, x);
    }
  }

  /** `ms[i]` is the first match of its path with the best score there is for it. */
  ghost predicate FirstBest(ms: seq<Match>, i: nat) {
    && i < |ms|
    && (forall j :: 0 <= j < i && ms[j].path == ms[i].path ==> ms[j].score < ms[i].score)
    && (forall j :: i <= j < |ms| && ms[j].path == ms[i].path ==> ms[j].score <= ms[i].score)
  }

  /** The paths in the order in which they first came up. */
  function PathOrder(ms: seq<Match>): seq<string> {
    if ms == [] then []
    else
      var before, path := PathOrder(ms[..|ms| - 1]), ms[|ms| - 1].path;
      if path in before then before else before + [path]
  }

  function PathsOf(ms: seq<Match>): seq<string> {
    seq(|ms|, i requires 0 <= i < |ms| => ms[i].path)
  }

  /** The dictionary has an entry per path, in the order in which the paths first came up. */
  lemma {:induction false} DedupInOrder(ms: seq<Match>)
    ensures PathsOf(Deduped(ms)) == PathOrder(ms)
  {
    if ms != [] {
      var seen, m := Deduped(ms[..|ms| - 1]), ms[|ms| - 1];
      DedupInOrder(ms[..|ms| - 1]);
      FindIsMember(seen, m.path);
      assert PathsOf(Noted(seen, m)) == PathsOf(seen) + if Find(seen, m.path) == |seen| then [m.path] else [];
    }
  }

  lemma FindIsMember(seen: seq<Match>, path: string)
    ensures Find(seen, path) < |seen| <==> path in PathsOf(seen)
  {
    assert forall i :: 0 <= i < |seen| ==> PathsOf(seen)[i] == seen[i].path;
  }

  lemma {:induction false} EveryPathIsListed(ms: seq<Match>, i: nat)
    requires i < |ms|
    ensures ms[i].path in PathOrder(ms)
  {
    if i < |ms| - 1 {
      EveryPathIsListed(ms[..|ms| - 1], i);
    }
  }

  /** A path's entry is its first best match. */
  lemma {:induction false} DedupKeepsFirstBest(ms: seq<Match>, k: nat) returns (i: nat)
    requires k < |Deduped(ms)|
    ensures FirstBest(ms, i) && ms[i] == Deduped(ms)[k]
  {
    var n := |ms| - 1;
    var front, m := ms[..n], ms[n];
    var seen := Deduped(front);
    var at := Find(seen, m.path);
    DedupKeepsBest(front);
    assert ms == front + [m];
    if k == |seen| {
      i := n;
      NewPathIsFirst(ms);
    } else {
      i := DedupKeepsFirstBest(front, k);
      FirstBestStep(front, m, i);
      if k == at && m.score > seen[k].score {
        i := n;
      }
    }
  }

  lemma FirstBestStep(front: seq<Match>, m: Match, i: nat)
    requires FirstBest(front, i)
    ensures m.path == front[i].path && m.score > front[i].score ==> FirstBest(front + [m], |front|)
    ensures (m.path == front[i].path && m.score > front[i].score) || FirstBest(front + [m], i)
  {
    var ms := front + [m];
    assert forall j :: 0 <= j < |front| ==> ms[j] == front[j];
  }

  lemma NewPathIsFirst(ms: seq<Match>)
    requires ms != []
    requires var seen := Deduped(ms[..|ms| - 1]); Find(seen, ms[|ms| - 1].path) == |seen|
    ensures forall j :: 0 <= j < |ms| - 1 ==> ms[j].path != ms[|ms| - 1].path
  {
    var n := |ms| - 1;
    var front := ms[..n];
    DedupInOrder(front);
    FindIsMember(Deduped(front), ms[n].path);
    forall j | 0 <= j < n ensures ms[j].path != ms[n].path {
      EveryPathIsListed(front, j);
    }
  }

  /** So each result is the first best match of its path. */
  lemma MergeShowsFirstBest(ms: seq<Match>, k: nat, m: Match) returns (i: nat)
    requires m in Merged(ms, k)
    ensures FirstBest(ms, i) && ms[i] == m
  {
    SortRanks(Deduped(ms));
    assert m in SortByScore(Deduped(ms));
    var j :| 0 <= j < |Deduped(ms)| && Deduped(ms)[j] == m;
    i := DedupKeepsFirstBest(ms, j);
  }

  // ---- Truncating early changes no score -----------------------------------------------------------

  lemma {:induction false} ConcatMembers(sources: seq<seq<Match>>, m: Match)
    ensures m in Concat(sources) <==> exists i :: 0 <= i < |sources| && m in sources[i]
  {
    if sources != [] {
      var n := |sources| - 1;
      ConcatMembers(sources[..n], m);
      if m in Concat(sources[..n]) {
        var i :| 0 <= i < n && m in sources[..n][i];
        assert m in sources[i];
      }
      if i :| 0 <= i < |sources| && m in sources[i] {
        assert i < n ==> m in sources[..n][i];
      }
    }
  }

  /** Cutting a source to its `k` best keeps `k` paths, or all of them. */
  predicate Spread(source: seq<Match>, k: nat) {
    |Paths(Best(source, k))| >= Min(k, |Paths(source)|)
  }

  /** A source without repeated paths is spread, whatever the `k`. */
  lemma DistinctIsSpread(source: seq<Match>, k: nat)
    requires DistinctPaths(source)
    ensures Spread(source, k)
  {
    SortRanks(source);
    PathCount(source);
    assert DistinctPaths(Best(source, k));
    PathCount(Best(source, k));
  }

  lemma ConcatBehind(front: seq<seq<Match>>, last: seq<Match>)
    ensures Concat(front + [last]) == Concat(front) + last
  {
    assert (front + [last])[..|front|] == front;
  }

  /** The sources follow each other in their order. */
  lemma {:induction false} ConcatInOrder(xs: seq<seq<Match>>, ys: seq<seq<Match>>)
    ensures Concat(xs + ys) == Concat(xs) + Concat(ys)
  {
    if ys == [] {
      assert xs + ys == xs;
    } else {
      var front, last := ys[..|ys| - 1], ys[|ys| - 1];
      ConcatInOrder(xs, front);
      assert ys == front + [last] && xs + ys == (xs + front) + [last];
      ConcatBehind(xs + front, last);
      ConcatBehind(front, last);
    }
  }

  /** A match that the cut removes scores no better than any match it leaves. */
  lemma CutLeavesBetter(source: seq<Match>, k: nat, m: Match)
    requires m in source && m !in Best(source, k)
    ensures forall o :: o in Best(source, k) ==> o in source && o.score >= m.score
  {
    var sorted := SortByScore(source);
    SortRanks(source);
    var i :| 0 <= i < |sorted| && sorted[i] == m;
    var best := Best(source, k);
    assert forall j :: 0 <= j < |best| ==> best[j] == sorted[j] && best[j] in best;
    assert i >= |best|;
  }

  lemma CutIsContained(sources: seq<seq<Match>>, k: nat, m: Match)
    requires m in Concat(Truncated(sources, k))
    ensures m in Concat(sources)
  {
    ConcatMembers(Truncated(sources, k), m);
    var i :| 0 <= i < |sources| && m in Truncated(sources, k)[i];
    SortRanks(sources[i]);
    ConcatMembers(sources, m);
  }

  lemma CutContributes(sources: seq<seq<Match>>, k: nat, i: nat)
    requires i < |sources|
    ensures forall o :: o in Best(sources[i], k) ==> o in Concat(Truncated(sources, k))
  {
    forall o | o in Best(sources[i], k) ensures o in Concat(Truncated(sources, k)) {
      ConcatMembers(Truncated(sources, k), o);
      assert o in Truncated(sources, k)[i];
    }
  }

  lemma BetterPathsCount(best: seq<Match>, cut: seq<Match>, score: real)
    requires forall o :: o in best ==> o in cut && o.score >= score
    ensures |Paths(best)| <= |PathsAtLeast(cut, score)|
  {
    SubsetCount(Paths(best), PathsAtLeast(cut, score));
  }

  /** After the cut, the path of `m` is still there as good as `m`, or `k` paths are. */
  predicate Covered(cut: seq<Match>, k: nat, m: Match) {
    m.path in PathsAtLeast(cut, m.score) || |PathsAtLeast(cut, m.score)| >= k
  }

  lemma SpreadCovers(sources: seq<seq<Match>>, k: nat, m: Match)
    requires forall s <- sources :: Spread(s, k)
    requires m in Concat(sources)
    ensures Covered(Concat(Truncated(sources, k)), k, m)
  {
    var cut := Concat(Truncated(sources, k));
    ConcatMembers(sources, m);
    var i :| 0 <= i < |sources| && m in sources[i];
    CutContributes(sources, k, i);
    if m !in Best(sources[i], k) {
      CutLeavesBetter(sources[i], k, m);
      if m.path !in Paths(Best(sources[i], k)) {
        PathIsLost(sources[i], k, m);
        BetterPathsCount(Best(sources[i], k), cut, m.score);
      }
    }
  }

  lemma PathIsLost(source: seq<Match>, k: nat, m: Match)
    requires Spread(source, k)
    requires m in source && m.path !in Paths(Best(source, k))
    requires forall o :: o in Best(source, k) ==> o in source
    ensures |Paths(Best(source, k))| >= k
  {
    SubsetCount(Paths(Best(source, k)) + {m.path}, Paths(source));
  }

  lemma CoveredCounts(sources: seq<seq<Match>>, k: nat, x: real)
    requires forall m <- Concat(sources) :: Covered(Concat(Truncated(sources, k)), k, m)
    ensures var cut, all := Concat(Truncated(sources, k)), Concat(sources);
            PathsAtLeast(cut, x) == PathsAtLeast(all, x) || |PathsAtLeast(cut, x)| >= k
  {
    var cut, all := Concat(Truncated(sources, k)), Concat(sources);
    CutIsSubset(sources, k, x);
    if p :| p in PathsAtLeast(all, x) && p !in PathsAtLeast(cut, x) {
      var m :| m in all && m.score >= x && m.path == p;
      assert Covered(cut, k, m);
      SubsetCount(PathsAtLeast(cut, m.score), PathsAtLeast(cut, x));
    }
  }

  lemma CutIsSubset(sources: seq<seq<Match>>, k: nat, x: real)
    ensures PathsAtLeast(Concat(Truncated(sources, k)), x) <= PathsAtLeast(Concat(sources), x)
  {
    forall m | m in Concat(Truncated(sources, k)) ensures m in Concat(sources) {
      CutIsContained(sources, k, m);
    }
  }

  lemma SubsetCount(a: set<string>, b: set<string>)
    requires a <= b
    ensures |a| <= |b|
  {
    assert b == a + (b - a);
  }

  function ScoresOf(ms: seq<Match>): seq<real> {
    seq(|ms|, i requires 0 <= i < |ms| => ms[i].score)
  }

  /** Cutting each source to its `k` best first gives the same scores, in the same order, as merging
      everything. */
  ghost predicate Pushdown(sources: seq<seq<Match>>, k: nat) {
    ScoresOf(Merged(Concat(Truncated(sources, k)), k)) == ScoresOf(Merged(Concat(sources), k))
  }

  /** Top-k pushdown holds exactly when every match, cut away or not, is covered. */
  lemma PushdownExactly(sources: seq<seq<Match>>, k: nat)
    ensures Pushdown(sources, k) <==> forall m <- Concat(sources) :: Covered(Concat(Truncated(sources, k)), k, m)
  {
    if forall m <- Concat(sources) :: Covered(Concat(Truncated(sources, k)), k, m) {
      CoverageSuffices(sources, k);
    } else {
      var m :| m in Concat(sources) && !Covered(Concat(Truncated(sources, k)), k, m);
      UncoveredIsLost(sources, k, m);
    }
  }

  lemma CoverageSuffices(sources: seq<seq<Match>>, k: nat)
    requires forall m <- Concat(sources) :: Covered(Concat(Truncated(sources, k)), k, m)
    ensures Pushdown(sources, k)
  {
    var cut, all := Concat(Truncated(sources, k)), Concat(sources);
    forall x: real ensures AsMany(cut, all, k, x) && AsMany(all, cut, k, x) {
      CoverageKeepsCounts(sources, k, x);
    }
    MoreMatchesMergeBetter(cut, all, k);
    MoreMatchesMergeBetter(all, cut, k);
    EqualScores(Merged(cut, k), Merged(all, k));
  }

  lemma UncoveredIsLost(sources: seq<seq<Match>>, k: nat, m: Match)
    requires m in Concat(sources) && !Covered(Concat(Truncated(sources, k)), k, m)
    ensures !Pushdown(sources, k)
  {
    var cut, all := Concat(Truncated(sources, k)), Concat(sources);
    var few, many := PathsAtLeast(cut, m.score), PathsAtLeast(all, m.score);
    CutIsSubset(sources, k, m.score);
    SubsetCount(few + {m.path}, many);
    MergeIsBestPerPath(cut, k, m.score);
    MergeIsBestPerPath(all, k, m.score);
    assert ScoresAtLeast(Merged(all, k), |few|, m.score) && !ScoresAtLeast(Merged(cut, k), |few|, m.score);
    var short, long := ScoresOf(Merged(cut, k)), ScoresOf(Merged(all, k));
    assert long[|few|] >= m.score;
    assert |few| < |short| ==> short[|few|] < m.score;
  }

  /** Top-k pushdown for spread sources, among them all sources in which no path repeats. */
  lemma TopKPushdown(sources: seq<seq<Match>>, k: nat)
    requires forall s <- sources :: Spread(s, k) || DistinctPaths(s)
    ensures Pushdown(sources, k)
  {
    forall s <- sources ensures Spread(s, k) {
      if DistinctPaths(s) {
        DistinctIsSpread(s, k);
      }
    }
    forall m <- Concat(sources) ensures Covered(Concat(Truncated(sources, k)), k, m) {
      SpreadCovers(sources, k, m);
    }
    PushdownExactly(sources, k);
  }

  /** Spread is needed: a selection of sources can be cut early, whichever it is, exactly when each
      source is spread. */
  lemma SelectionsPushDownExactly(sources: seq<seq<Match>>, k: nat)
    ensures (forall s <- sources :: Spread(s, k)) <==>
            forall chosen: seq<seq<Match>> :: (forall s <- chosen :: s in sources) ==> Pushdown(chosen, k)
  {
    if forall s <- sources :: Spread(s, k) {
      forall chosen: seq<seq<Match>> | forall s <- chosen :: s in sources ensures Pushdown(chosen, k) {
        TopKPushdown(chosen, k);
      }
    }
    forall s <- sources ensures Pushdown([s], k) ==> Spread(s, k) {
      SingleSource(s, k);
      MergeLength(Best(s, k), k);
      MergeLength(s, k);
      assert Pushdown([s], k) ==> |ScoresOf(Merged(Best(s, k), k))| == |ScoresOf(Merged(s, k))|;
    }
  }

  lemma EqualScores(r: seq<Match>, s: seq<Match>)
    requires |r| == |s|
    requires forall i :: 0 <= i < |r| ==> r[i].score <= s[i].score
    requires forall i :: 0 <= i < |s| ==> s[i].score <= r[i].score
    ensures ScoresOf(r) == ScoresOf(s)
  {
    forall i | 0 <= i < |r| ensures r[i].score == s[i].score {
      assert r[i].score <= s[i].score && s[i].score <= r[i].score;
    }
  }

  lemma CoverageKeepsCounts(sources: seq<seq<Match>>, k: nat, x: real)
    requires forall m <- Concat(sources) :: Covered(Concat(Truncated(sources, k)), k, m)
    ensures AsMany(Concat(Truncated(sources, k)), Concat(sources), k, x)
    ensures AsMany(Concat(sources), Concat(Truncated(sources, k)), k, x)
  {
    CoveredCounts(sources, k, x);
    CutIsSubset(sources, k, x);
    SubsetCount(PathsAtLeast(Concat(Truncated(sources, k)), x), PathsAtLeast(Concat(sources), x));
  }

  /** At score `x`, `ys` has as many paths as `xs`, or at least `k`. */
  predicate AsMany(xs: seq<Match>, ys: seq<Match>, k: nat, x: real) {
    Min(k, |PathsAtLeast(xs, x)|) <= |PathsAtLeast(ys, x)|
  }

  lemma MoreMatchesMergeBetter(xs: seq<Match>, ys: seq<Match>, k: nat)
    requires forall x: real :: AsMany(xs, ys, k, x)
    ensures |Merged(xs, k)| <= |Merged(ys, k)|
    ensures forall i :: 0 <= i < |Merged(xs, k)| ==> Merged(xs, k)[i].score <= Merged(ys, k)[i].score
  {
    forall i | 0 <= i < |Merged(xs, k)| ensures ScoresAtLeast(Merged(ys, k), i, Merged(xs, k)[i].score) {
      ResultIsMatched(xs, ys, k, i);
    }
    if Merged(xs, k) != [] {
      ResultIsMatched(xs, ys, k, |Merged(xs, k)| - 1);
    }
  }

  lemma ResultIsMatched(xs: seq<Match>, ys: seq<Match>, k: nat, i: nat)
    requires forall x: real :: AsMany(xs, ys, k, x)
    requires i < |Merged(xs, k)|
    ensures ScoresAtLeast(Merged(ys, k), i, Merged(xs, k)[i].score)
  {
    var x := Merged(xs, k)[i].score;
    MergeIsBestPerPath(xs, k, x);
    MergeIsBestPerPath(ys, k, x);
    assert ScoresAtLeast(Merged(xs, k), i, x) && AsMany(xs, ys, k, x);
  }

  /** The sort is stable: a ranking stays as it is. */
  lemma {:induction false} SortKeepsRanking(ms: seq<Match>)
    requires Ranked(ms)
    ensures SortByScore(ms) == ms
  {
    if ms != [] {
      var front, m := ms[..|ms| - 1], ms[|ms| - 1];
      SortKeepsRanking(front);
      WorseGoesLast(front, m);
      assert ms == front + [m];
    }
  }

  lemma WorseGoesLast(front: seq<Match>, m: Match)
    requires forall i :: 0 <= i < |front| ==> front[i].score >= m.score
    ensures Insert(front, m) == front + [m]
  {
    assert front[..|front|] == front && front[|front|..] == [];
  }

  /** With a path repeated within a source the cut can lose a result. */
  lemma RepeatedPathsBreakPushdown()
    ensures var a, b, c := Match("debt", "f", 0.9, ""), Match("debt", "f", 0.8, ""), Match("debt", "g", 0.7, "");
            |Merged(Concat(Truncated([[a, b, c]], 2)), 2)| == 1 && |Merged(Concat([[a, b, c]]), 2)| == 2
  {
    RepetitionCrowdsOut(Match("debt", "f", 0.9, ""), Match("debt", "f", 0.8, ""), Match("debt", "g", 0.7, ""));
  }

  lemma RepetitionCrowdsOut(a: Match, b: Match, c: Match)
    requires a.path == b.path != c.path && a.score >= b.score >= c.score
    ensures |Merged(Concat(Truncated([[a, b, c]], 2)), 2)| == 1 && |Merged(Concat([[a, b, c]]), 2)| == 2
  {
    var ms := [a, b, c];
    SortKeepsRanking(ms);
    assert Best(ms, 2) == [a, b];
    SingleSource(ms, 2);
    CountOneTwo(a, b, c);
  }

  lemma SingleSource(ms: seq<Match>, k: nat)
    ensures Concat([ms]) == ms && Concat(Truncated([ms], k)) == Best(ms, k)
  {
    assert [ms][..0] == [];
    assert Truncated([ms], k) == [Best(ms, k)] && [Best(ms, k)][..0] == [];
  }

  lemma CountOneTwo(a: Match, b: Match, c: Match)
    requires a.path == b.path != c.path
    ensures |Merged([a, b], 2)| == 1 && |Merged([a, b, c], 2)| == 2
  {
    PathsOfThree(a, b, c);
    MergeLength([a, b], 2);
    MergeLength([a, b, c], 2);
  }

  lemma PathsOfThree(a: Match, b: Match, c: Match)
    requires a.path == b.path != c.path
    ensures |Paths([a, b])| == 1 && |Paths([a, b, c])| == 2
  {
    var p, q := a.path, c.path;
    forall x ensures x in Paths([a, b]) <==> x in {p} {
      assert a in [a, b];
    }
    forall x ensures x in Paths([a, b, c]) <==> x in {p, q} {
      assert a in [a, b, c] && c in [a, b, c];
    }
    assert Paths([a, b]) == {p} && Paths([a, b, c]) == {p, q};
    assert |{p}| == 1 && |{p, q}| == 2;
  }

  /** The merge has one result per path, up to `k`. */
  lemma MergeLength(ms: seq<Match>, k: nat)
    ensures |Merged(ms, k)| == Min(k, |Paths(ms)|)
  {
    var d := Deduped(ms);
    DedupKeepsBest(ms);
    PathCount(d);
    forall p ensures p in Paths(d) <==> p in Paths(ms) {
      if p in Paths(ms) {
        var m :| m in ms && m.path == p;
        assert p in PathsAtLeast(d, m.score);
      }
    }
    assert Paths(d) == Paths(ms);
  }
}
