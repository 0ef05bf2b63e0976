/** Checkpoint retention: `cleanup_old_checkpoints` in cos_lib/checkpoint_manager.py. The directory is
    a map from checkpoint id to what is on disk for it. */
module CheckpointRetention {
  import opened Common

  /** A metadata file or a payload directory. */
  datatype Part = Part(mtime: real, size: nat)

  datatype Record = Record(meta: Option<Part>, payload: Option<Part>) {
    predicate OnDisk() { meta.Some? || payload.Some? }
  }

  type Directory = map<string, Record>

  datatype Policy = Policy(keepLast: int, maxAgeDays: Option<real>, maxTotalMib: Option<real>)

  /** The later date of what is there. */
  function Mtime(r: Record): (t: real)
    ensures r.meta.Some? ==> t >= r.meta.value.mtime
    ensures r.payload.Some? ==> t >= r.payload.value.mtime
    ensures r.OnDisk() ==> (r.meta.Some? && t == r.meta.value.mtime) || (r.payload.Some? && t == r.payload.value.mtime)
  {
    match r
    case Record(Some(m), Some(p)) => if m.mtime < p.mtime then p.mtime else m.mtime
    case Record(Some(m), None) => m.mtime
    case Record(None, Some(p)) => p.mtime
    case _ => 0.0
  }

  function Size(r: Record): nat {
    (if r.meta.Some? then r.meta.value.size else 0) + (if r.payload.Some? then r.payload.value.size else 0)
  }

  // ---- The order: newest first, ties broken by id -----------------------------------------

  /** Python's `<` on strings. */
  predicate Less(s: string, t: string) {
    t != "" && (s == "" || s[0] < t[0] || (s[0] == t[0] && Less(s[1..], t[1..])))
  }

  predicate Newer(d: Directory, a: string, b: string) {
    && a in d && b in d
    && (Mtime(d[a]) > Mtime(d[b]) || (Mtime(d[a]) == Mtime(d[b]) && Less(b, a)))
  }

  lemma {:induction false} LessIsTotal(s: string, t: string)
    ensures s == t || Less(s, t) || Less(t, s)
    ensures !(Less(s, t) && Less(t, s)) && !Less(s, s)
  {
    if s != "" && t != "" {
      LessIsTotal(s[1..], t[1..]);
      LessIsTotal(s[1..], s[1..]);
      assert s[0] == t[0] && s[1..] == t[1..] ==> s == [s[0]] + s[1..] == t;
    } else if s != "" {
      LessIsTotal(s[1..], s[1..]);
    }
  }

  /** `s` and `t` agree before `i`, where `s` ends or has the smaller character. */
  ghost predicate SmallerAt(s: string, t: string, i: nat) {
    i <= |s| && i < |t| && s[..i] == t[..i] && (i == |s| || s[i] < t[i])
  }

  /** `s` is a proper beginning of `t`, or has the smaller character where they first differ. */
  lemma LessExactly(s: string, t: string)
    ensures Less(s, t) <==> exists i :: SmallerAt(s, t, i)
  {
    if Less(s, t) {
      var i := WhereLess(s, t);
    }
    if i :| SmallerAt(s, t, i) {
      LessFrom(s, t, i);
    }
  }

  lemma {:induction false} LessFrom(s: string, t: string, i: nat)
    requires SmallerAt(s, t, i)
    ensures Less(s, t)
  {
    if i > 0 {
      assert s[0] == s[..i][0] == t[..i][0] == t[0];
      assert s[1..][..i - 1] == s[..i][1..] == t[..i][1..] == t[1..][..i - 1];
      LessFrom(s[1..], t[1..], i - 1);
    }
  }

  lemma {:induction false} WhereLess(s: string, t: string) returns (i: nat)
    requires Less(s, t)
    ensures SmallerAt(s, t, i)
  {
    i := 0;
    if s != "" && s[0] == t[0] {
      var k := WhereLess(s[1..], t[1..]);
      assert s[..k + 1] == [s[0]] + s[1..][..k] && t[..k + 1] == [t[0]] + t[1..][..k];
      i := k + 1;
    }
  }

  lemma {:induction false} LessIsTransitive(s: string, t: string, u: string)
    requires Less(s, t) && Less(t, u)
    ensures Less(s, u)
  {
    if s != "" && s[0] == t[0] == u[0] {
      LessIsTransitive(s[1..], t[1..], u[1..]);
    }
  }

  lemma NewerIsTotal(d: Directory, a: string, b: string)
    requires a in d && b in d
    ensures a == b || Newer(d, a, b) || Newer(d, b, a)
    ensures !(Newer(d, a, b) && Newer(d, b, a))
  {
    LessIsTotal(a, b);
  }

  lemma NewerIsTransitive(d: Directory, a: string, b: string, c: string)
    requires a in d && b in d && c in d && Newer(d, a, b) && Newer(d, b, c)
    ensures Newer(d, a, c)
  {
    if Less(b, a) && Less(c, b) {
      LessIsTransitive(c, b, a);
    }
  }

  ghost predicate SortedBy(newer: (string, string) -> bool, ids: seq<string>) {
    forall i, j :: 0 <= i < j < |ids| ==> newer(ids[i], ids[j])
  }

  ghost predicate Sorted(d: Directory, ids: seq<string>) {
    SortedBy((a, b) => Newer(d, a, b), ids)
  }

  /** `ids` lists the whole directory, newest first. */
  ghost predicate IsOrdering(d: Directory, ids: seq<string>) {
    && (forall id :: id in ids <==> id in d)
    && Sorted(d, ids)
  }

  /** How many of `ids` are newer than `id`, when they are sorted. */
  function Position(d: Directory, ids: seq<string>, id: string): (p: nat)
    requires id in d && forall x :: x in ids ==> x in d
    ensures p <= |ids|
    ensures forall i :: 0 <= i < p ==> !Newer(d, id, ids[i])
    ensures p < |ids| ==> Newer(d, id, ids[p])
  {
    if ids == [] || Newer(d, id, ids[0]) then 0 else 1 + Position(d, ids[1..], id)
  }

  function Insert(d: Directory, ids: seq<string>, id: string): seq<string>
    requires id in d && forall x :: x in ids ==> x in d
  {
    var p := Position(d, ids, id);
    ids[..p] + [id] + ids[p..]
  }

  lemma InsertBetween(newer: (string, string) -> bool, ids: seq<string>, p: nat, id: string)
    requires SortedBy(newer, ids) && p <= |ids|
    requires forall i :: 0 <= i < p ==> newer(ids[i], id)
    requires forall i :: p <= i < |ids| ==> newer(id, ids[i])
    ensures SortedBy(newer, ids[..p] + [id] + ids[p..])
    ensures forall x :: x in ids[..p] + [id] + ids[p..] <==> x == id || x in ids
  {
    assert ids == ids[..p] + ids[p..];
  }

  lemma InsertSorts(d: Directory, ids: seq<string>, id: string)
    requires id in d && id !in ids && (forall x :: x in ids ==> x in d) && Sorted(d, ids)
    ensures forall x :: x in Insert(d, ids, id) <==> x == id || x in ids
    ensures Sorted(d, Insert(d, ids, id))
  {
    var p := Position(d, ids, id);
    var newer := (a, b) => Newer(d, a, b);
    forall i | 0 <= i < |ids| ensures if i < p then newer(ids[i], id) else newer(id, ids[i]) {
      if i < p {
        NewerIsTotal(d, id, ids[i]);
      } else if p < i {
        assert newer(ids[p], ids[i]);
        NewerIsTransitive(d, id, ids[p], ids[i]);
      }
    }
    InsertBetween(newer, ids, p, id);
  }

  method SortNewestFirst(d: Directory) returns (ids: seq<string>)
    ensures IsOrdering(d, ids)
  {
    ids := [];
    var todo := d.Keys;
    while todo != {}
      invariant todo <= d.Keys
      invariant forall id :: id in ids <==> id in d.Keys - todo
      invariant Sorted(d, ids)
      decreases todo
    {
      var id :| id in todo;
      InsertSorts(d, ids, id);
      ids := Insert(d, ids, id);
      todo := todo - {id};
    }
  }

  // ---- The three filters ----------------------------------------------------------------------

  predicate Aged(d: Directory, id: string, cutoff: real) {
    id in d && Mtime(d[id]) < cutoff
  }

  /** The ids in `ids` that are aged, or those that are not. */
  function Filter(d: Directory, ids: seq<string>, cutoff: real, aged: bool): seq<string> {
    if ids == [] then []
    else
      var id := ids[|ids| - 1];
      Filter(d, ids[..|ids| - 1], cutoff, aged) + if Aged(d, id, cutoff) == aged then [id] else []
  }

  function SizeOf(d: Directory, id: string): nat {
    if id in d then Size(d[id]) else 0
  }

  function Total(d: Directory, ids: seq<string>): nat {
    if ids == [] then 0 else Total(d, ids[..|ids| - 1]) + SizeOf(d, ids[|ids| - 1])
  }

  /** The first position after the newest at which the sizes so far exceed the budget. */
  function BudgetCut(d: Directory, ids: seq<string>, budget: int, i: nat): (k: nat)
    requires i <= |ids|
    ensures i <= k <= |ids|
    decreases |ids| - i
  {
    if i == |ids| || (Total(d, ids[..i + 1]) > budget && i > 0) then i else BudgetCut(d, ids, budget, i + 1)
  }

  function Cutoff(p: Policy, now: real): real
    requires p.maxAgeDays.Some?
  {
    now - p.maxAgeDays.value * 86400.0
  }

  function Budget(p: Policy): int
    requires p.maxTotalMib.Some?
  {
    Trunc(p.maxTotalMib.value * 1048576.0)
  }

  /** The checkpoints that pass the count and the age filter. */
  function Recent(d: Directory, ids: seq<string>, p: Policy, now: real): seq<string> {
    var newest := ids[..Cut(|ids|, p.keepLast)];
    if p.maxAgeDays.Some? then Filter(d, newest, Cutoff(p, now), false) else newest
  }

  /** The checkpoints kept, given the directory's ordering. */
  function Retained(d: Directory, ids: seq<string>, p: Policy, now: real): seq<string> {
    var recent := Recent(d, ids, p, now);
    if p.maxTotalMib.Some? then recent[..BudgetCut(d, recent, Budget(p), 0)] else recent
  }

  function Only(d: Directory, ids: seq<string>): Directory {
    map id | id in ids && id in d :: d[id]
  }

  class CheckpointStore {
    var entries: Directory

    /** Scanning finds a file or a directory for every entry. */
    ghost predicate Valid()
      reads this
    {
      forall id :: id in entries ==> entries[id].OnDisk()
    }

    method Cleanup(p: Policy, now: real) returns (removed: nat, ghost ids: seq<string>)
      requires Valid()
      modifies this
      ensures Valid()
      ensures IsOrdering(old(entries), ids)
      ensures entries == Only(old(entries), Retained(old(entries), ids, p, now))
      ensures forall id :: id in entries <==> id in Retained(old(entries), ids, p, now)
      ensures forall id :: id in entries ==> id in old(entries) && entries[id] == old(entries)[id]
      ensures removed == |ids| - |Retained(old(entries), ids, p, now)|
    {
      var ordered := SortNewestFirst(entries);
      ids := ordered;
      ghost var was := entries;
      var toRemove, survivors := Partition(entries, ordered, p, now);
      ListedSplit(was, ordered, |survivors|);
      removed := Delete(toRemove);
      assert entries == Only(was, survivors);
    }

    method Delete(toRemove: seq<string>) returns (removed: nat)
      requires Valid()
      requires Distinct(toRemove) && forall id :: id in toRemove ==> id in entries
      modifies this
      ensures forall id :: id in entries <==> id in old(entries) && id !in toRemove
      ensures forall id :: id in entries ==> entries[id] == old(entries)[id]
      ensures Valid()
      ensures removed == |toRemove|
    {
      removed := 0;
      for i := 0 to |toRemove|
        invariant forall id :: id in entries <==> id in old(entries) && id !in toRemove[..i]
        invariant forall id :: id in entries ==> entries[id] == old(entries)[id]
        invariant removed == i
      {
        var id := toRemove[i];
        assert id in toRemove;
        var deletedAny := entries[id].meta.Some? || entries[id].payload.Some?;
        entries := entries - {id};
        if deletedAny {
          removed := removed + 1;
        }
      }
    }
  }

  /** Sorts the ordered checkpoints into those to remove and those to keep. */
  method Partition(d: Directory, ordered: seq<string>, p: Policy, now: real)
    returns (toRemove: seq<string>, survivors: seq<string>)
    requires IsOrdering(d, ordered)
    ensures survivors == Retained(d, ordered, p, now)
    ensures |survivors| <= |ordered| && survivors == ordered[..|survivors|]
    ensures |toRemove| == |ordered| - |survivors| && Distinct(toRemove)
    ensures forall id :: id in toRemove <==> id in ordered[|survivors|..]
  {
    var cut := Cut(|ordered|, p.keepLast);
    toRemove, survivors := ordered[cut..], ordered[..cut];
    ghost var kept := cut;
    if p.maxAgeDays.Some? {
      var cutoff := Cutoff(p, now);
      kept := RecentIsPrefix(d, ordered, cut, cutoff);
      toRemove := toRemove + Filter(d, survivors, cutoff, true);
      survivors := Filter(d, survivors, cutoff, false);
    } else {
      assert toRemove == toRemove + ordered[kept..cut];
    }
    ghost var recent := kept;
    if p.maxTotalMib.Some? {
      var keep := WithinBudget(d, survivors, Budget(p));
      kept := keep;
      PrefixSlices(ordered, keep, recent);
      toRemove, survivors := toRemove + survivors[keep..], survivors[..keep];
    } else {
      assert toRemove == toRemove + ordered[kept..recent];
    }
    OrderingIsDistinct(d, ordered);
    RemovedAreDistinct(ordered, kept, recent, cut, toRemove);
  }

  lemma PrefixSlices(ids: seq<string>, i: nat, j: nat)
    requires i <= j <= |ids|
    ensures ids[..j][i..] == ids[i..j] && ids[..j][..i] == ids[..i]
  {
  }

  lemma RemovedAreDistinct(ids: seq<string>, i: nat, j: nat, k: nat, removed: seq<string>)
    requires Distinct(ids) && i <= j <= k <= |ids|
    requires removed == ids[k..] + ids[j..k] + ids[i..j]
    ensures |removed| == |ids| - i && Distinct(removed)
    ensures forall id :: id in removed <==> id in ids[i..]
  {
    SlicesAreDistinct(ids, i, j, k);
  }

  method WithinBudget(d: Directory, survivors: seq<string>, budget: int) returns (keep: nat)
    ensures keep == BudgetCut(d, survivors, budget, 0)
  {
    var used := 0;
    for index := 0 to |survivors|
      invariant used == Total(d, survivors[..index])
      invariant BudgetCut(d, survivors, budget, 0) == BudgetCut(d, survivors, budget, index)
    {
      assert survivors[..index + 1][..index] == survivors[..index];
      used := used + SizeOf(d, survivors[index]);
      if used > budget && index > 0 {
        return index;
      }
    }
    return |survivors|;
  }

  ghost predicate Distinct(ids: seq<string>) {
    forall i, j :: 0 <= i < j < |ids| ==> ids[i] != ids[j]
  }

  lemma DistinctParts(xs: seq<string>, ys: seq<string>)
    requires Distinct(xs + ys)
    ensures Distinct(xs) && Distinct(ys) && Distinct(ys + xs)
    ensures forall id :: id in xs ==> id !in ys
  {
    forall i, j | 0 <= i < |xs| && 0 <= j < |ys| ensures xs[i] != ys[j] {
      assert (xs + ys)[i] != (xs + ys)[|xs| + j];
    }
    forall i, j | 0 <= i < j < |ys| ensures ys[i] != ys[j] {
      assert (xs + ys)[|xs| + i] != (xs + ys)[|xs| + j];
    }
    forall i, j | 0 <= i < j < |xs| ensures xs[i] != xs[j] {
      assert (xs + ys)[i] != (xs + ys)[j];
    }
  }

  lemma DistinctJoin(xs: seq<string>, ys: seq<string>)
    requires Distinct(xs) && Distinct(ys) && forall id :: id in xs ==> id !in ys
    ensures Distinct(xs + ys)
  {
    forall i, j | 0 <= i < |xs| && 0 <= j < |ys| ensures xs[i] != ys[j] {
      assert xs[i] in xs;
    }
  }

  lemma SlicesAreDistinct(ids: seq<string>, i: nat, j: nat, k: nat)
    requires Distinct(ids) && i <= j <= k <= |ids|
    ensures Distinct(ids[k..] + ids[j..k] + ids[i..j])
    ensures forall id :: id in ids[k..] + ids[j..k] + ids[i..j] <==> id in ids[i..]
  {
    var a, b, c := ids[i..j], ids[j..k], ids[k..];
    assert ids == ids[..i] + ids[i..] && ids[i..] == a + ids[j..] && ids[j..] == b + c;
    DistinctParts(ids[..i], ids[i..]);
    DistinctParts(a, b + c);
    DistinctParts(b, c);
    DistinctJoin(c + b, a);
  }

  lemma IndexOrder(d: Directory, ids: seq<string>, i: nat, j: nat)
    requires IsOrdering(d, ids) && i < |ids| && j < |ids|
    ensures Newer(d, ids[i], ids[j]) <==> i < j
  {
    var newer := (a, b) => Newer(d, a, b);
    assert ids[i] in ids && ids[j] in ids;
    if i < j {
      assert newer(ids[i], ids[j]);
    } else {
      NewerIsTotal(d, ids[i], ids[j]);
      LessIsTotal(ids[i], ids[i]);
      assert j < i ==> newer(ids[j], ids[i]);
    }
  }

  lemma OrderingIsDistinct(d: Directory, ids: seq<string>)
    requires Sorted(d, ids)
    ensures Distinct(ids)
  {
    forall i, j | 0 <= i < j < |ids| ensures ids[i] != ids[j] {
      LessIsTotal(ids[i], ids[j]);
      assert ((a, b) => Newer(d, a, b))(ids[i], ids[j]);
    }
  }

  /** Cutting the ordering at `k` splits the directory. */
  lemma ListedSplit(d: Directory, ids: seq<string>, k: nat)
    requires IsOrdering(d, ids) && k <= |ids|
    ensures forall id :: id in d <==> id in ids[..k] || id in ids[k..]
    ensures forall id :: id in ids[..k] ==> id !in ids[k..]
  {
    OrderingIsDistinct(d, ids);
    assert ids == ids[..k] + ids[k..];
  }

  lemma {:induction false} FilterAll(d: Directory, ids: seq<string>, cutoff: real, aged: bool)
    requires forall i :: 0 <= i < |ids| ==> Aged(d, ids[i], cutoff) == aged
    ensures Filter(d, ids, cutoff, aged) == ids && Filter(d, ids, cutoff, !aged) == []
  {
    if ids != [] {
      FilterAll(d, ids[..|ids| - 1], cutoff, aged);
      assert ids == ids[..|ids| - 1] + [ids[|ids| - 1]];
    }
  }

  lemma {:induction false} FilterAppend(d: Directory, xs: seq<string>, ys: seq<string>, cutoff: real, aged: bool)
    ensures Filter(d, xs + ys, cutoff, aged) == Filter(d, xs, cutoff, aged) + Filter(d, ys, cutoff, aged)
  {
    if ys == [] {
      assert xs + ys == xs;
    } else {
      assert (xs + ys)[..|xs + ys| - 1] == xs + ys[..|ys| - 1];
      FilterAppend(d, xs, ys[..|ys| - 1], cutoff, aged);
    }
  }

  /** The aged checkpoints come last. */
  lemma AgedComeLast(d: Directory, ids: seq<string>, cutoff: real) returns (m: nat)
    requires IsOrdering(d, ids)
    ensures m <= |ids|
    ensures forall i :: 0 <= i < |ids| ==> (Aged(d, ids[i], cutoff) <==> m <= i)
  {
    m := 0;
    while m < |ids| && !Aged(d, ids[m], cutoff)
      invariant m <= |ids| && forall i :: 0 <= i < m ==> !Aged(d, ids[i], cutoff)
    {
      m := m + 1;
    }
    forall i | m <= i < |ids| ensures Aged(d, ids[i], cutoff) {
      assert ids[i] in ids;
      assert m < i ==> ((a, b) => Newer(d, a, b))(ids[m], ids[i]);
    }
  }

  /** So the age filter keeps a prefix. */
  lemma RecentIsPrefix(d: Directory, ids: seq<string>, cut: nat, cutoff: real) returns (m: nat)
    requires IsOrdering(d, ids) && cut <= |ids|
    ensures m <= cut
    ensures forall i :: 0 <= i < cut ==> (Aged(d, ids[i], cutoff) <==> m <= i)
    ensures Filter(d, ids[..cut], cutoff, false) == ids[..m]
    ensures Filter(d, ids[..cut], cutoff, true) == ids[m..cut]
  {
    var last := AgedComeLast(d, ids, cutoff);
    m := Min(last, cut);
    assert ids[..cut] == ids[..m] + ids[m..cut];
    FilterParts(d, ids[..m], ids[m..cut], cutoff);
  }

  lemma FilterParts(d: Directory, keep: seq<string>, drop: seq<string>, cutoff: real)
    requires forall i :: 0 <= i < |keep| ==> !Aged(d, keep[i], cutoff)
    requires forall i :: 0 <= i < |drop| ==> Aged(d, drop[i], cutoff)
    ensures Filter(d, keep + drop, cutoff, false) == keep
    ensures Filter(d, keep + drop, cutoff, true) == drop
  {
    FilterAll(d, keep, cutoff, false);
    FilterAll(d, drop, cutoff, true);
    FilterAppend(d, keep, drop, cutoff, false);
    FilterAppend(d, keep, drop, cutoff, true);
  }

  // ---- Main results -----------------------------------------------------------------------------

  /** The `k` newest checkpoints satisfy the policy: not too many, none too old, and within the
      budget unless it is the newest alone. */
  ghost predicate Eligible(d: Directory, ids: seq<string>, p: Policy, now: real, k: nat)
    requires k <= |ids|
  {
    && (if p.keepLast >= 0 then k <= p.keepLast else k == 0 || k <= |ids| + p.keepLast)
    && (p.maxAgeDays.Some? ==>
          forall i :: 0 <= i < k && ids[i] in d ==> Mtime(d[ids[i]]) >= now - p.maxAgeDays.value * 86400.0)
    && (p.maxTotalMib.Some? ==>
          k <= 1 || SumOfSizes(d, ids[..k]) <= Trunc(p.maxTotalMib.value * 1048576.0))
  }

  /** The same in the terms of the filters. */
  ghost predicate Fits(d: Directory, ids: seq<string>, p: Policy, now: real, k: nat)
    requires k <= |ids|
  {
    && k <= Cut(|ids|, p.keepLast)
    && (p.maxAgeDays.Some? ==> forall i :: 0 <= i < k ==> !Aged(d, ids[i], Cutoff(p, now)))
    && (p.maxTotalMib.Some? ==> k <= 1 || Total(d, ids[..k]) <= Budget(p))
  }

  lemma FitsIsEligible(d: Directory, ids: seq<string>, p: Policy, now: real, k: nat)
    requires k <= |ids|
    ensures Fits(d, ids, p, now, k) <==> Eligible(d, ids, p, now, k)
  {
    TotalIsSum(d, ids[..k]);
  }

  function PartSize(part: Option<Part>): nat {
    if part.Some? then part.value.size else 0
  }

  /** The sizes of the metadata files and the payload directories. */
  function SumOfSizes(d: Directory, ids: seq<string>): nat {
    if ids == [] then 0
    else (if ids[0] in d then PartSize(d[ids[0]].meta) + PartSize(d[ids[0]].payload) else 0) + SumOfSizes(d, ids[1..])
  }

  lemma {:induction false} SumAppend(d: Directory, xs: seq<string>, id: string)
    ensures SumOfSizes(d, xs + [id]) == SumOfSizes(d, xs) + SizeOf(d, id)
  {
    if xs == [] {
      assert xs + [id] == [id] && [id][1..] == [];
    } else {
      assert (xs + [id])[1..] == xs[1..] + [id];
      SumAppend(d, xs[1..], id);
    }
  }

  lemma {:induction false} TotalIsSum(d: Directory, ids: seq<string>)
    ensures Total(d, ids) == SumOfSizes(d, ids)
  {
    if ids != [] {
      TotalIsSum(d, ids[..|ids| - 1]);
      SumAppend(d, ids[..|ids| - 1], ids[|ids| - 1]);
      assert ids == ids[..|ids| - 1] + [ids[|ids| - 1]];
    }
  }

  lemma {:induction false} TotalGrows(d: Directory, ids: seq<string>, i: nat, j: nat)
    requires i <= j <= |ids|
    ensures Total(d, ids[..i]) <= Total(d, ids[..j])
    decreases j - i
  {
    if i < j {
      TotalGrows(d, ids, i, j - 1);
      assert ids[..j][..j - 1] == ids[..j - 1];
    }
  }

  /** The budget cut is the longest prefix within the budget, or of one. */
  lemma {:induction false} BudgetCutIsLongest(d: Directory, ids: seq<string>, budget: int, i: nat)
    requires i <= |ids| && (i <= 1 || Total(d, ids[..i]) <= budget)
    ensures var k := BudgetCut(d, ids, budget, i);
            && (k <= 1 || Total(d, ids[..k]) <= budget)
            && forall j :: k < j <= |ids| ==> j > 1 && Total(d, ids[..j]) > budget
    decreases |ids| - i
  {
    if i < |ids| {
      if Total(d, ids[..i + 1]) > budget && i > 0 {
        forall j | i < j <= |ids| ensures Total(d, ids[..j]) > budget {
          TotalGrows(d, ids, i + 1, j);
        }
      } else {
        BudgetCutIsLongest(d, ids, budget, i + 1);
      }
    }
  }

  lemma RecentAreFirst(d: Directory, ids: seq<string>, p: Policy, now: real) returns (m: nat)
    requires IsOrdering(d, ids)
    ensures m <= Cut(|ids|, p.keepLast) && Recent(d, ids, p, now) == ids[..m]
    ensures p.maxAgeDays.Some? ==>
              forall i :: 0 <= i < Cut(|ids|, p.keepLast) ==> (Aged(d, ids[i], Cutoff(p, now)) <==> m <= i)
    ensures p.maxAgeDays.None? ==> m == Cut(|ids|, p.keepLast)
  {
    m := Cut(|ids|, p.keepLast);
    if p.maxAgeDays.Some? {
      m := RecentIsPrefix(d, ids, m, Cutoff(p, now));
    }
  }

  lemma LongestFitIsKept(d: Directory, ids: seq<string>, p: Policy, now: real) returns (k: nat)
    requires IsOrdering(d, ids)
    ensures k <= |ids| && Retained(d, ids, p, now) == ids[..k]
    ensures Fits(d, ids, p, now, k)
    ensures forall j :: k < j <= |ids| ==> !Fits(d, ids, p, now, j)
  {
    var m := RecentAreFirst(d, ids, p, now);
    k := m;
    if p.maxTotalMib.Some? {
      k := BudgetCut(d, ids[..m], Budget(p), 0);
      assert ids[..m][..k] == ids[..k];
      BudgetOnPrefix(d, ids, m, Budget(p));
    }
    forall j | k < j <= |ids| ensures !Fits(d, ids, p, now, j) {
      if m < j && p.maxAgeDays.Some? && m < Cut(|ids|, p.keepLast) {
        assert Aged(d, ids[m], Cutoff(p, now));
      }
    }
  }

  /** Retention keeps the longest eligible newest-first prefix. */
  lemma RetentionKeepsNewest(d: Directory, ids: seq<string>, p: Policy, now: real) returns (k: nat)
    requires IsOrdering(d, ids)
    ensures k <= |ids| && Retained(d, ids, p, now) == ids[..k]
    ensures Eligible(d, ids, p, now, k)
    ensures forall j :: k < j <= |ids| ==> !Eligible(d, ids, p, now, j)
  {
    k := LongestFitIsKept(d, ids, p, now);
    forall j | k <= j <= |ids| ensures Fits(d, ids, p, now, j) <==> Eligible(d, ids, p, now, j) {
      FitsIsEligible(d, ids, p, now, j);
    }
  }

  lemma BudgetOnPrefix(d: Directory, ids: seq<string>, m: nat, budget: int)
    requires m <= |ids|
    ensures var k := BudgetCut(d, ids[..m], budget, 0);
            && (k <= 1 || Total(d, ids[..k]) <= budget)
            && forall j :: k < j <= m ==> j > 1 && Total(d, ids[..j]) > budget
  {
    BudgetCutIsLongest(d, ids[..m], budget, 0);
    assert forall j :: 0 <= j <= m ==> ids[..m][..j] == ids[..j];
  }

  /** What is kept is closed under "newer", has at most `keep_last` members, and exceeds a budget
      only if the newest checkpoint does so alone. */
  lemma RetentionIsDownwardClosed(d: Directory, ids: seq<string>, p: Policy, now: real, a: string, b: string)
    requires IsOrdering(d, ids)
    ensures var kept := Retained(d, ids, p, now);
            && (a in kept && Newer(d, b, a) ==> b in kept)
            && (p.keepLast >= 0 ==> |kept| <= p.keepLast)
            && (p.maxTotalMib.Some? && kept != [] ==>
                  var budget := Trunc(p.maxTotalMib.value * 1048576.0);
                  (SumOfSizes(d, kept) <= budget <==> SumOfSizes(d, kept[..1]) <= budget))
  {
    var k := LongestFitIsKept(d, ids, p, now);
    var kept := ids[..k];
    if a in kept && Newer(d, b, a) {
      var i :| 0 <= i < k && ids[i] == a;
      assert b in ids;
      var j :| 0 <= j < |ids| && ids[j] == b;
      IndexOrder(d, ids, j, i);
      assert ids[..k][j] == b;
    }
    if kept != [] {
      TotalGrows(d, kept, 1, k);
      assert kept[..k] == kept;
      TotalIsSum(d, kept);
      TotalIsSum(d, kept[..1]);
    }
  }

  lemma {:induction false} SameTotal(d: Directory, d': Directory, ids: seq<string>)
    requires forall id :: id in ids ==> id in d && id in d' && d[id] == d'[id]
    ensures Total(d, ids) == Total(d', ids)
  {
    if ids != [] {
      assert forall id :: id in ids[..|ids| - 1] ==> id in ids;
      SameTotal(d, d', ids[..|ids| - 1]);
    }
  }

  lemma PrefixIsOrdering(d: Directory, ids: seq<string>, k: nat)
    requires IsOrdering(d, ids) && k <= |ids|
    ensures IsOrdering(Only(d, ids[..k]), ids[..k])
  {
    var after := Only(d, ids[..k]);
    forall i, j | 0 <= i < j < k ensures ((a, b) => Newer(after, a, b))(ids[i], ids[j]) {
      assert ids[i] in ids[..k] && ids[j] in ids[..k];
      assert ((a, b) => Newer(d, a, b))(ids[i], ids[j]);
    }
  }

  lemma FitsAfter(d: Directory, ids: seq<string>, p: Policy, now: real, k: nat, j: nat)
    requires IsOrdering(d, ids) && j <= k <= |ids| && Fits(d, ids, p, now, k)
    ensures Fits(Only(d, ids[..k]), ids[..k], p, now, j) <==> j <= Cut(k, p.keepLast)
  {
    var after := Only(d, ids[..k]);
    forall i | 0 <= i < k ensures ids[i] in after && after[ids[i]] == d[ids[i]] {
      assert ids[i] in ids[..k] && ids[i] in ids;
    }
    assert ids[..k][..j] == ids[..j];
    TotalGrows(d, ids, j, k);
    SameTotal(d, after, ids[..j]);
  }

  /** Running it again at the same time removes nothing, exactly when `keep_last` is not negative or
      nothing was left: a negative one drops that many of the oldest on every run. */
  lemma RetentionIsIdempotentExactly(d: Directory, ids: seq<string>, p: Policy, now: real)
    requires IsOrdering(d, ids)
    ensures var kept := Retained(d, ids, p, now);
            var after := Only(d, kept);
            && IsOrdering(after, kept)
            && (Retained(after, kept, p, now) == kept <==> p.keepLast >= 0 || kept == [])
  {
    var k := LongestFitIsKept(d, ids, p, now);
    var kept := ids[..k];
    var after := Only(d, kept);
    PrefixIsOrdering(d, ids, k);
    var again := LongestFitIsKept(after, kept, p, now);
    FitsAfter(d, ids, p, now, k, k);
    assert kept[..k] == kept;
    if p.keepLast >= 0 || k == 0 {
      assert again == k;
    } else {
      assert again < k;
    }
  }

  /** With `keep_last = -1` the first run keeps one of two checkpoints and the second none. */
  lemma NegativeKeepLastDropsAgain(r: Record, now: real)
    ensures var d, p := map["a" := r, "b" := r], Policy(-1, None, None);
            && IsOrdering(d, ["b", "a"])
            && Retained(d, ["b", "a"], p, now) == ["b"]
            && Retained(Only(d, ["b"]), ["b"], p, now) == []
  {
    assert Less("a", "b");
  }

  /** A newest checkpoint over the budget is kept nevertheless. */
  lemma NewestMayExceedBudget(now: real)
    ensures var d, p := map["a" := Record(Some(Part(1.0, 1)), None)], Policy(1, None, Some(0.0));
            IsOrdering(d, ["a"]) && Retained(d, ["a"], p, now) == ["a"] && Total(d, ["a"]) > Budget(p)
  {
    var d := map["a" := Record(Some(Part(1.0, 1)), None)];
    assert ["a"][..0] == [];
    assert Total(d, ["a"]) == 1;
  }

  /** The ordering of a directory is unique, so what is kept does not depend on the listing order. */
  lemma OrderingIsUnique(d: Directory, xs: seq<string>, ys: seq<string>)
    requires IsOrdering(d, xs) && IsOrdering(d, ys)
    ensures xs == ys
  {
    SameUpTo(d, xs, ys, |xs|);
    SameUpTo(d, ys, xs, |ys|);
  }

  lemma {:induction false} SameUpTo(d: Directory, xs: seq<string>, ys: seq<string>, n: nat)
    requires IsOrdering(d, xs) && IsOrdering(d, ys) && n <= |xs|
    ensures n <= |ys| && forall k :: 0 <= k < n ==> xs[k] == ys[k]
  {
    if n > 0 {
      SameUpTo(d, xs, ys, n - 1);
      NextIsSame(d, xs, ys, n - 1);
    }
  }

  lemma NextIsSame(d: Directory, xs: seq<string>, ys: seq<string>, n: nat)
    requires IsOrdering(d, xs) && IsOrdering(d, ys) && n < |xs|
    requires n <= |ys| && forall k :: 0 <= k < n ==> xs[k] == ys[k]
    ensures n < |ys| && xs[n] == ys[n]
  {
    var j := IndexFrom(d, xs, ys, n);
    var i := IndexFrom(d, ys, xs, n);
    IndexOrder(d, ys, n, j);
    IndexOrder(d, xs, n, i);
    IndexOrder(d, ys, j, n);
  }

  /** Where the element of `xs` at `n` is in `ys`, when both agree before `n`. */
  lemma IndexFrom(d: Directory, xs: seq<string>, ys: seq<string>, n: nat) returns (j: nat)
    requires IsOrdering(d, xs) && IsOrdering(d, ys) && n < |xs|
    requires n <= |ys| && forall k :: 0 <= k < n ==> xs[k] == ys[k]
    ensures n <= j < |ys| && ys[j] == xs[n]
  {
    assert xs[n] in xs && xs[n] in ys;
    j :| 0 <= j < |ys| && ys[j] == xs[n];
    OrderingIsDistinct(d, xs);
  }
}
