/** Performance consequences computed by rescanning a shared append-only log
    (cos_lib/consequence_engine.py). */
module ConsequenceEngine {
  import opened Common
  import opened ModelDowngrade

  datatype Thresholds = Thresholds(promote: real, warn: real, failsToDisable: int, streakRequired: int)

  const DEFAULTS := Thresholds(85.0, 60.0, 3, 5)

  /** `_count_consecutive_low` looks at this many records at most. */
  const LOW_WINDOW := 10

  const RE_ENABLED := "Re-enabled after optimization"

  datatype Consequence = Promote | Maintain | Warn | Degrade | Disable

  datatype Kind = Promotion | Degradation | Disabling | ReEnabling

  /** A log row. Of a performance record only the agent and the score matter to a verdict; an action
      row carries its target, a note (the reason, or the suggested downgrade) and a time stamp. */
  datatype Row =
    | Performance(agent: string, score: real)
    | Action(kind: Kind, target: string, note: string, at: string)

  // ---- Verdicts by rescanning ----------------------------------------------------------------

  /** The agent's scores, oldest first. */
  function Scores(log: seq<Row>, agent: string): seq<real> {
    if log == [] then []
    else
      var row := log[|log| - 1];
      Scores(log[..|log| - 1], agent)
      + if row.Performance? && row.agent == agent then [row.score] else []
  }

  /** Python's `s[-n:]`. */
  function LastN(s: seq<real>, n: int): seq<real> {
    s[Cut(|s|, -n)..]
  }

  predicate AllHigh(s: seq<real>, promote: real) {
    forall i | 0 <= i < |s| :: s[i] >= promote
  }

  /** How many scores at the end are below the threshold. */
  function TrailingLow(s: seq<real>, warn: real): nat {
    if s == [] || s[|s| - 1] >= warn then 0 else 1 + TrailingLow(s[..|s| - 1], warn)
  }

  /** The verdict on the last of an agent's scores. */
  function VerdictOn(scores: seq<real>, t: Thresholds): Consequence
    requires scores != []
  {
    Ladder(scores[|scores| - 1], HasStreak(scores, t), TrailingLow(LastN(scores, LOW_WINDOW), t.warn), t)
  }

  predicate HasStreak(scores: seq<real>, t: Thresholds) {
    var history := LastN(scores, t.streakRequired);
    |history| >= t.streakRequired && AllHigh(LastN(history, t.streakRequired), t.promote)
  }

  function Ladder(score: real, streak: bool, low: nat, t: Thresholds): Consequence {
    if score >= t.promote then (if streak then Promote else Maintain)
    else if score >= t.warn then Maintain
    else if low >= t.failsToDisable then Disable
    else if low >= 2 then Degrade
    else Warn
  }

  // ---- Standing actions: forward fold --------------------------------------------------------

  datatype Disabled = Disabled(skill: string, reason: string, at: string)

  function IndexOf(ds: seq<Disabled>, skill: string): (i: nat)
    ensures i <= |ds|
    ensures i < |ds| ==> ds[i].skill == skill
    ensures forall j :: 0 <= j < i ==> ds[j].skill != skill
  {
    if ds == [] || ds[0].skill == skill then 0 else 1 + IndexOf(ds[1..], skill)
  }

  predicate Lists(ds: seq<Disabled>, skill: string) {
    IndexOf(ds, skill) < |ds|
  }

  /** A dictionary keyed by skill, in insertion order: setting a key again keeps its place. */
  function Put(ds: seq<Disabled>, d: Disabled): seq<Disabled> {
    var i := IndexOf(ds, d.skill);
    if i == |ds| then ds + [d] else ds[i := d]
  }

  function Drop(ds: seq<Disabled>, skill: string): seq<Disabled> {
    var i := IndexOf(ds, skill);
    if i == |ds| then ds else ds[..i] + ds[i + 1..]
  }

  /** The disabled skills, each with the reason and the date of its last disabling. */
  function DisabledSkills(log: seq<Row>): seq<Disabled> {
    if log == [] then []
    else
      var row, before := log[|log| - 1], DisabledSkills(log[..|log| - 1]);
      if row.Performance? then before
      else if row.kind.Disabling? then Put(before, Disabled(row.target, row.note, row.at))
      else if row.kind.ReEnabling? then Drop(before, row.target)
      else before
  }

  /** The skills a model downgrade is in force for, each with the note that says which. */
  function Downgrades(log: seq<Row>): map<string, string> {
    if log == [] then map[]
    else
      var row, before := log[|log| - 1], Downgrades(log[..|log| - 1]);
      if row.Performance? then before
      else if row.kind.Degradation? then before[row.target := row.note]
      else if row.kind.Promotion? || row.kind.ReEnabling? then before - {row.target}
      else before
  }

  // ---- The engine --------------------------------------------------------------------------------

  class Engine {
    var log: seq<Row>
    const t: Thresholds
    const catalog: Catalog

    constructor (log: seq<Row>, t: Thresholds, catalog: Catalog)
      ensures this.log == log && this.t == t && this.catalog == catalog
    {
      this.log := log;
      this.t := t;
      this.catalog := catalog;
    }

    method History(agent: string, lastN: int) returns (scores: seq<real>)
      ensures scores == LastN(Scores(log, agent), lastN)
    {
      scores := [];
      for i := 0 to |log|
        invariant scores == Scores(log[..i], agent)
      {
        assert log[..i + 1][..i] == log[..i];
        if log[i].Performance? && log[i].agent == agent {
          scores := scores + [log[i].score];
        }
      }
      assert log[..|log|] == log;
      scores := LastN(scores, lastN);
    }

    method CountConsecutiveLow(agent: string, threshold: real) returns (count: nat)
      ensures count == TrailingLow(LastN(Scores(log, agent), LOW_WINDOW), threshold)
    {
      var history := History(agent, LOW_WINDOW);
      count := 0;
      assert history[..|history|] == history;
      for i := |history| downto 0
        invariant TrailingLow(history, threshold) == count + TrailingLow(history[..i], threshold)
      {
        assert history[..i + 1][..i] == history[..i];
        if history[i] >= threshold {
          break;
        }
        count := count + 1;
      }
    }

    method Evaluate(agent: string, score: real) returns (c: Consequence)
      modifies this
      ensures log == old(log) + [Performance(agent, score)]
      ensures Scores(log, agent) == Scores(old(log), agent) + [score]
      ensures c == VerdictOn(Scores(log, agent), t)
    {
      log := log + [Performance(agent, score)];
      assert log[..|log| - 1] == old(log);
      if score >= t.promote {
        var history := History(agent, t.streakRequired);
        if |history| >= t.streakRequired && AllHigh(LastN(history, t.streakRequired), t.promote) {
          return Promote;
        }
        return Maintain;
      }
      if score >= t.warn {
        return Maintain;
      }
      var low := CountConsecutiveLow(agent, t.warn);
      if low >= t.failsToDisable {
        return Disable;
      } else if low >= 2 {
        return Degrade;
      }
      return Warn;
    }

    method Apply(c: Consequence, target: string, reason: string, at: string)
      modifies this
      ensures log == old(log) + RowFor(c, target, reason, at, catalog)
    {
      match c
      case Promote => log := log + [Action(Promotion, target, reason, at)];
      case Degrade =>
        var note := SuggestModelDowngrade(target);
        log := log + [Action(Degradation, target, note, at)];
      case Disable => log := log + [Action(Disabling, target, reason, at)];
      case _ =>
    }

    method SuggestModelDowngrade(target: string) returns (note: string)
      ensures note == SuggestedDowngrade(target, catalog)
    {
      var model := catalog.resolve(target);
      if model.Some? {
        var cheaper := Cheaper(model.value);
        if cheaper.Some? {
          return Note(target, cheaper.value);
        }
      } else {
        var family := Family(catalog.lower(target));
        if family.Some? {
          return Note(family.value.0, Cheaper(family.value.1).value);
        }
      }
      return GENERIC;
    }

    method GetDisabledSkills() returns (disabled: seq<Disabled>)
      ensures disabled == DisabledSkills(log)
    {
      disabled := [];
      for i := 0 to |log|
        invariant disabled == DisabledSkills(log[..i])
      {
        assert log[..i + 1][..i] == log[..i];
        var row := log[i];
        if row.Action? && row.kind.Disabling? {
          disabled := Put(disabled, Disabled(row.target, row.note, row.at));
        } else if row.Action? && row.kind.ReEnabling? && Lists(disabled, row.target) {
          disabled := Drop(disabled, row.target);
        }
      }
      assert log[..|log|] == log;
    }

    method ReEnable(skill: string, now: string) returns (done: bool)
      modifies this
      ensures done == Lists(DisabledSkills(old(log)), skill)
      ensures log == old(log) + if done then [Action(ReEnabling, skill, RE_ENABLED, now)] else []
    {
      var disabled := GetDisabledSkills();
      if !Lists(disabled, skill) {
        return false;
      }
      log := log + [Action(ReEnabling, skill, RE_ENABLED, now)];
      return true;
    }

    /** The backward walk over the log, against the forward fold. */
    method GetModelOverride(skill: string) returns (tier: Option<string>)
      ensures tier == if skill != "" && skill in Downgrades(log) then Some(TierOf(Downgrades(log)[skill])) else None
    {
      if skill == "" {
        return None;
      }
      assert log[..|log|] == log;
      for i := |log| downto 0
        invariant skill in Downgrades(log) <==> skill in Downgrades(log[..i])
        invariant skill in Downgrades(log) ==> Downgrades(log)[skill] == Downgrades(log[..i])[skill]
      {
        assert log[..i + 1][..i] == log[..i];
        var row := log[i];
        if row.Performance? || row.target != skill {
          continue;
        }
        if row.kind.Degradation? {
          return Some(TierOf(row.note));
        } else if row.kind.Promotion? || row.kind.ReEnabling? {
          return None;
        }
      }
      return None;
    }
  }

  function RowFor(c: Consequence, target: string, reason: string, at: string, catalog: Catalog): seq<Row> {
    match c
    case Promote => [Action(Promotion, target, reason, at)]
    case Degrade => [Action(Degradation, target, SuggestedDowngrade(target, catalog), at)]
    case Disable => [Action(Disabling, target, reason, at)]
    case _ => []
  }

  // ---- Rescanning equals counting ------------------------------------------------------------

  /** Per agent: how many scores so far, and how long the current high and low runs are. */
  datatype Counters = Counters(total: nat, high: nat, low: nat)

  function Bump(c: Counters, score: real, t: Thresholds): Counters {
    Counters(c.total + 1, if score >= t.promote then c.high + 1 else 0, if score < t.warn then c.low + 1 else 0)
  }

  function CountersOf(tally: map<string, Counters>, agent: string): Counters {
    if agent in tally then tally[agent] else Counters(0, 0, 0)
  }

  /** One pass over the log that keeps counters for all agents at once. */
  function Tally(log: seq<Row>, t: Thresholds): map<string, Counters> {
    if log == [] then map[]
    else
      var row, before := log[|log| - 1], Tally(log[..|log| - 1], t);
      if row.Performance? then before[row.agent := Bump(CountersOf(before, row.agent), row.score, t)] else before
  }

  /** The high run a promotion needs. A required streak below one is not a streak: the slices then
      keep all records (zero) or drop the oldest twice as many. */
  function NeededHigh(c: Counters, t: Thresholds): int {
    if t.streakRequired >= 1 then t.streakRequired else c.total + 2 * t.streakRequired
  }

  function CountedVerdict(c: Counters, score: real, t: Thresholds): Consequence {
    if score >= t.promote then (if c.high >= NeededHigh(c, t) then Promote else Maintain)
    else if score >= t.warn then Maintain
    else if Min(c.low, LOW_WINDOW) >= t.failsToDisable then Disable
    else if c.low >= 2 then Degrade
    else Warn
  }

  function CountersFor(scores: seq<real>, t: Thresholds): Counters {
    if scores == [] then Counters(0, 0, 0)
    else Bump(CountersFor(scores[..|scores| - 1], t), scores[|scores| - 1], t)
  }

  lemma {:induction false} TallyCountsScores(log: seq<Row>, agent: string, t: Thresholds)
    ensures CountersOf(Tally(log, t), agent) == CountersFor(Scores(log, agent), t)
  {
    if log != [] {
      var row, before := log[|log| - 1], log[..|log| - 1];
      TallyCountsScores(before, agent, t);
      if row.Performance? && row.agent == agent {
        assert (Scores(before, agent) + [row.score])[..|Scores(before, agent)|] == Scores(before, agent);
      } else {
        assert Scores(log, agent) == Scores(before, agent);
      }
    }
  }

  ghost predicate HighFrom(scores: seq<real>, k: nat, promote: real) {
    forall i :: k <= i < |scores| ==> scores[i] >= promote
  }

  lemma HighFromStep(scores: seq<real>, k: nat, promote: real)
    requires k < |scores|
    ensures var n := |scores| - 1;
            HighFrom(scores, k, promote) <==> HighFrom(scores[..n], k, promote) && scores[n] >= promote
  {
  }

  lemma HighSuffix(scores: seq<real>, k: nat, promote: real)
    requires k <= |scores|
    ensures AllHigh(scores[k..], promote) <==> HighFrom(scores, k, promote)
  {
    forall i | k <= i < |scores| ensures scores[k..][i - k] == scores[i] {
    }
  }

  /** The high run is the longest high suffix. */
  lemma {:induction false} HighRun(scores: seq<real>, t: Thresholds, k: nat)
    requires k <= |scores|
    ensures CountersFor(scores, t).total == |scores| >= CountersFor(scores, t).high
    ensures HighFrom(scores, k, t.promote) <==> CountersFor(scores, t).high >= |scores| - k
  {
    if scores != [] {
      var n := |scores| - 1;
      if k <= n {
        HighRun(scores[..n], t, k);
        HighFromStep(scores, k, t.promote);
      } else {
        HighRun(scores[..n], t, n);
      }
    }
  }

  lemma {:induction false} LowRun(scores: seq<real>, t: Thresholds, w: nat)
    ensures TrailingLow(LastN(scores, w + 1), t.warn) == Min(CountersFor(scores, t).low, w + 1)
    decreases |scores|
  {
    if scores != [] {
      WindowShrinks(scores, w);
      if w > 0 {
        LowRun(scores[..|scores| - 1], t, w - 1);
      }
    }
  }

  lemma WindowShrinks(scores: seq<real>, w: nat)
    requires scores != []
    ensures var n, window := |scores| - 1, LastN(scores, w + 1);
            && window != [] && window[|window| - 1] == scores[n]
            && window[..|window| - 1] == if w > 0 then LastN(scores[..n], w) else []
  {
    var n, k: int := |scores| - 1, w;
    var i: nat := Max(0, n - k);
    assert Cut(n + 1, -(k + 1)) == i && (k > 0 ==> Cut(n, -k) == i);
    InitOfSlice(scores, i);
  }

  lemma InitOfSlice(scores: seq<real>, i: nat)
    requires i < |scores|
    ensures scores[i..][..|scores| - 1 - i] == scores[..|scores| - 1][i..]
  {
  }

  /** The two slices in the promotion check keep one suffix. */
  lemma PromotionCounts(scores: seq<real>, t: Thresholds)
    ensures HasStreak(scores, t) <==> CountersFor(scores, t).high >= NeededHigh(CountersFor(scores, t), t)
  {
    var second := TwiceLast(scores, t.streakRequired);
    HighRun(scores, t, second);
    HighSuffix(scores, second, t.promote);
    StreakLength(|scores|, t.streakRequired, second, |LastN(scores, t.streakRequired)|, CountersFor(scores, t).high);
  }

  lemma StreakLength(n: nat, s: int, second: nat, size: nat, high: nat)
    requires second <= n && high <= n
    requires if s > 0 then n - second == Min(n, s) == size else second == Min(n, -2 * s)
    ensures size >= s && high >= n - second <==> high >= if s >= 1 then s else n + 2 * s
  {
  }

  /** Where the second slice begins; it cuts nothing off the first unless `s` is negative. */
  lemma TwiceLast(scores: seq<real>, s: int) returns (second: nat)
    ensures second <= |scores| && LastN(LastN(scores, s), s) == scores[second..]
    ensures if s > 0 then |scores| - second == Min(|scores|, s) == |LastN(scores, s)|
            else second == Min(|scores|, -2 * s)
  {
    var first := Cut(|scores|, -s);
    second := first + Cut(|scores| - first, -s);
    SliceTwice(scores, first, second - first);
  }

  lemma SliceTwice(scores: seq<real>, i: nat, j: nat)
    requires i + j <= |scores|
    ensures scores[i..][j..] == scores[i + j..]
  {
  }

  lemma VerdictCounts(scores: seq<real>, t: Thresholds)
    requires scores != []
    ensures VerdictOn(scores, t) == CountedVerdict(CountersFor(scores, t), scores[|scores| - 1], t)
  {
    PromotionCounts(scores, t);
    LowRun(scores, t, LOW_WINDOW - 1);
    SameLadder(scores[|scores| - 1], HasStreak(scores, t), TrailingLow(LastN(scores, LOW_WINDOW), t.warn),
               CountersFor(scores, t), t);
  }

  lemma SameLadder(score: real, streak: bool, low: nat, c: Counters, t: Thresholds)
    requires streak <==> c.high >= NeededHigh(c, t)
    requires low == Min(c.low, LOW_WINDOW)
    ensures Ladder(score, streak, low, t) == CountedVerdict(c, score, t)
  {
  }

  /** On any interleaved log, the verdict computed by rescanning is that of the counters kept by one
      pass over the log. */
  lemma RescanEqualsCounters(log: seq<Row>, agent: string, score: real, t: Thresholds)
    ensures var after := log + [Performance(agent, score)];
            && Scores(after, agent) != []
            && VerdictOn(Scores(after, agent), t) == CountedVerdict(CountersOf(Tally(after, t), agent), score, t)
            && CountersOf(Tally(after, t), agent) == Bump(CountersOf(Tally(log, t), agent), score, t)
  {
    var after := log + [Performance(agent, score)];
    assert after[..|log|] == log;
    TallyCountsScores(after, agent, t);
    VerdictCounts(Scores(after, agent), t);
  }

  /** Rows of other agents and action rows can be inserted anywhere without being seen. */
  lemma {:induction false} OthersAreInvisible(before: seq<Row>, other: Row, after: seq<Row>, agent: string)
    requires other.Performance? ==> other.agent != agent
    ensures Scores(before + [other] + after, agent) == Scores(before + after, agent)
  {
    if after == [] {
      assert before + [other] + after == before + [other] && before + after == before;
      assert (before + [other])[..|before|] == before;
    } else {
      var n := |after| - 1;
      OthersAreInvisible(before, other, after[..n], agent);
      assert (before + [other] + after)[..|before| + 1 + n] == before + [other] + after[..n];
      assert (before + after)[..|before| + n] == before + after[..n];
    }
  }

  ghost predicate LowFrom(scores: seq<real>, k: nat, warn: real) {
    forall i :: k <= i < |scores| ==> scores[i] < warn
  }

  lemma LowFromStep(scores: seq<real>, k: nat, warn: real)
    requires k < |scores|
    ensures var n := |scores| - 1; LowFrom(scores, k, warn) <==> LowFrom(scores[..n], k, warn) && scores[n] < warn
  {
  }

  /** The low run is the longest low suffix. */
  lemma {:induction false} LowRunFrom(scores: seq<real>, t: Thresholds, k: nat)
    requires k <= |scores|
    ensures CountersFor(scores, t).low <= |scores|
    ensures LowFrom(scores, k, t.warn) <==> CountersFor(scores, t).low >= |scores| - k
  {
    if scores != [] {
      var n := |scores| - 1;
      LowRunFrom(scores[..n], t, if k <= n then k else n);
      if k <= n {
        LowFromStep(scores, k, t.warn);
      }
    }
  }

  /** The last `k` scores reach the promotion threshold. */
  ghost predicate LastHigh(scores: seq<real>, k: int, t: Thresholds) {
    k <= |scores| && forall i :: 0 <= i < |scores| && i >= |scores| - k ==> scores[i] >= t.promote
  }

  /** The last `k` scores are below the warning threshold. */
  ghost predicate LastLow(scores: seq<real>, k: int, t: Thresholds) {
    k <= |scores| && forall i :: 0 <= i < |scores| && i >= |scores| - k ==> scores[i] < t.warn
  }

  /** The verdict on the last score, from the scores alone, for every positive streak: no more than
      ten low scores in a row are ever counted. */
  lemma VerdictExactly(scores: seq<real>, t: Thresholds)
    requires scores != [] && t.streakRequired >= 1
    ensures var score := scores[|scores| - 1];
            VerdictOn(scores, t) ==
              if score >= t.promote then (if LastHigh(scores, t.streakRequired, t) then Promote else Maintain)
              else if score >= t.warn then Maintain
              else if t.failsToDisable <= 10 && LastLow(scores, t.failsToDisable, t) then Disable
              else if LastLow(scores, 2, t) then Degrade
              else Warn
  {
    VerdictCounts(scores, t);
    HighCount(scores, t.streakRequired, t);
    LowCount(scores, t.failsToDisable, t);
    LowCount(scores, 2, t);
  }

  lemma HighCount(scores: seq<real>, k: int, t: Thresholds)
    requires k >= 0
    ensures CountersFor(scores, t).high >= k <==> LastHigh(scores, k, t)
  {
    HighRun(scores, t, Max(0, |scores| - k));
  }

  lemma LowCount(scores: seq<real>, k: int, t: Thresholds)
    ensures CountersFor(scores, t).low >= k <==> LastLow(scores, k, t)
  {
    LowRunFrom(scores, t, if k < 0 then |scores| else Max(0, |scores| - k));
  }

  /** The documented ladder, which is what the default thresholds give. */
  lemma DefaultLadder(scores: seq<real>)
    requires scores != []
    ensures var n, v := |scores|, VerdictOn(scores, DEFAULTS);
            && (v == Promote <==> n >= 5 && forall i :: n - 5 <= i < n ==> scores[i] >= 85.0)
            && (v == Disable <==> n >= 3 && scores[n - 1] < 60.0 && scores[n - 2] < 60.0 && scores[n - 3] < 60.0)
            && (v == Degrade <==> n >= 2 && scores[n - 1] < 60.0 && scores[n - 2] < 60.0
                                  && (n == 2 || scores[n - 3] >= 60.0))
            && (v == Warn <==> scores[n - 1] < 60.0 && (n == 1 || scores[n - 2] >= 60.0))
  {
    VerdictExactly(scores, DEFAULTS);
    LastFive(scores);
    LastTwoOrThree(scores);
  }

  lemma LastFive(scores: seq<real>)
    ensures LastHigh(scores, 5, DEFAULTS) <==>
            |scores| >= 5 && forall i :: |scores| - 5 <= i < |scores| ==> scores[i] >= 85.0
  {
  }

  lemma LastTwoOrThree(scores: seq<real>)
    ensures var n := |scores|;
            && (LastLow(scores, 2, DEFAULTS) <==> n >= 2 && scores[n - 1] < 60.0 && scores[n - 2] < 60.0)
            && (LastLow(scores, 3, DEFAULTS) <==>
                  n >= 3 && scores[n - 1] < 60.0 && scores[n - 2] < 60.0 && scores[n - 3] < 60.0)
  {
  }

  /** Python's slice of the last `n`: all of them for zero, and without the first `-n` for a negative. */
  lemma HistoryLength(scores: seq<real>, n: int)
    ensures var r := LastN(scores, n);
            && |r| == (if n > 0 then Min(n, |scores|) else Max(0, |scores| + n))
            && forall i :: 0 <= i < |r| ==> r[i] == scores[|scores| - |r| + i]
  {
  }

  /** With three or more failures required, a disabling only follows a degradation or a disabling. */
  lemma DisablingIsAnEscalation(scores: seq<real>, t: Thresholds)
    requires t.warn <= t.promote && t.failsToDisable >= 3
    requires scores != [] && VerdictOn(scores, t) == Disable
    ensures |scores| >= 3
    ensures VerdictOn(scores[..|scores| - 1], t) in {Degrade, Disable}
  {
    var before := scores[..|scores| - 1];
    VerdictCounts(scores, t);
    DisableNeedsThree(CountersFor(scores, t), scores[|scores| - 1], t);
    assert CountersFor(before, t).low >= 2;
    LowIsBounded(before, t);
    VerdictCounts(before, t);
    TwoLowDegrade(CountersFor(before, t), before[|before| - 1], t);
  }

  lemma DisableNeedsThree(c: Counters, score: real, t: Thresholds)
    requires t.failsToDisable >= 3 && CountedVerdict(c, score, t) == Disable
    ensures c.low >= 3
  {
  }

  lemma TwoLowDegrade(c: Counters, score: real, t: Thresholds)
    requires score < t.warn <= t.promote && c.low >= 2
    ensures CountedVerdict(c, score, t) in {Degrade, Disable}
  {
  }

  lemma {:induction false} LowIsBounded(scores: seq<real>, t: Thresholds)
    ensures CountersFor(scores, t).low <= |scores|
    ensures CountersFor(scores, t).low > 0 ==> scores[|scores| - 1] < t.warn
  {
    if scores != [] {
      LowIsBounded(scores[..|scores| - 1], t);
    }
  }

  /** Only ten records are looked back on, so a limit above ten is never reached. */
  lemma DisablingIsReachableExactly(t: Thresholds)
    ensures (exists scores :: scores != [] && VerdictOn(scores, t) == Disable) <==> t.failsToDisable <= LOW_WINDOW
  {
    forall scores | scores != [] && VerdictOn(scores, t) == Disable ensures t.failsToDisable <= LOW_WINDOW {
      VerdictCounts(scores, t);
    }
    var worst := (if t.warn < t.promote then t.warn else t.promote) - 1.0;
    var scores := seq(LOW_WINDOW, _ => worst);
    AllLow(worst, LOW_WINDOW, t);
    VerdictCounts(scores, t);
    assert t.failsToDisable <= LOW_WINDOW ==> VerdictOn(scores, t) == Disable;
  }

  lemma {:induction false} AllLow(score: real, n: nat, t: Thresholds)
    requires score < t.warn
    ensures CountersFor(seq(n, _ => score), t).low == n
  {
    if n > 0 {
      assert seq(n, _ => score)[..n - 1] == seq(n - 1, _ => score);
      AllLow(score, n - 1, t);
    }
  }

  // ---- Forward fold equals backward search ------------------------------------------------------

  /** The last row for `target` whose kind is among `kinds`. */
  function LastRow(log: seq<Row>, target: string, kinds: set<Kind>): (r: Option<Row>)
    ensures r.Some? ==> r.value.Action? && r.value.target == target && r.value.kind in kinds
  {
    if log == [] then None
    else
      var row := log[|log| - 1];
      if row.Action? && row.target == target && row.kind in kinds then Some(row)
      else LastRow(log[..|log| - 1], target, kinds)
  }

  ghost predicate NoSkillTwice(ds: seq<Disabled>) {
    forall i, j :: 0 <= i < j < |ds| ==> ds[i].skill != ds[j].skill
  }

  lemma PutLists(ds: seq<Disabled>, d: Disabled, skill: string)
    requires NoSkillTwice(ds)
    ensures NoSkillTwice(Put(ds, d))
    ensures Lists(Put(ds, d), skill) <==> Lists(ds, skill) || skill == d.skill
    ensures Lists(Put(ds, d), skill) ==>
              Put(ds, d)[IndexOf(Put(ds, d), skill)] == if skill == d.skill then d else ds[IndexOf(ds, skill)]
  {
    var i, after := IndexOf(ds, d.skill), Put(ds, d);
    assert after[i] == d;
    assert forall j :: 0 <= j < |ds| && j != i ==> after[j] == ds[j];
  }

  lemma DropLists(ds: seq<Disabled>, gone: string, skill: string)
    requires NoSkillTwice(ds)
    ensures NoSkillTwice(Drop(ds, gone))
    ensures Lists(Drop(ds, gone), skill) <==> Lists(ds, skill) && skill != gone
    ensures Lists(Drop(ds, gone), skill) ==>
              Drop(ds, gone)[IndexOf(Drop(ds, gone), skill)] == ds[IndexOf(ds, skill)]
  {
    var i, k := IndexOf(ds, gone), IndexOf(ds, skill);
    DropAt(ds, gone);
    var after := Drop(ds, gone);
    if k < |ds| && skill != gone {
      var at := if k < i then k else k - 1;
      assert after[at] == ds[k];
      assert IndexOf(after, skill) == at;
    }
  }

  lemma DropAt(ds: seq<Disabled>, gone: string)
    requires NoSkillTwice(ds)
    ensures var i, after := IndexOf(ds, gone), Drop(ds, gone);
            && NoSkillTwice(after)
            && (forall j :: 0 <= j < |after| ==> after[j].skill != gone && after[j] == ds[if j < i then j else j + 1])
  {
    var i, after := IndexOf(ds, gone), Drop(ds, gone);
    forall j | 0 <= j < |after| ensures after[j].skill != gone && after[j] == ds[if j < i then j else j + 1] {
      DropIndex(ds, gone, j);
    }
    forall j, k | 0 <= j < k < |after| ensures after[j].skill != after[k].skill {
      DropIndex(ds, gone, j);
      DropIndex(ds, gone, k);
    }
  }

  lemma DropIndex(ds: seq<Disabled>, gone: string, j: nat)
    requires NoSkillTwice(ds) && j < |Drop(ds, gone)|
    ensures var i := IndexOf(ds, gone);
            var at := if j < i then j else j + 1;
            at < |ds| && Drop(ds, gone)[j] == ds[at] && ds[at].skill != gone
  {
    var i := IndexOf(ds, gone);
    if i < |ds| {
      SkipAt(ds, i, j);
      OnlyAt(ds, i, if j < i then j else j + 1);
    }
  }

  lemma SkipAt(ds: seq<Disabled>, i: nat, j: nat)
    requires i < |ds| && j < |ds| - 1
    ensures (ds[..i] + ds[i + 1..])[j] == ds[if j < i then j else j + 1]
  {
  }

  lemma OnlyAt(ds: seq<Disabled>, i: nat, at: nat)
    requires NoSkillTwice(ds) && i < |ds| && at < |ds| && i != at
    ensures ds[at].skill != ds[i].skill
  {
  }

  /** A skill is listed as disabled, once, exactly when its last disable or re-enable row is a
      disable, and with that row's reason and date. */
  lemma {:induction false} DisabledExactly(log: seq<Row>, skill: string)
    ensures var ds, last := DisabledSkills(log), LastRow(log, skill, {Disabling, ReEnabling});
            && NoSkillTwice(ds)
            && (Lists(ds, skill) <==> last.Some? && last.value.kind.Disabling?)
            && (Lists(ds, skill) ==> ds[IndexOf(ds, skill)] == Disabled(skill, last.value.note, last.value.at))
  {
    if log != [] {
      var row, before := log[|log| - 1], log[..|log| - 1];
      DisabledExactly(before, skill);
      if row.Action? && row.kind.Disabling? {
        PutLists(DisabledSkills(before), Disabled(row.target, row.note, row.at), skill);
      } else if row.Action? && row.kind.ReEnabling? {
        DropLists(DisabledSkills(before), row.target, skill);
      }
    }
  }

  /** The position of the first disabling of a skill since it was last re-enabled, or -1. */
  function OpenedAt(log: seq<Row>, skill: string): int {
    if log == [] then -1
    else
      var row, before := log[|log| - 1], OpenedAt(log[..|log| - 1], skill);
      if row.Action? && row.target == skill && row.kind.ReEnabling? then -1
      else if row.Action? && row.target == skill && row.kind.Disabling? && before == -1 then |log| - 1
      else before
  }

  lemma {:induction false} OpenedInside(log: seq<Row>, skill: string)
    ensures -1 <= OpenedAt(log, skill) < |log|
  {
    if log != [] {
      OpenedInside(log[..|log| - 1], skill);
    }
  }

  function Openings(log: seq<Row>, ds: seq<Disabled>): seq<int> {
    seq(|ds|, i requires 0 <= i < |ds| => OpenedAt(log, ds[i].skill))
  }

  ghost predicate Rising(xs: seq<int>) {
    (forall i :: 0 <= i < |xs| ==> xs[i] >= 0) && forall i, j :: 0 <= i < j < |xs| ==> xs[i] < xs[j]
  }

  /** The list is in the order in which the skills were first disabled since their last re-enabling. */
  lemma {:induction false} DisabledInOrder(log: seq<Row>)
    ensures Rising(Openings(log, DisabledSkills(log)))
  {
    if log != [] {
      var row, before := log[|log| - 1], log[..|log| - 1];
      DisabledInOrder(before);
      DisabledExactly(before, "");
      assert log == before + [row];
      if row.Action? && row.kind.Disabling? {
        DisablingKeepsOrder(before, row);
      } else if row.Action? && row.kind.ReEnabling? {
        ReEnablingKeepsOrder(before, row);
      } else {
        OtherKeepsOrder(before, row);
      }
    }
  }

  lemma OtherKeepsOrder(before: seq<Row>, row: Row)
    requires row.Action? ==> !row.kind.Disabling? && !row.kind.ReEnabling?
    ensures Openings(before + [row], DisabledSkills(before)) == Openings(before, DisabledSkills(before))
  {
    var ds := DisabledSkills(before);
    forall i | 0 <= i < |ds| ensures OpenedAt(before + [row], ds[i].skill) == OpenedAt(before, ds[i].skill) {
      OpenedStep(before, row, ds[i].skill);
    }
  }

  lemma OpenedStep(before: seq<Row>, row: Row, skill: string)
    ensures OpenedAt(before + [row], skill) ==
            if row.Action? && row.target == skill && row.kind.ReEnabling? then -1
            else if row.Action? && row.target == skill && row.kind.Disabling? && OpenedAt(before, skill) == -1
            then |before|
            else OpenedAt(before, skill)
  {
    assert (before + [row])[..|before|] == before;
  }

  lemma DisablingKeepsOrder(before: seq<Row>, row: Row)
    requires row.Action? && row.kind.Disabling? && Rising(Openings(before, DisabledSkills(before)))
    ensures Rising(Openings(before + [row], Put(DisabledSkills(before), Disabled(row.target, row.note, row.at))))
  {
    var ds := DisabledSkills(before);
    var after := Put(ds, Disabled(row.target, row.note, row.at));
    OpenedExactly(before, row.target);
    OpenedInside(before, row.target);
    OpenedStep(before, row, row.target);
    forall i | 0 <= i < |ds|
      ensures after[i].skill == ds[i].skill
      ensures OpenedAt(before + [row], ds[i].skill) == OpenedAt(before, ds[i].skill) < |before|
    {
      OpenedStep(before, row, ds[i].skill);
      OpenedInside(before, ds[i].skill);
      assert Openings(before, ds)[i] >= 0;
    }
    assert Openings(before + [row], after) == Openings(before, ds) + if |after| == |ds| then [] else [|before|];
  }

  lemma {:induction false} OpenedExactly(log: seq<Row>, skill: string)
    ensures Lists(DisabledSkills(log), skill) <==> OpenedAt(log, skill) >= 0
  {
    if log != [] {
      var row, before := log[|log| - 1], log[..|log| - 1];
      OpenedExactly(before, skill);
      OpenedInside(before, skill);
      DisabledExactly(before, skill);
      if row.Action? && row.kind.Disabling? {
        PutLists(DisabledSkills(before), Disabled(row.target, row.note, row.at), skill);
      } else if row.Action? && row.kind.ReEnabling? {
        DropLists(DisabledSkills(before), row.target, skill);
      }
    }
  }

  lemma ReEnablingKeepsOrder(before: seq<Row>, row: Row)
    requires row.Action? && row.kind.ReEnabling? && Rising(Openings(before, DisabledSkills(before)))
    requires NoSkillTwice(DisabledSkills(before))
    ensures Rising(Openings(before + [row], Drop(DisabledSkills(before), row.target)))
  {
    var ds := DisabledSkills(before);
    var gone, after := IndexOf(ds, row.target), Drop(ds, row.target);
    forall i | 0 <= i < |after|
      ensures var at := if i < gone then i else i + 1;
              at < |ds| && Openings(before + [row], after)[i] == Openings(before, ds)[at]
    {
      DropIndex(ds, row.target, i);
      OpenedStep(before, row, after[i].skill);
    }
  }

  /** A downgrade is in force exactly when the last degradation, promotion or re-enable row is a
      degradation, and it is that row's. */
  lemma {:induction false} DowngradedExactly(log: seq<Row>, skill: string)
    ensures var last := LastRow(log, skill, {Degradation, Promotion, ReEnabling});
            && (skill in Downgrades(log) <==> last.Some? && last.value.kind.Degradation?)
            && (skill in Downgrades(log) ==> Downgrades(log)[skill] == last.value.note)
  {
    if log != [] {
      DowngradedExactly(log[..|log| - 1], skill);
    }
  }

  /** Applying a verdict: what stands afterwards, for the target and for everyone else. */
  lemma ApplyStands(log: seq<Row>, c: Consequence, target: string, reason: string, at: string, catalog: Catalog,
                    skill: string)
    ensures var after := log + RowFor(c, target, reason, at, catalog);
            && (Lists(DisabledSkills(after), skill) <==>
                  Lists(DisabledSkills(log), skill) || (c.Disable? && skill == target))
            && (skill in Downgrades(after) <==>
                  if skill == target && (c.Degrade? || c.Promote?) then c.Degrade? else skill in Downgrades(log))
            && (skill == target && c.Degrade? ==> Downgrades(after)[skill] == SuggestedDowngrade(target, catalog))
            && (skill == target && c.Disable? ==>
                  DisabledSkills(after)[IndexOf(DisabledSkills(after), skill)] == Disabled(target, reason, at))
            && (c.Promote? ==> after == log + [Action(Promotion, target, reason, at)])
            && (c.Warn? || c.Maintain? ==> after == log)
  {
    var after := log + RowFor(c, target, reason, at, catalog);
    if RowFor(c, target, reason, at, catalog) == [] {
      assert after == log;
    } else {
      assert after[..|log|] == log;
      if c.Disable? {
        DisabledExactly(log, skill);
        PutLists(DisabledSkills(log), Disabled(target, reason, at), skill);
      }
    }
  }

  /** A successful re-enable clears the skill's disabling and its downgrade, and nothing else. */
  lemma ReEnableClears(log: seq<Row>, target: string, now: string, skill: string)
    ensures var after := log + [Action(ReEnabling, target, RE_ENABLED, now)];
            && (Lists(DisabledSkills(after), skill) <==> Lists(DisabledSkills(log), skill) && skill != target)
            && (skill in Downgrades(after) <==> skill in Downgrades(log) && skill != target)
  {
    assert (log + [Action(ReEnabling, target, RE_ENABLED, now)])[..|log|] == log;
    DisabledExactly(log, skill);
    DropLists(DisabledSkills(log), target, skill);
  }
}
