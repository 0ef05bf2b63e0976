/** Multi-turn transcript compression (cos_lib/context_compressor.py): prune, choose the two cut
    points, replace the middle by a summary, repair call/result pairs. The summariser is an
    arbitrary function that may fail. */
module ContextCompressor {
  import opened Common
  import opened Transcript
  import opened ToolPruning
  import opened PairRepair

  const CHARS_PER_TOKEN := 4
  const TAIL_MIN_MESSAGES := 3

  const NOTE := "[Note: Earlier conversation turns have been compacted into a summary below.]"

  /** The arguments of `compress`; `prefix` is the text that introduces a summary. */
  datatype Settings = Settings(target: int, protectHead: nat, tailRatio: real, previous: Option<string>,
                               prefix: string, hash: Hash,
                               summarise: (seq<Message>, Option<string>) -> Option<string>)

  /** `compress` returns a transcript and a summary, or a `TypeError` escapes from it. */
  datatype Outcome = Raised | Returned(messages: seq<Message>, summary: Option<string>)

  // ---- The tail boundary -------------------------------------------------------------------

  function Length(c: Content): nat {
    match c
    case Absent => 0
    case Text(t) => |t|
    case Blocks(parts) => |parts|
  }

  function Cost(m: Message): nat {
    Length(m.content) / CHARS_PER_TOKEN + 10
  }

  /** The cost of the messages from `i` on. */
  function SuffixCost(ms: seq<Message>, i: nat): nat
    requires i <= |ms|
    decreases |ms| - i
  {
    if i == |ms| then 0 else Cost(ms[i]) + SuffixCost(ms, i + 1)
  }

  /** Where the backward walk stops when everything from `i` on is already kept. */
  function CutFrom(ms: seq<Message>, i: nat, headEnd: nat, budget: int): (c: nat)
    requires headEnd <= i <= |ms|
    ensures headEnd <= c <= i
  {
    if i == headEnd || (SuffixCost(ms, i - 1) > budget && |ms| - (i - 1) >= TAIL_MIN_MESSAGES) then i
    else CutFrom(ms, i - 1, headEnd, budget)
  }

  function TailStart(ms: seq<Message>, headEnd: nat, budget: int): nat
    requires headEnd <= |ms|
  {
    Max(CutFrom(ms, |ms|, headEnd, budget), headEnd + 1)
  }

  method FindTailBoundary(ms: seq<Message>, headEnd: nat, budget: int) returns (start: nat)
    requires headEnd <= |ms|
    ensures start == TailStart(ms, headEnd, budget)
  {
    var n := |ms|;
    var accumulated, cut := 0, n;
    for i := n downto headEnd
      invariant cut == i && accumulated == SuffixCost(ms, i)
      invariant CutFrom(ms, n, headEnd, budget) == CutFrom(ms, i, headEnd, budget)
    {
      var tokens := Length(ms[i].content) / CHARS_PER_TOKEN + 10;
      if accumulated + tokens > budget && n - i >= TAIL_MIN_MESSAGES {
        break;
      }
      accumulated, cut := accumulated + tokens, i;
    }
    start := Max(cut, headEnd + 1);
  }

  /** A tail that the budget allows, or that has at most two messages: the walk counts the message
      at hand before it keeps it, so only two are guaranteed. */
  predicate Admissible(ms: seq<Message>, budget: int, c: nat)
    requires c <= |ms|
  {
    |ms| - c <= TAIL_MIN_MESSAGES - 1 || SuffixCost(ms, c) <= budget
  }

  lemma {:induction false} SuffixCostDecreases(ms: seq<Message>, i: nat, j: nat)
    requires i <= j <= |ms|
    ensures SuffixCost(ms, j) <= SuffixCost(ms, i)
    decreases j - i
  {
    if i < j {
      SuffixCostDecreases(ms, i + 1, j);
    }
  }

  lemma {:induction false} CutFromIsLongest(ms: seq<Message>, i: nat, headEnd: nat, budget: int)
    requires headEnd <= i <= |ms| && Admissible(ms, budget, i)
    ensures Admissible(ms, budget, CutFrom(ms, i, headEnd, budget))
    ensures forall c :: headEnd <= c < CutFrom(ms, i, headEnd, budget) ==> !Admissible(ms, budget, c)
  {
    if i > headEnd {
      if Admissible(ms, budget, i - 1) {
        CutFromIsLongest(ms, i - 1, headEnd, budget);
      } else {
        forall c | headEnd <= c < i ensures !Admissible(ms, budget, c) {
          SuffixCostDecreases(ms, c, i - 1);
        }
      }
    }
  }

  /** The walk keeps the longest admissible suffix after the head, and the boundary returned lies
      strictly after the head and, unless the head is everything, within the transcript. */
  lemma TailIsLongestAdmissible(ms: seq<Message>, headEnd: nat, budget: int)
    requires headEnd <= |ms|
    ensures var cut := CutFrom(ms, |ms|, headEnd, budget);
            && Admissible(ms, budget, cut)
            && (forall c :: headEnd <= c < cut ==> !Admissible(ms, budget, c))
            && (headEnd + 2 <= |ms| ==> cut <= |ms| - 2)
            && (headEnd + 3 <= |ms| ==> (cut <= |ms| - 3 <==> SuffixCost(ms, |ms| - 3) <= budget))
    ensures headEnd < TailStart(ms, headEnd, budget)
    ensures TailStart(ms, headEnd, budget) <= |ms| <==> headEnd < |ms|
  {
    CutFromIsLongest(ms, |ms|, headEnd, budget);
    if headEnd + 2 <= |ms| {
      assert Admissible(ms, budget, |ms| - 2);
    }
    if headEnd + 3 <= |ms| {
      ThirdIsKeptExactly(ms, headEnd, budget, CutFrom(ms, |ms|, headEnd, budget));
    }
  }

  lemma ThirdIsKeptExactly(ms: seq<Message>, headEnd: nat, budget: int, cut: nat)
    requires headEnd + 3 <= |ms| && headEnd <= cut <= |ms| && Admissible(ms, budget, cut)
    requires forall c :: headEnd <= c < cut ==> !Admissible(ms, budget, c)
    ensures cut <= |ms| - 3 <==> SuffixCost(ms, |ms| - 3) <= budget
  {
    if cut <= |ms| - 3 {
      SuffixCostDecreases(ms, cut, |ms| - 3);
    } else {
      assert !Admissible(ms, budget, |ms| - 3);
    }
  }

  // ---- Compression -----------------------------------------------------------------------------

  predicate HasBlocks(m: Message) {
    m.content.Blocks? && m.content.parts != []
  }

  function Framed(prefix: string, text: string): string {
    prefix + "\n" + text
  }

  function WithNote(m: Message): Message
    requires !HasBlocks(m)
  {
    var existing := if m.content.Text? then m.content.text else "";
    if m.role.System? && !Contains(existing, NOTE) then m.(content := Text(existing + "\n\n" + NOTE)) else m
  }

  function RoleOrUser(m: Message): Role {
    if m.role.Unset? then User else m.role
  }

  function SummaryRole(lastHead: Role, firstTail: Role): Role {
    var role := if lastHead.Assistant? || lastHead.Tool? then User else Assistant;
    if role == firstTail then
      var flipped := if role.User? then Assistant else User;
      if flipped != lastHead then flipped else role
    else role
  }

  function SummaryMessage(ms: seq<Message>, start: nat, end: nat, prefix: string, text: string): Message
    requires start <= |ms|
  {
    var lastHead := if start > 0 then RoleOrUser(ms[start - 1]) else User;
    var firstTail := if end < |ms| then RoleOrUser(ms[end]) else User;
    Message(SummaryRole(lastHead, firstTail), Text(Framed(prefix, text)), [], "")
  }

  function Head(ms: seq<Message>, start: nat): seq<Message>
    requires start <= |ms| && (start > 0 && ms[0].role.System? ==> !HasBlocks(ms[0]))
  {
    if start > 0 && ms[0].role.System? then [WithNote(ms[0])] + ms[1..start] else ms[..start]
  }

  function Middle(ms: seq<Message>, start: nat, end: nat): seq<Message>
    requires start <= |ms|
  {
    if start <= end <= |ms| then ms[start..end] else []
  }

  function Tail(ms: seq<Message>, end: nat): seq<Message> {
    if end <= |ms| then ms[end..] else []
  }

  function TailCount(n: nat, s: Settings): nat {
    Max(TAIL_MIN_MESSAGES, Trunc(n as real * s.tailRatio))
  }

  function TailBudget(s: Settings): int {
    Trunc(s.target as real * s.tailRatio)
  }

  /** The transcript after the pruning pass. */
  function PrunedFor(ms: seq<Message>, s: Settings): (pm: seq<Message>)
    ensures |pm| == |ms|
  {
    Pruned(ms, TailCount(|ms|, s), s.hash)
  }

  /** The end of the protected head, past the tool results at its edge. */
  function HeadEnd(pm: seq<Message>, s: Settings): (start: nat)
    requires s.protectHead <= |pm|
    ensures s.protectHead <= start <= |pm|
  {
    RunEnd(pm, s.protectHead)
  }

  function TailBegin(pm: seq<Message>, s: Settings): nat
    requires s.protectHead <= |pm|
  {
    TailStart(pm, HeadEnd(pm, s), TailBudget(s))
  }

  predicate TooShort(ms: seq<Message>, s: Settings) {
    |ms| <= s.protectHead + TAIL_MIN_MESSAGES + 1
  }

  function Assembled(pm: seq<Message>, start: nat, end: nat, prefix: string, text: string): Outcome
    requires start <= |pm|
  {
    if start > 0 && pm[0].role.System? && HasBlocks(pm[0]) then Raised
    else
      Returned(Repaired(Head(pm, start) + [SummaryMessage(pm, start, end, prefix, text)] + Tail(pm, end)), Some(text))
  }

  function Summarised(pm: seq<Message>, start: nat, end: nat, s: Settings): Outcome
    requires start <= |pm|
  {
    var turns := Middle(pm, start, end);
    if exists m | m in turns :: HasBlocks(m) then Raised
    else
      match s.summarise(turns, s.previous)
      case None => Returned(pm, s.previous)
      case Some(text) => Assembled(pm, start, end, s.prefix, text)
  }

  function Compressed(ms: seq<Message>, s: Settings): Outcome {
    if TooShort(ms, s) then Returned(ms, s.previous)
    else
      var pm := PrunedFor(ms, s);
      Summarised(pm, HeadEnd(pm, s), TailBegin(pm, s), s)
  }

  method Compress(messages: seq<Message>, s: Settings) returns (outcome: Outcome)
    ensures outcome == Compressed(messages, s)
  {
    var n := |messages|;
    if n <= s.protectHead + TAIL_MIN_MESSAGES + 1 {
      return Returned(messages, s.previous);
    }
    var pm, _ := PruneToolResults(messages, TailCount(n, s), s.hash);
    var start := s.protectHead;
    while start < n && pm[start].role.Tool?
      invariant s.protectHead <= start <= n
      invariant RunEnd(pm, start) == RunEnd(pm, s.protectHead)
    {
      start := start + 1;
    }
    var end := FindTailBoundary(pm, start, TailBudget(s));
    outcome := Summarise(pm, start, end, s);
  }

  method Summarise(pm: seq<Message>, start: nat, end: nat, s: Settings) returns (outcome: Outcome)
    requires start <= |pm|
    ensures outcome == Summarised(pm, start, end, s)
  {
    var turns := Middle(pm, start, end);
    if exists m | m in turns :: HasBlocks(m) {
      return Raised;
    }
    var summary := s.summarise(turns, s.previous);
    if summary.None? {
      return Returned(pm, s.previous);
    }
    outcome := Assemble(pm, start, end, s.prefix, summary.value);
  }

  method Assemble(pm: seq<Message>, start: nat, end: nat, prefix: string, text: string) returns (outcome: Outcome)
    requires start <= |pm|
    ensures outcome == Assembled(pm, start, end, prefix, text)
  {
    if start > 0 && pm[0].role.System? && HasBlocks(pm[0]) {
      return Raised;
    }
    var compressed := HeadMessages(pm, start);
    compressed := compressed + [SummaryMessage(pm, start, end, prefix, text)];
    compressed := AppendTail(compressed, pm, end);
    compressed := SanitizeToolPairs(compressed);
    return Returned(compressed, Some(text));
  }

  method HeadMessages(pm: seq<Message>, start: nat) returns (head: seq<Message>)
    requires start <= |pm| && (start > 0 && pm[0].role.System? ==> !HasBlocks(pm[0]))
    ensures head == Head(pm, start)
  {
    head := [];
    for i := 0 to start
      invariant |head| == i
      invariant forall k :: 0 <= k < i ==> head[k] == if k == 0 && pm[0].role.System? then WithNote(pm[0]) else pm[k]
    {
      var msg := pm[i];
      if i == 0 && msg.role.System? {
        msg := WithNote(msg);
      }
      head := head + [msg];
    }
  }

  method AppendTail(front: seq<Message>, pm: seq<Message>, end: nat) returns (compressed: seq<Message>)
    ensures compressed == front + Tail(pm, end)
  {
    compressed := front;
    if end <= |pm| {
      for i := end to |pm|
        invariant compressed == front + pm[end..i]
      {
        assert pm[end..i + 1] == pm[end..i] + [pm[i]];
        compressed := compressed + [pm[i]];
      }
      assert pm[end..|pm|] == Tail(pm, end);
    }
  }

  // ---- What compression does to a well-formed transcript ---------------------------------------

  lemma HeadIds(pm: seq<Message>, start: nat)
    requires start <= |pm| && (start > 0 && pm[0].role.System? ==> !HasBlocks(pm[0]))
    ensures SameShape(Head(pm, start), pm[..start])
  {
  }

  /** The results in the run at `end` answer calls in `[start..end)`. */
  lemma RunAnswersCut(pm: seq<Message>, start: nat, end: nat)
    requires Paired(pm) && start < end <= |pm| && !pm[start].role.Tool?
    ensures ResultIds(pm[end..RunEnd(pm, end)]) <= CallIds(pm[start..end])
  {
    var rest := RunEnd(pm, end);
    PairedStretch(pm, start, rest);
    assert pm[start..rest] == pm[start..end] + pm[end..rest];
    RunIds(pm[start..end], pm[end..rest]);
  }

  lemma RunIds(before: seq<Message>, run: seq<Message>)
    requires forall m <- run :: m.role.Tool?
    requires CallIds(before + run) == ResultIds(before + run)
    ensures CallIds(run) == {} && ResultIds(run) <= CallIds(before)
  {
    IdsAppend(before, run);
    ToolRunHasNoCalls(run);
  }

  lemma FrontIds(pm: seq<Message>, start: nat, head: seq<Message>, summary: Message)
    requires Paired(pm) && start < |pm| && !pm[start].role.Tool?
    requires SameShape(head, pm[..start]) && !summary.role.Tool? && summary.calls == []
    ensures CallIds(head + [summary]) == ResultIds(head + [summary]) == CallIds(pm[0..start])
  {
    PairedStretch(pm, 0, start);
    assert pm[0..start] == pm[..start];
    ShapeKeepsIds(head, pm[..start]);
    SingleIds(summary);
    IdsAppend(head, [summary]);
  }

  lemma RunAnswersItself(run: seq<Message>)
    requires forall m :: m in run ==> m.role.Tool? && m.resultFor != ""
    ensures forall m :: m in run ==> Answering(m, ResultIds(run))
  {
  }

  lemma RunIsNonEmpty(pm: seq<Message>, end: nat, rest: nat)
    requires WellFormed(pm) && end <= rest <= |pm|
    requires forall i :: end <= i < rest ==> pm[i].role.Tool?
    ensures forall m :: m in pm[end..rest] ==> m.role.Tool? && m.resultFor != ""
  {
    NoEmptyResults(pm, multiset{});
  }

  /** Repair drops a run of results that answer neither what is before nor what is behind them. */
  lemma RunIsDropped(front: seq<Message>, run: seq<Message>, tail: seq<Message>)
    requires forall m :: m in run ==> m.role.Tool? && m.resultFor != ""
    requires CallIds(front) == ResultIds(front) && CallIds(tail) == ResultIds(tail)
    requires ResultIds(run) !! CallIds(front) && ResultIds(run) !! CallIds(tail)
    ensures Repaired(front + run + tail) == front + tail
  {
    var cut, orphans := front + run + tail, ResultIds(run);
    IdsAppend(front, run);
    IdsAppend(front + run, tail);
    ToolRunHasNoCalls(run);
    assert Orphans(cut) == orphans && Missing(cut) == {};
    RunAnswersItself(run);
    NotAnswering(front, orphans);
    NotAnswering(tail, orphans);
    WithoutParts(front, run, tail, orphans);
    NoStubs(front + tail, {});
  }

  /** Repairing the cut transcript drops the run of results at the cut and does nothing else. */
  lemma RepairDropsRun(pm: seq<Message>, start: nat, end: nat, head: seq<Message>, summary: Message)
    requires WellFormed(pm) && start < end <= |pm| && !pm[start].role.Tool?
    requires SameShape(head, pm[..start]) && !summary.role.Tool? && summary.calls == []
    ensures Repaired(head + [summary] + pm[end..]) == head + [summary] + pm[RunEnd(pm, end)..]
  {
    var rest := RunEnd(pm, end);
    FrontIds(pm, start, head, summary);
    PairedStretch(pm, rest, |pm|);
    RunAnswersCut(pm, start, end);
    DisjointCalls(pm, 0, start, start, end);
    DisjointCalls(pm, start, end, rest, |pm|);
    RunIsNonEmpty(pm, end, rest);
    RunIsDropped(head + [summary], pm[end..rest], pm[rest..|pm|]);
    RunInside(head + [summary], pm, end, rest);
  }

  lemma RunInside(front: seq<Message>, pm: seq<Message>, end: nat, rest: nat)
    requires end <= rest <= |pm|
    ensures front + pm[end..rest] + pm[rest..|pm|] == front + pm[end..]
    ensures pm[rest..|pm|] == pm[rest..]
  {
  }

  lemma WithoutParts(xs: seq<Message>, run: seq<Message>, ys: seq<Message>, ids: set<string>)
    requires forall m :: m in xs ==> !Answering(m, ids)
    requires forall m :: m in run ==> Answering(m, ids)
    requires forall m :: m in ys ==> !Answering(m, ids)
    ensures Without(xs + run + ys, ids) == xs + ys
  {
    calc {
      Without(xs + run + ys, ids);
      { WithoutAppend(xs + run, ys, ids); }
      Without(xs + run, ids) + Without(ys, ids);
      { WithoutAppend(xs, run, ids); }
      Without(xs, ids) + Without(run, ids) + Without(ys, ids);
      { WithoutNothing(xs, ids); WithoutEverything(run, ids); WithoutNothing(ys, ids); }
      xs + [] + ys;
    }
  }

  lemma CutIsWellFormed(pm: seq<Message>, start: nat, rest: nat, head: seq<Message>, summary: Message)
    requires WellFormed(pm) && start <= rest <= |pm|
    requires (start < |pm| ==> !pm[start].role.Tool?) && (rest < |pm| ==> !pm[rest].role.Tool?)
    requires SameShape(head, pm[..start]) && !summary.role.Tool? && summary.calls == []
    ensures WellFormed(head + [summary] + pm[rest..])
  {
    CutFollows(pm, multiset{}, start);
    CutFollows(pm, multiset{}, rest);
    ShapeKeepsFollows(pm[..start], head, multiset{});
    JoinFollows(head, [summary], multiset{});
    JoinFollows(head + [summary], pm[rest..], multiset{});
    CutIsDistinct(pm, start, rest, head, summary);
  }

  lemma CutIsDistinct(pm: seq<Message>, start: nat, rest: nat, head: seq<Message>, summary: Message)
    requires DistinctCalls(pm) && start <= rest <= |pm|
    requires SameShape(head, pm[..start]) && !summary.role.Tool? && summary.calls == []
    ensures DistinctCalls(head + [summary] + pm[rest..])
  {
    var cut := head + [summary] + pm[rest..];
    var at := i => if i < start then i else i - start - 1 + rest;
    forall i | 0 <= i < |cut| && i != start
      ensures 0 <= at(i) < |pm| && CallsOf(cut[i]) == CallsOf(pm[at(i)])
    {
    }
    assert CallsOf(cut[start]) == [];
    PickedIsDistinct(pm, cut, start, at);
  }

  /** Messages picked from a transcript in order, with one that makes no calls among them. */
  lemma PickedIsDistinct(pm: seq<Message>, cut: seq<Message>, gap: nat, at: int -> int)
    requires DistinctCalls(pm)
    requires forall i :: 0 <= i < |cut| && i != gap ==> 0 <= at(i) < |pm| && CallsOf(cut[i]) == CallsOf(pm[at(i)])
    requires forall i, j :: 0 <= i < j < |cut| && i != gap && j != gap ==> at(i) < at(j)
    requires gap < |cut| ==> CallsOf(cut[gap]) == []
    ensures DistinctCalls(cut)
  {
    forall m | m in cut ensures "" !in CallsOf(m) && NoRepeats(CallsOf(m)) {
      var i :| 0 <= i < |cut| && cut[i] == m;
      assert i != gap ==> pm[at(i)] in pm;
    }
  }

  lemma AssembledInside(pm: seq<Message>, start: nat, end: nat, prefix: string, text: string)
    requires WellFormed(pm) && start < end <= |pm| && !pm[start].role.Tool?
    requires Assembled(pm, start, end, prefix, text).Returned?
    ensures Assembled(pm, start, end, prefix, text).messages
         == Head(pm, start) + [SummaryMessage(pm, start, end, prefix, text)] + pm[RunEnd(pm, end)..]
    ensures WellFormed(Assembled(pm, start, end, prefix, text).messages)
  {
    var head, summary := Head(pm, start), SummaryMessage(pm, start, end, prefix, text);
    HeadIds(pm, start);
    RepairDropsRun(pm, start, end, head, summary);
    CutIsWellFormed(pm, start, RunEnd(pm, end), head, summary);
  }

  lemma AssembledAtEnd(pm: seq<Message>, end: nat, prefix: string, text: string)
    requires WellFormed(pm) && end > |pm|
    requires Assembled(pm, |pm|, end, prefix, text).Returned?
    ensures Assembled(pm, |pm|, end, prefix, text).messages
         == Head(pm, |pm|) + [SummaryMessage(pm, |pm|, end, prefix, text)]
    ensures WellFormed(Assembled(pm, |pm|, end, prefix, text).messages)
  {
    HeadIds(pm, |pm|);
    assert pm[..|pm|] == pm && pm[|pm|..] == [];
    SummaryLast(pm, Head(pm, |pm|), SummaryMessage(pm, |pm|, end, prefix, text));
  }

  lemma SummaryLast(pm: seq<Message>, head: seq<Message>, summary: Message)
    requires WellFormed(pm) && SameShape(head, pm[..|pm|]) && !summary.role.Tool? && summary.calls == []
    ensures WellFormed(head + [summary]) && Repaired(head + [summary] + []) == head + [summary]
  {
    var out := head + [summary];
    CutIsWellFormed(pm, |pm|, |pm|, head, summary);
    assert out + pm[|pm|..] == out && out + [] == out;
    FollowsIds(out, multiset{});
    RepairKeepsAgreement(out);
  }

  // ---- Main results ---------------------------------------------------------------------------------

  /** The summariser is reached and answers, and no list content makes a `TypeError` escape. */
  ghost predicate Summarises(ms: seq<Message>, s: Settings) {
    && !TooShort(ms, s)
    && var pm := PrunedFor(ms, s);
       var turns := Middle(pm, HeadEnd(pm, s), TailBegin(pm, s));
       && (forall m :: m in turns ==> !HasBlocks(m))
       && s.summarise(turns, s.previous).Some?
       && !(HeadEnd(pm, s) > 0 && pm[0].role.System? && HasBlocks(pm[0]))
  }

  lemma SummaryIsAssembled(ms: seq<Message>, s: Settings) returns (text: string)
    requires Summarises(ms, s)
    ensures var pm := PrunedFor(ms, s);
            && Compressed(ms, s) == Assembled(pm, HeadEnd(pm, s), TailBegin(pm, s), s.prefix, text)
            && Assembled(pm, HeadEnd(pm, s), TailBegin(pm, s), s.prefix, text).Returned?
            && Compressed(ms, s).summary == Some(text)
  {
    text := Compressed(ms, s).summary.value;
  }

  /** The head, the summary, and the tail minus its leading run of results; when the head is
      everything, the summary at the end. */
  ghost predicate IsCompression(pm: seq<Message>, start: nat, end: nat, prefix: string, text: string,
                                out: seq<Message>) {
    && start <= |pm| && (start > 0 && pm[0].role.System? ==> !HasBlocks(pm[0]))
    && var front := Head(pm, start) + [SummaryMessage(pm, start, end, prefix, text)];
       if start < |pm| then
         start < end <= |pm| && out == front + pm[RunEnd(pm, end)..]
       else
         out == front
  }

  lemma AssembledIsCompression(pm: seq<Message>, start: nat, end: nat, prefix: string, text: string)
    requires WellFormed(pm) && start <= |pm|
    requires if start < |pm| then start < end <= |pm| && !pm[start].role.Tool? else end > |pm|
    requires Assembled(pm, start, end, prefix, text).Returned?
    ensures IsCompression(pm, start, end, prefix, text, Assembled(pm, start, end, prefix, text).messages)
    ensures WellFormed(Assembled(pm, start, end, prefix, text).messages)
  {
    if start < |pm| {
      AssembledInside(pm, start, end, prefix, text);
    } else {
      AssembledAtEnd(pm, end, prefix, text);
    }
  }

  lemma PrunedIsWellFormed(ms: seq<Message>, s: Settings)
    requires WellFormed(ms)
    ensures SameShape(ms, PrunedFor(ms, s)) && WellFormed(PrunedFor(ms, s))
  {
    PruningKeepsStructure(ms, TailCount(|ms|, s), s.hash);
    ShapeKeepsWellFormed(ms, PrunedFor(ms, s));
  }

  /** Compressing a well-formed transcript: when the head stops short of the end, the result is the
      head, the summary and the tail minus its leading run of results; no stub is added. The result
      is well-formed again. */
  lemma CompressionPreservesWellFormedness(ms: seq<Message>, s: Settings)
    requires WellFormed(ms)
    ensures Summarises(ms, s) ==>
              var pm, out := PrunedFor(ms, s), Compressed(ms, s);
              && SameShape(ms, pm)
              && out.Returned? && out.summary.Some?
              && IsCompression(pm, HeadEnd(pm, s), TailBegin(pm, s), s.prefix, out.summary.value, out.messages)
              && WellFormed(out.messages)
  {
    if Summarises(ms, s) {
      var pm := PrunedFor(ms, s);
      PrunedIsWellFormed(ms, s);
      TailIsLongestAdmissible(pm, HeadEnd(pm, s), TailBudget(s));
      var text := SummaryIsAssembled(ms, s);
      AssembledIsCompression(pm, HeadEnd(pm, s), TailBegin(pm, s), s.prefix, text);
    }
  }

  lemma CompressionLength(pm: seq<Message>, start: nat, end: nat, prefix: string, text: string, out: seq<Message>)
    requires IsCompression(pm, start, end, prefix, text, out)
    ensures if start < |pm| then |out| <= |pm| else |out| == |pm| + 1
  {
    assert |Head(pm, start)| == start;
  }

  lemma HeadEndsInside(pm: seq<Message>, s: Settings)
    requires s.protectHead <= |pm|
    ensures HeadEnd(pm, s) < |pm| <==> exists i :: s.protectHead <= i < |pm| && !pm[i].role.Tool?
  {
  }

  /** Compression never lengthens a well-formed transcript, except that it adds the summary to one
      which is nothing but tool results after the protected messages. */
  lemma CompressionShortensExactly(ms: seq<Message>, s: Settings)
    requires WellFormed(ms)
    ensures Summarises(ms, s) ==>
              && Compressed(ms, s).Returned?
              && |Compressed(ms, s).messages| <= |ms| + 1
              && (|Compressed(ms, s).messages| <= |ms| <==>
                    exists i :: s.protectHead <= i < |ms| && !ms[i].role.Tool?)
  {
    CompressionPreservesWellFormedness(ms, s);
    if Summarises(ms, s) {
      var pm, out := PrunedFor(ms, s), Compressed(ms, s);
      CompressionLength(pm, HeadEnd(pm, s), TailBegin(pm, s), s.prefix, out.summary.value, out.messages);
      HeadEndsInside(pm, s);
      assert forall i :: 0 <= i < |ms| ==> pm[i].role == ms[i].role;
    }
  }

  /** When the summariser fails, the messages returned are the pruned ones: the originals exactly
      when no long output is repeated and each bulky one before the tail is its own line. */
  lemma FailureReturnsPruned(ms: seq<Message>, s: Settings)
    requires !TooShort(ms, s)
    requires var pm := PrunedFor(ms, s);
             var turns := Middle(pm, HeadEnd(pm, s), TailBegin(pm, s));
             (forall m <- turns :: !HasBlocks(m)) && s.summarise(turns, s.previous).None?
    ensures Compressed(ms, s) == Returned(PrunedFor(ms, s), s.previous)
    ensures Compressed(ms, s).messages == ms <==>
            forall i :: 0 <= i < |ms| ==>
              && !IsDuplicate(ms, i, s.hash)
              && (i < Boundary(|ms|, TailCount(|ms|, s)) && Bulky(ms[i]) ==> IsOwnLine(ms[i]))
  {
    PruningIsIdleExactly(ms, TailCount(|ms|, s), s.hash);
  }

  /** A `TypeError` escapes exactly when the middle holds a message with a list content, or the
      summary arrived and the first message is a system message with one. */
  lemma RaisesExactly(ms: seq<Message>, s: Settings)
    ensures Compressed(ms, s).Raised? <==>
            && !TooShort(ms, s)
            && var pm := PrunedFor(ms, s);
               var start, end := HeadEnd(pm, s), TailBegin(pm, s);
               || (exists i :: start <= i < end && i < |ms| && HasBlocks(ms[i]))
               || (&& start > 0 && ms[0].role.System? && HasBlocks(ms[0])
                   && s.summarise(Middle(pm, start, end), s.previous).Some?)
    ensures (forall m :: m in ms ==> !HasBlocks(m)) ==> !Compressed(ms, s).Raised?
  {
    if !TooShort(ms, s) {
      var pm := PrunedFor(ms, s);
      PruningKeepsBlocks(ms, TailCount(|ms|, s), s.hash);
      TailIsLongestAdmissible(pm, HeadEnd(pm, s), TailBudget(s));
      MiddleHasBlocks(pm, HeadEnd(pm, s), TailBegin(pm, s));
    }
  }

  lemma PruningKeepsBlocks(ms: seq<Message>, tailCount: nat, hash: Hash)
    ensures var pm := Pruned(ms, tailCount, hash);
            forall i :: 0 <= i < |ms| ==> pm[i].role == ms[i].role && (HasBlocks(pm[i]) <==> HasBlocks(ms[i]))
  {
  }

  lemma MiddleHasBlocks(pm: seq<Message>, start: nat, end: nat)
    requires start <= |pm| && (start < |pm| ==> start < end <= |pm|) && (start == |pm| ==> end > |pm|)
    ensures (exists m :: m in Middle(pm, start, end) && HasBlocks(m))
       <==> (exists i :: start <= i < end && i < |pm| && HasBlocks(pm[i]))
  {
    forall i | start <= i < end && i < |pm| ensures pm[i] in Middle(pm, start, end) {
      assert Middle(pm, start, end)[i - start] == pm[i];
    }
  }

  /** The summary never repeats the role before it, and repeats the role at the tail boundary only
      when user and assistant are taken on either side. */
  lemma SummaryRoleAlternates(lastHead: Role, firstTail: Role)
    ensures SummaryRole(lastHead, firstTail) != lastHead
    ensures SummaryRole(lastHead, firstTail) == firstTail <==>
              (lastHead.User? && firstTail.Assistant?) || (lastHead.Assistant? && firstTail.User?)
  {
  }

  /** The role is chosen before repair drops the leading results, so against the message that ends
      up after the summary it can clash in two more cases. */
  lemma NeighbourRoleClashes(pm: seq<Message>, start: nat, end: nat, prefix: string, text: string)
    requires 0 < start < end <= |pm| && RunEnd(pm, end) < |pm|
    ensures var before, next := RoleOrUser(pm[start - 1]), RoleOrUser(pm[RunEnd(pm, end)]);
            SummaryMessage(pm, start, end, prefix, text).role == next <==>
            || (before.User? && next.Assistant?) || (before.Assistant? && next.User?)
            || (pm[end].role.Tool? && before.Tool? && next.User?)
            || (pm[end].role.Tool? && !before.Assistant? && !before.Tool? && next.Assistant?)
  {
  }

  /** The head is kept verbatim but for the note on a system message, which is added after its text
      and only once however often the transcript is compressed. */
  lemma HeadIsVerbatim(pm: seq<Message>, start: nat)
    requires start <= |pm| && (start > 0 && pm[0].role.System? ==> !HasBlocks(pm[0]))
    ensures var head := Head(pm, start);
            && |head| == start
            && (forall i :: 0 <= i < start && (i > 0 || !pm[0].role.System?) ==> head[i] == pm[i])
            && (start > 0 && pm[0].role.System? ==>
                  && head[0].content.Text? && Contains(head[0].content.text, NOTE)
                  && (pm[0].content.Text? ==> pm[0].content.text <= head[0].content.text)
                  && WithNote(head[0]) == head[0])
  {
    if start > 0 && pm[0].role.System? {
      var existing := if pm[0].content.Text? then pm[0].content.text else "";
      assert OccursAt(existing + "\n\n" + NOTE, NOTE, |existing| + 2);
      assert !Contains("", NOTE);
    }
  }

  // ---- The result, message by message ----------------------------------------------------------

  /** Four characters a token and ten tokens a message; a list counts its blocks. */
  function Tokens(ms: seq<Message>): nat {
    if ms == [] then 0
    else
      var length := match ms[0].content
                    case Absent => 0
                    case Text(text) => |text|
                    case Blocks(parts) => |parts|;
      length / 4 + 10 + Tokens(ms[1..])
  }

  lemma {:induction false} SuffixTokens(ms: seq<Message>, i: nat)
    requires i <= |ms|
    ensures SuffixCost(ms, i) == Tokens(ms[i..])
    decreases |ms| - i
  {
    if i < |ms| {
      SuffixTokens(ms, i + 1);
      assert ms[i..][1..] == ms[i + 1..];
    }
  }

  /** `cut` begins the longest tail after `start` that fits the budget or has at most two messages. */
  ghost predicate IsTailCut(ms: seq<Message>, start: nat, cut: nat, budget: int) {
    && start <= cut <= |ms|
    && (|ms| - cut <= 2 || Tokens(ms[cut..]) <= budget)
    && forall c :: start <= c < cut ==> |ms| - c > 2 && Tokens(ms[c..]) > budget
  }

  /** What follows the protected messages: `start` is past them and past the tool results behind
      them, and `cut` begins the tail. */
  ghost predicate IsPlan(pm: seq<Message>, s: Settings, start: nat, cut: nat) {
    && s.protectHead <= start <= |pm|
    && (forall i :: s.protectHead <= i < start ==> pm[i].role.Tool?)
    && (start < |pm| ==> !pm[start].role.Tool?)
    && IsTailCut(pm, start, cut, Trunc(s.target as real * s.tailRatio))
  }

  /** At least one message is summarised away, unless there is none behind the head. */
  function PlannedEnd(start: nat, cut: nat): nat {
    if cut > start then cut else start + 1
  }

  function Summarisable(pm: seq<Message>, start: nat, end: nat): seq<Message>
    requires start <= |pm|
  {
    if start < end <= |pm| then pm[start..end] else []
  }

  /** The role before the summary, or at the tail boundary; a missing role counts as the user's. */
  function RoleAt(pm: seq<Message>, i: int): Role {
    if 0 <= i < |pm| && !pm[i].role.Unset? then pm[i].role else User
  }

  ghost predicate FitsBetween(role: Role, before: Role, behind: Role) {
    && (role.User? || role.Assistant?) && role != before
    && (role == behind ==> (before.User? && behind.Assistant?) || (before.Assistant? && behind.User?))
    && (!behind.User? && !behind.Assistant? ==> (role.User? <==> before.Assistant? || before.Tool?))
  }

  /** The transcript that replaces `pm[start..end]` by the summary, message by message: the head with
      the note on a system message, the summary, and the tail from the first message that is no tool
      result. */
  ghost predicate IsSpelledOut(pm: seq<Message>, start: nat, end: nat, prefix: string, text: string,
                               out: seq<Message>) {
    && start <= |pm| && start < |out|
    && (forall i :: 0 <= i < start ==> out[i] == if i == 0 then Noted(pm[0]) else pm[i])
    && out[start].content == Text(prefix + "\n" + text)
    && out[start].calls == [] && out[start].resultFor == ""
    && FitsBetween(out[start].role, RoleAt(pm, start - 1), RoleAt(pm, end))
    && exists rest ::
         && (if end <= |pm| then end <= rest <= |pm| && forall i :: end <= i < rest ==> pm[i].role.Tool?
             else rest == |pm|)
         && (rest < |pm| ==> !pm[rest].role.Tool?)
         && out[start + 1..] == pm[rest..]
  }

  /** A system message gets the note behind its text, unless the text holds it. */
  function Noted(m: Message): Message {
    match m.content
    case Text(text) =>
      if m.role.System? && !Contains(text, NOTE) then m.(content := Text(text + "\n\n" + NOTE)) else m
    case _ => if m.role.System? then m.(content := Text("\n\n" + NOTE)) else m
  }

  lemma TailCutIsFound(ms: seq<Message>, start: nat, budget: int)
    requires start <= |ms|
    ensures var cut := CutFrom(ms, |ms|, start, budget);
            IsTailCut(ms, start, cut, budget) && TailStart(ms, start, budget) == PlannedEnd(start, cut)
  {
    var cut := CutFrom(ms, |ms|, start, budget);
    CutFromIsLongest(ms, |ms|, start, budget);
    SuffixTokens(ms, cut);
    forall c | start <= c < cut ensures |ms| - c > 2 && Tokens(ms[c..]) > budget {
      assert !Admissible(ms, budget, c);
      SuffixTokens(ms, c);
    }
  }

  /** Where the head ends and the tail begins. */
  function CutOf(pm: seq<Message>, s: Settings): nat
    requires s.protectHead <= |pm|
  {
    CutFrom(pm, |pm|, HeadEnd(pm, s), TailBudget(s))
  }

  lemma PlanIsFollowed(pm: seq<Message>, s: Settings)
    requires s.protectHead <= |pm|
    ensures IsPlan(pm, s, HeadEnd(pm, s), CutOf(pm, s))
    ensures TailBegin(pm, s) == PlannedEnd(HeadEnd(pm, s), CutOf(pm, s))
  {
    TailCutIsFound(pm, HeadEnd(pm, s), TailBudget(s));
  }

  /** The plan is determined by the pruned transcript and the settings. */
  lemma PlanIsUnique(pm: seq<Message>, s: Settings, start: nat, cut: nat, start': nat, cut': nat)
    requires IsPlan(pm, s, start, cut) && IsPlan(pm, s, start', cut')
    ensures start == start' && cut == cut'
  {
    var here := if start < |pm| then Some(pm[start].role) else None;
    var there := if start' < |pm| then Some(pm[start'].role) else None;
    assert !(start < start') && !(start' < start);
    TailCutIsUnique(pm, start, cut, cut', Trunc(s.target as real * s.tailRatio));
  }

  lemma TailCutIsUnique(ms: seq<Message>, start: nat, cut: nat, cut': nat, budget: int)
    requires IsTailCut(ms, start, cut, budget) && IsTailCut(ms, start, cut', budget)
    ensures cut == cut'
  {
    var here, there := Tokens(ms[cut..]), Tokens(ms[cut'..]);
    assert !(cut < cut') && !(cut' < cut);
  }

  lemma SummaryFits(lastHead: Role, firstTail: Role)
    ensures FitsBetween(SummaryRole(lastHead, firstTail), lastHead, firstTail)
  {
  }

  lemma NotedIsWithNote(m: Message)
    requires !HasBlocks(m)
    ensures WithNote(m) == Noted(m)
  {
    assert "" + "\n\n" == "\n\n";
    assert !Contains("", NOTE);
  }

  lemma HeadIsSpelledOut(pm: seq<Message>, start: nat)
    requires start <= |pm| && (start > 0 && pm[0].role.System? ==> !HasBlocks(pm[0]))
    ensures var head := Head(pm, start);
            |head| == start && forall i :: 0 <= i < start ==> head[i] == if i == 0 then Noted(pm[0]) else pm[i]
  {
    if start > 0 {
      FirstIsNoted(pm, start);
      AfterFirst(pm, start, Noted(pm[0]));
    }
  }

  lemma FirstIsNoted(pm: seq<Message>, start: nat)
    requires 0 < start <= |pm| && (pm[0].role.System? ==> !HasBlocks(pm[0]))
    ensures Head(pm, start) == [Noted(pm[0])] + pm[1..start]
  {
    if pm[0].role.System? {
      NotedIsWithNote(pm[0]);
    } else {
      OthersGetNoNote(pm[0]);
      assert pm[..start] == [pm[0]] + pm[1..start];
    }
  }

  lemma AfterFirst(pm: seq<Message>, start: nat, first: Message)
    requires 0 < start <= |pm|
    ensures var head := [first] + pm[1..start];
            |head| == start && forall i :: 0 <= i < start ==> head[i] == if i == 0 then first else pm[i]
  {
  }

  lemma OthersGetNoNote(m: Message)
    requires !m.role.System?
    ensures Noted(m) == m
  {
  }

  lemma AssembledIsSpelledOut(pm: seq<Message>, start: nat, end: nat, prefix: string, text: string, out: seq<Message>)
    requires IsCompression(pm, start, end, prefix, text, out) && start < end
    ensures IsSpelledOut(pm, start, end, prefix, text, out)
  {
    HeadIsSpelledOut(pm, start);
    SummaryFits(RoleAt(pm, start - 1), RoleAt(pm, end));
    var rest := if start < |pm| then RunEnd(pm, end) else |pm|;
    PartsAreSpelledOut(Head(pm, start), SummaryMessage(pm, start, end, prefix, text), pm[rest..], out);
  }

  lemma PartsAreSpelledOut(head: seq<Message>, summary: Message, tail: seq<Message>, out: seq<Message>)
    requires out == head + [summary] + tail
    ensures |head| < |out| && out[|head|] == summary && out[|head| + 1..] == tail
    ensures forall i :: 0 <= i < |head| ==> out[i] == head[i]
  {
  }

  /** The summariser's answer on what the plan cuts out. */
  function AnswerFor(pm: seq<Message>, s: Settings): Option<string>
    requires s.protectHead <= |pm|
  {
    s.summarise(Middle(pm, HeadEnd(pm, s), TailBegin(pm, s)), s.previous)
  }

  lemma ReturnedMiddle(ms: seq<Message>, s: Settings)
    requires !TooShort(ms, s) && Compressed(ms, s).Returned?
    ensures var pm, answer := PrunedFor(ms, s), AnswerFor(PrunedFor(ms, s), s);
            if answer.None? then Compressed(ms, s) == Returned(pm, s.previous)
            else Summarises(ms, s) && Compressed(ms, s).summary == answer
  {
  }

  lemma AnswerIsInserted(ms: seq<Message>, s: Settings)
    requires WellFormed(ms) && Summarises(ms, s)
    requires AnswerFor(PrunedFor(ms, s), s) == Compressed(ms, s).summary
    ensures var pm, out := PrunedFor(ms, s), Compressed(ms, s);
            && out.Returned? && out.summary.Some?
            && IsSpelledOut(pm, HeadEnd(pm, s), TailBegin(pm, s), s.prefix, out.summary.value, out.messages)
  {
    var pm := PrunedFor(ms, s);
    CompressionPreservesWellFormedness(ms, s);
    PlanIsFollowed(pm, s);
    AssembledIsSpelledOut(pm, HeadEnd(pm, s), TailBegin(pm, s), s.prefix, Compressed(ms, s).summary.value,
                          Compressed(ms, s).messages);
  }

  /** `compress` on a well-formed transcript, spelled out, unless a `TypeError` escapes: a short one is
      returned as it is; otherwise the pruned one is cut by the plan, a failed summary returns it, and
      an answered one replaces the middle, and only the middle, by the prefix, a newline and the
      summary. */
  lemma CompressionSpelledOut(ms: seq<Message>, s: Settings) returns (pm: seq<Message>, start: nat, cut: nat)
    requires WellFormed(ms)
    ensures if |ms| <= s.protectHead + 4 then Compressed(ms, s) == Returned(ms, s.previous)
            else Compressed(ms, s).Raised? || IsCompressed(ms, s, pm, start, cut, Compressed(ms, s))
  {
    pm, start, cut := PrunedFor(ms, s), 0, 0;
    if |ms| > s.protectHead + 4 && Compressed(ms, s).Returned? {
      start, cut := HeadEnd(pm, s), CutOf(pm, s);
      PlanIsFollowed(pm, s);
      OutcomeIsSpelledOut(ms, s);
      PrunedForIs(ms, s);
      PartsMakeCompressed(ms, s, pm, start, cut, Compressed(ms, s));
    }
  }

  lemma PrunedForIs(ms: seq<Message>, s: Settings)
    ensures PrunedFor(ms, s) == Pruned(ms, Max(3, Trunc(|ms| as real * s.tailRatio)), s.hash)
  {
    var n := TailCount(|ms|, s);
    assert n == Max(3, Trunc(|ms| as real * s.tailRatio));
  }

  lemma PartsMakeCompressed(ms: seq<Message>, s: Settings, pm: seq<Message>, start: nat, cut: nat, out: Outcome)
    requires pm == Pruned(ms, Max(3, Trunc(|ms| as real * s.tailRatio)), s.hash)
    requires IsPlan(pm, s, start, cut) && IsOutcome(pm, s, start, PlannedEnd(start, cut), out)
    ensures IsCompressed(ms, s, pm, start, cut, out)
  {
  }

  lemma OutcomeIsSpelledOut(ms: seq<Message>, s: Settings)
    requires WellFormed(ms) && !TooShort(ms, s) && Compressed(ms, s).Returned?
    ensures var pm := PrunedFor(ms, s);
            IsOutcome(pm, s, HeadEnd(pm, s), TailBegin(pm, s), Compressed(ms, s))
  {
    var pm := PrunedFor(ms, s);
    PlanIsFollowed(pm, s);
    MiddleIsSummarisable(pm, HeadEnd(pm, s), TailBegin(pm, s));
    ReturnedMiddle(ms, s);
    if AnswerFor(pm, s).Some? {
      AnswerIsInserted(ms, s);
    }
  }

  lemma MiddleIsSummarisable(pm: seq<Message>, start: nat, end: nat)
    requires start <= |pm| && start < end
    ensures Middle(pm, start, end) == Summarisable(pm, start, end)
  {
  }

  ghost predicate IsCompressed(ms: seq<Message>, s: Settings, pm: seq<Message>, start: nat, cut: nat, out: Outcome) {
    && pm == Pruned(ms, Max(3, Trunc(|ms| as real * s.tailRatio)), s.hash)
    && IsPlan(pm, s, start, cut)
    && IsOutcome(pm, s, start, PlannedEnd(start, cut), out)
  }

  ghost predicate IsOutcome(pm: seq<Message>, s: Settings, start: nat, end: nat, out: Outcome) {
    && start <= |pm|
    && var answer := s.summarise(Summarisable(pm, start, end), s.previous);
       if answer.None? then out == Returned(pm, s.previous)
       else
         && out.Returned? && out.summary == answer
         && IsSpelledOut(pm, start, end, s.prefix, answer.value, out.messages)
  }

  /** Also on a transcript that is not well-formed the summary is in the result, whatever repair takes
      away. */
  lemma SummaryIsKept(ms: seq<Message>, s: Settings) returns (text: string, m: Message)
    requires Summarises(ms, s)
    ensures Compressed(ms, s).Returned? && Compressed(ms, s).summary == Some(text)
    ensures m in Compressed(ms, s).messages && m.content == Text(s.prefix + "\n" + text) && !m.role.Tool?
  {
    text := SummaryIsAssembled(ms, s);
    var pm := PrunedFor(ms, s);
    var start, end := HeadEnd(pm, s), TailBegin(pm, s);
    m := SummaryMessage(pm, start, end, s.prefix, text);
    RepairIsExact(Head(pm, start) + [m] + Tail(pm, end));
  }

  // ---- Inputs on which a promise fails ----------------------------------------------------------

  const HELLO := Message(User, Text("hello"), [], "")
  const BLOCKS := Message(User, Blocks(["x"]), [], "")

  /** Of five short messages, a budget of nothing keeps two. */
  lemma TwoMessageTail()
    ensures TailStart([HELLO, HELLO, HELLO, HELLO, HELLO], 0, 0) == 3
  {
    TailOfTwo([HELLO, HELLO, HELLO, HELLO, HELLO]);
  }

  lemma TailOfTwo(ms: seq<Message>)
    requires |ms| >= 3
    ensures TailStart(ms, 0, 0) == |ms| - 2
  {
    var n := |ms|;
    TailIsLongestAdmissible(ms, 0, 0);
    assert SuffixCost(ms, n - 3) >= Cost(ms[n - 3]);
  }

  /** A summariser that always fails, and an old output of 201 characters: what comes back is not
      what went in. */
  lemma FailureLosesOutput(s: Settings)
    requires s.protectHead == 0 && s.tailRatio == 0.0
    requires forall turns, previous :: s.summarise(turns, previous) == None
    ensures var ms := [Message(Tool, Text(seq(201, _ => 'x')), [], "1"), HELLO, HELLO, HELLO, HELLO];
            Compressed(ms, s).Returned? && Compressed(ms, s).messages != ms
  {
    var m := Message(Tool, Text(seq(201, _ => 'x')), [], "1");
    assert m.content.text[0] == 'x' && "[Duplicate"[0] == '[' && "[Old tool"[0] == '[';
    assert PruneLine(m)[0] == '[';
    OldOutputIsLost(m, s);
  }

  lemma OldOutputIsLost(m: Message, s: Settings)
    requires s.protectHead == 0 && s.tailRatio == 0.0
    requires forall turns, previous :: s.summarise(turns, previous) == None
    requires Bulky(m) && !IsOwnLine(m)
    ensures var ms := [m, HELLO, HELLO, HELLO, HELLO];
            Compressed(ms, s).Returned? && Compressed(ms, s).messages != ms
  {
    var ms := [m, HELLO, HELLO, HELLO, HELLO];
    assert TailCount(|ms|, s) == 3 && Boundary(|ms|, 3) == 2;
    assert Bulky(ms[0]) && !IsOwnLine(ms[0]);
    PruningKeepsBlocks(ms, TailCount(|ms|, s), s.hash);
    var pm := PrunedFor(ms, s);
    assert forall i :: 0 <= i < |pm| ==> !HasBlocks(ms[i]) && !HasBlocks(pm[i]);
    MiddleIsPlain(pm, HeadEnd(pm, s), TailBegin(pm, s));
    FailureReturnsPruned(ms, s);
  }

  lemma MiddleIsPlain(pm: seq<Message>, start: nat, end: nat)
    requires start <= |pm| && forall i :: 0 <= i < |pm| ==> !HasBlocks(pm[i])
    ensures forall m <- Middle(pm, start, end) :: !HasBlocks(m)
  {
    forall m <- Middle(pm, start, end) ensures !HasBlocks(m) {
      assert m in pm;
    }
  }

  /** Five messages whose contents are lists of one block. */
  lemma ListContentRaises(s: Settings)
    requires s.protectHead == 0 && s.tailRatio == 0.0
    ensures Compressed([BLOCKS, BLOCKS, BLOCKS, BLOCKS, BLOCKS], s).Raised?
  {
    var ms := [BLOCKS, BLOCKS, BLOCKS, BLOCKS, BLOCKS];
    var pm := PrunedFor(ms, s);
    assert HasBlocks(BLOCKS);
    PruningKeepsBlocks(ms, TailCount(|ms|, s), s.hash);
    assert pm[0].role == User;
    TailIsLongestAdmissible(pm, 0, TailBudget(s));
    assert HasBlocks(ms[0]);
    RaisesExactly(ms, s);
  }

  /** Five calls in the one protected message and their results after it: the summary only adds. */
  lemma CompressionLengthens(s: Settings)
    requires s.protectHead == 1
    requires forall turns, previous :: s.summarise(turns, previous).Some?
    ensures var ms := CallBlock(["1", "2", "3", "4", "5"]);
            WellFormed(ms) && Compressed(ms, s).Returned? && |Compressed(ms, s).messages| == |ms| + 1
  {
    BlockLengthens(["1", "2", "3", "4", "5"], s);
  }

  lemma BlockLengthens(calls: seq<string>, s: Settings)
    requires |calls| >= 5 && NoRepeats(calls) && "" !in calls && s.protectHead == 1
    requires forall turns, previous :: s.summarise(turns, previous).Some?
    ensures var ms := CallBlock(calls);
            WellFormed(ms) && Compressed(ms, s).Returned? && |Compressed(ms, s).messages| == |ms| + 1
  {
    var ms := CallBlock(calls);
    var pm := PrunedFor(ms, s);
    BlockIsWellFormed(calls);
    PrunedIsWellFormed(ms, s);
    HeadEndsInside(pm, s);
    TailIsLongestAdmissible(pm, |ms|, TailBudget(s));
    assert Summarises(ms, s);
    CompressionShortensExactly(ms, s);
  }
}
