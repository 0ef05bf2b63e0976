/** Conversation messages as cos_lib/context_compressor.py sees them, and what it means for tool
    calls and tool results to be paired up. */
module Transcript {

  datatype Role = System | User | Assistant | Tool | Unset | Other(name: string)

  /** `content` is missing, a string, or a list of blocks. */
  datatype Content = Absent | Text(text: string) | Blocks(parts: seq<string>)

  /** `calls` are the ids of the message's tool calls and `resultFor` its `tool_call_id`;
      the empty string stands for a missing id. */
  datatype Message = Message(role: Role, content: Content, calls: seq<string>, resultFor: string)

  function CallsOf(m: Message): seq<string> {
    if m.role.Assistant? then m.calls else []
  }

  /** The non-empty ids called by assistant messages. */
  function CallIds(ms: seq<Message>): set<string> {
    set m, c | m in ms && c in CallsOf(m) && c != "" :: c
  }

  /** The non-empty ids answered by tool messages. */
  function ResultIds(ms: seq<Message>): set<string> {
    set m | m in ms && m.role.Tool? && m.resultFor != "" :: m.resultFor
  }

  /** The first position at or after `i` that does not hold a tool message. */
  function RunEnd(ms: seq<Message>, i: nat): (r: nat)
    requires i <= |ms|
    ensures i <= r <= |ms|
    ensures forall k :: i <= k < r ==> ms[k].role.Tool?
    ensures r < |ms| ==> !ms[r].role.Tool?
    decreases |ms| - i
  {
    if i < |ms| && ms[i].role.Tool? then RunEnd(ms, i + 1) else i
  }

  // ---- Well-formed transcripts ---------------------------------------------------------------

  /** Read from the front with the calls in `open` still unanswered: a result must answer an open
      call, and any other message may only come when none is open. */
  ghost predicate Follows(ms: seq<Message>, open: multiset<string>) {
    if ms == [] then open == multiset{}
    else if ms[0].role.Tool? then ms[0].resultFor in open && Follows(ms[1..], open - multiset{ms[0].resultFor})
    else open == multiset{} && Follows(ms[1..], multiset(CallsOf(ms[0])))
  }

  /** Every call block is immediately followed by its results, and no result is elsewhere. */
  ghost predicate Paired(ms: seq<Message>) {
    Follows(ms, multiset{})
  }

  ghost predicate NoRepeats(ids: seq<string>) {
    forall a, b :: 0 <= a < b < |ids| ==> ids[a] != ids[b]
  }

  /** No two calls share an id, within one message or across messages, and no id is empty. */
  ghost predicate DistinctCalls(ms: seq<Message>) {
    && (forall m :: m in ms ==> "" !in CallsOf(m) && NoRepeats(CallsOf(m)))
    && (forall i, j, c :: 0 <= i < j < |ms| && c in CallsOf(ms[i]) ==> c !in CallsOf(ms[j]))
  }

  ghost predicate WellFormed(ms: seq<Message>) {
    Paired(ms) && DistinctCalls(ms)
  }

  /** The two transcripts differ at most in their contents. */
  ghost predicate SameShape(xs: seq<Message>, ys: seq<Message>) {
    && |xs| == |ys|
    && forall i :: 0 <= i < |xs| ==>
         xs[i].role == ys[i].role && xs[i].calls == ys[i].calls && xs[i].resultFor == ys[i].resultFor
  }

  // ---- Lemmas ----------------------------------------------------------------------------------

  lemma IdsAppend(xs: seq<Message>, ys: seq<Message>)
    ensures CallIds(xs + ys) == CallIds(xs) + CallIds(ys)
    ensures ResultIds(xs + ys) == ResultIds(xs) + ResultIds(ys)
  {
    forall c | c in CallIds(xs) + CallIds(ys) ensures c in CallIds(xs + ys) {
      var m :| (m in xs || m in ys) && c in CallsOf(m) && c != "";
      assert m in xs + ys;
    }
    forall c | c in ResultIds(xs) + ResultIds(ys) ensures c in ResultIds(xs + ys) {
      var m :| (m in xs || m in ys) && m.role.Tool? && m.resultFor == c && c != "";
      assert m in xs + ys;
    }
  }

  lemma {:induction false} ShapeKeepsFollows(xs: seq<Message>, ys: seq<Message>, open: multiset<string>)
    requires SameShape(xs, ys) && Follows(xs, open)
    ensures Follows(ys, open)
  {
    if xs != [] {
      assert CallsOf(xs[0]) == CallsOf(ys[0]);
      ShapeKeepsFollows(xs[1..], ys[1..], if xs[0].role.Tool? then open - multiset{xs[0].resultFor}
                                          else multiset(CallsOf(xs[0])));
    }
  }

  lemma ShapeKeepsWellFormed(xs: seq<Message>, ys: seq<Message>)
    requires SameShape(xs, ys) && WellFormed(xs)
    ensures WellFormed(ys)
  {
    ShapeKeepsFollows(xs, ys, multiset{});
    assert forall i :: 0 <= i < |xs| ==> xs[i] in xs && CallsOf(xs[i]) == CallsOf(ys[i]);
  }

  function Opened(m: Message, open: multiset<string>): multiset<string> {
    if m.role.Tool? then open - multiset{m.resultFor} else multiset(CallsOf(m))
  }

  /** A transcript may be cut before any message that is not a result. */
  lemma {:induction false} CutFollows(ms: seq<Message>, open: multiset<string>, k: nat)
    requires Follows(ms, open) && k <= |ms| && (k < |ms| ==> !ms[k].role.Tool?)
    ensures Follows(ms[..k], open) && Paired(ms[k..])
  {
    if k == 0 {
      assert ms[..k] == [] && ms[k..] == ms;
    } else {
      CutFollows(ms[1..], Opened(ms[0], open), k - 1);
      assert ms[1..][..k - 1] == ms[..k][1..] && ms[1..][k - 1..] == ms[k..];
    }
  }

  lemma {:induction false} JoinFollows(xs: seq<Message>, ys: seq<Message>, open: multiset<string>)
    requires Follows(xs, open) && Paired(ys)
    ensures Follows(xs + ys, open)
  {
    if xs == [] {
      assert xs + ys == ys;
    } else {
      JoinFollows(xs[1..], ys, Opened(xs[0], open));
      assert (xs + ys)[1..] == xs[1..] + ys;
    }
  }

  lemma SingleIds(m: Message)
    ensures forall c :: c in CallIds([m]) <==> c in CallsOf(m) && c != ""
    ensures forall c :: c in ResultIds([m]) <==> m.role.Tool? && c == m.resultFor && c != ""
  {
    assert m in [m];
  }

  /** In a paired transcript the called and the answered ids are the same. */
  lemma {:induction false} FollowsIds(ms: seq<Message>, open: multiset<string>)
    requires Follows(ms, open)
    ensures forall c :: c in ResultIds(ms) <==> c in CallIds(ms) || (c in open && c != "")
  {
    if ms != [] {
      var m := ms[0];
      FollowsIds(ms[1..], Opened(m, open));
      IdsAppend([m], ms[1..]);
      SingleIds(m);
      assert ms == [m] + ms[1..];
      assert forall c :: c in multiset(CallsOf(m)) <==> c in CallsOf(m);
    }
  }

  lemma ToolRunHasNoCalls(ms: seq<Message>)
    requires forall m :: m in ms ==> m.role.Tool?
    ensures CallIds(ms) == {}
  {
  }

  /** A stretch of a paired transcript between two messages that are not results. */
  lemma PairedStretch(ms: seq<Message>, i: nat, j: nat)
    requires Paired(ms) && i <= j <= |ms|
    requires (i < |ms| ==> !ms[i].role.Tool?) && (j < |ms| ==> !ms[j].role.Tool?)
    ensures Paired(ms[i..j]) && CallIds(ms[i..j]) == ResultIds(ms[i..j])
  {
    CutFollows(ms, multiset{}, j);
    CutFollows(ms[..j], multiset{}, i);
    assert ms[..j][i..] == ms[i..j];
    FollowsIds(ms[i..j], multiset{});
  }

  /** Calls in disjoint parts of a transcript are disjoint. */
  lemma DisjointCalls(ms: seq<Message>, i: nat, j: nat, k: nat, l: nat)
    requires DistinctCalls(ms) && i <= j <= k <= l <= |ms|
    ensures CallIds(ms[i..j]) * CallIds(ms[k..l]) == {}
  {
    forall c | c in CallIds(ms[i..j]) ensures c !in CallIds(ms[k..l]) {
      var x :| i <= x < j && c in CallsOf(ms[x]);
      assert forall y :: k <= y < l ==> c !in CallsOf(ms[y]);
    }
  }

  /** In a well-formed transcript no result has an empty id. */
  lemma {:induction false} NoEmptyResults(ms: seq<Message>, open: multiset<string>)
    requires Follows(ms, open) && "" !in open
    requires forall m :: m in ms ==> "" !in CallsOf(m)
    ensures forall m :: m in ms && m.role.Tool? ==> m.resultFor != ""
  {
    if ms != [] {
      assert ms[0] in ms;
      NoEmptyResults(ms[1..], Opened(ms[0], open));
    }
  }

  lemma ShapeKeepsIds(xs: seq<Message>, ys: seq<Message>)
    requires SameShape(xs, ys)
    ensures CallIds(xs) == CallIds(ys) && ResultIds(xs) == ResultIds(ys)
  {
    forall i | 0 <= i < |xs|
      ensures xs[i] in xs && ys[i] in ys && CallsOf(xs[i]) == CallsOf(ys[i])
    {
    }
  }

  // ---- A call and its results --------------------------------------------------------------------

  function Answers(calls: seq<string>): (r: seq<Message>)
    ensures |r| == |calls|
  {
    seq(|calls|, i requires 0 <= i < |calls| => Message(Tool, Absent, [], calls[i]))
  }

  function CallBlock(calls: seq<string>): seq<Message> {
    [Message(Assistant, Absent, calls, "")] + Answers(calls)
  }

  lemma {:induction false} AnswersFollow(calls: seq<string>)
    ensures Follows(Answers(calls), multiset(calls))
  {
    if calls != [] {
      AnswersFollow(calls[1..]);
      assert Answers(calls)[1..] == Answers(calls[1..]);
      assert calls == [calls[0]] + calls[1..];
      assert multiset(calls) - multiset{calls[0]} == multiset(calls[1..]);
    }
  }

  /** A message with distinct calls and their results behind it. */
  lemma BlockIsWellFormed(calls: seq<string>)
    requires NoRepeats(calls) && "" !in calls
    ensures WellFormed(CallBlock(calls))
  {
    AnswersFollow(calls);
    assert CallBlock(calls)[1..] == Answers(calls);
  }
}
