/** The cheap pass before compression: `_prune_tool_results` in cos_lib/context_compressor.py.
    The content hash is an arbitrary function. */
module ToolPruning {
  import opened Common
  import opened Transcript

  const DUPLICATE_TEXT := "[Duplicate tool output \U{2014} see more recent call]"

  /** Longer than any Python string can be. */
  const TEXT_LIMIT := 0x8000_0000_0000_0000

  type Hash = string -> string

  /** A tool result long enough to be compared by hash. */
  predicate Hashed(m: Message) {
    m.role.Tool? && m.content.Text? && |m.content.text| >= 200
  }

  predicate HashSeen(ms: seq<Message>, from: nat, h: string, hash: Hash) {
    exists j | from <= j < |ms| :: Hashed(ms[j]) && hash(ms[j].content.text) == h
  }

  /** A newer tool result has the same hash. */
  predicate IsDuplicate(ms: seq<Message>, i: nat, hash: Hash)
    requires i < |ms|
  {
    Hashed(ms[i]) && HashSeen(ms, i + 1, hash(ms[i].content.text), hash)
  }

  /** A tool result long enough to be summarised away, and not already marked as pruned. */
  predicate Bulky(m: Message) {
    && m.role.Tool? && m.content.Text? && |m.content.text| > 200
    && !("[Duplicate" <= m.content.text) && !("[Old tool" <= m.content.text)
  }

  /** Python's `{n:,}`. */
  function Commas(n: nat): string {
    if n < 1000 then Decimal(n)
    else Commas(n / 1000) + "," + [Digit(n / 100 % 10), Digit(n / 10 % 10), Digit(n % 10)]
  }

  function PruneLine(m: Message): string
    requires m.content.Text?
  {
    "[tool:" + m.resultFor + "] output pruned (" + Commas(|m.content.text|) + " chars)"
  }

  function DedupedAt(ms: seq<Message>, i: nat, hash: Hash): Message
    requires i < |ms|
  {
    if IsDuplicate(ms, i, hash) then ms[i].(content := Text(DUPLICATE_TEXT)) else ms[i]
  }

  function Deduped(ms: seq<Message>, hash: Hash): (r: seq<Message>)
    ensures |r| == |ms|
  {
    seq(|ms|, i requires 0 <= i < |ms| => DedupedAt(ms, i, hash))
  }

  function CondensedAt(m: Message): Message {
    if Bulky(m) then m.(content := Text(PruneLine(m))) else m
  }

  function Condensed(ms: seq<Message>, boundary: nat): (r: seq<Message>)
    ensures |r| == |ms|
  {
    seq(|ms|, i requires 0 <= i < |ms| => if i < boundary then CondensedAt(ms[i]) else ms[i])
  }

  function Boundary(n: nat, tailCount: nat): (b: nat)
    ensures b <= n
  {
    Max(0, n - tailCount)
  }

  function Pruned(ms: seq<Message>, tailCount: nat, hash: Hash): (r: seq<Message>)
    ensures |r| == |ms|
  {
    Condensed(Deduped(ms, hash), Boundary(|ms|, tailCount))
  }

  function Duplicates(ms: seq<Message>, from: nat, hash: Hash): set<nat> {
    set i | from <= i < |ms| && IsDuplicate(ms, i, hash)
  }

  function BulkyBefore(ms: seq<Message>, boundary: nat): set<nat> {
    set i | 0 <= i < boundary && i < |ms| && Bulky(ms[i])
  }

  /** How many messages the pass rewrites. */
  function PruneCount(ms: seq<Message>, tailCount: nat, hash: Hash): nat {
    |Duplicates(ms, 0, hash)| + |BulkyBefore(Deduped(ms, hash), Boundary(|ms|, tailCount))|
  }

  method PruneToolResults(messages: seq<Message>, tailCount: nat, hash: Hash)
    returns (result: seq<Message>, pruned: nat)
    ensures result == Pruned(messages, tailCount, hash)
    ensures pruned == PruneCount(messages, tailCount, hash)
  {
    var duplicates, condensed;
    result, duplicates := Deduplicate(messages, hash);
    result, condensed := Condense(result, Boundary(|result|, tailCount));
    pruned := duplicates + condensed;
  }

  /** The forward loop over the messages before the protected tail. */
  method Condense(messages: seq<Message>, boundary: nat) returns (result: seq<Message>, pruned: nat)
    requires boundary <= |messages|
    ensures result == Condensed(messages, boundary)
    ensures pruned == |BulkyBefore(messages, boundary)|
  {
    result, pruned := messages, 0;
    for i := 0 to boundary
      invariant |result| == |messages|
      invariant forall k :: 0 <= k < |messages| ==>
                  result[k] == if k < i then CondensedAt(messages[k]) else messages[k]
      invariant pruned == |BulkyBefore(messages, i)|
    {
      var msg := result[i];
      CountBulky(messages, i);
      if Bulky(msg) {
        result := result[i := msg.(content := Text(PruneLine(msg)))];
        pruned := pruned + 1;
      }
    }
  }

  /** The backward loop: the newest copy of each long output is kept. */
  method Deduplicate(messages: seq<Message>, hash: Hash) returns (result: seq<Message>, pruned: nat)
    ensures result == Deduped(messages, hash)
    ensures pruned == |Duplicates(messages, 0, hash)|
  {
    result, pruned := messages, 0;
    var seen: map<string, nat> := map[];
    for i := |messages| downto 0
      invariant |result| == |messages|
      invariant forall k :: 0 <= k < |messages| ==>
                  result[k] == if k < i then messages[k] else DedupedAt(messages, k, hash)
      invariant pruned == |Duplicates(messages, i, hash)|
      invariant forall h :: h in seen <==> HashSeen(messages, i, h, hash)
    {
      var msg := result[i];
      CountDuplicate(messages, i, hash);
      SeenOneMore(messages, i, hash);
      if Hashed(msg) {
        var h := hash(msg.content.text);
        if h in seen {
          result := result[i := msg.(content := Text(DUPLICATE_TEXT))];
          pruned := pruned + 1;
        } else {
          seen := seen[h := i];
        }
      }
    }
  }

  lemma SeenOneMore(ms: seq<Message>, i: nat, hash: Hash)
    requires i < |ms|
    ensures forall h :: HashSeen(ms, i, h, hash) <==>
              HashSeen(ms, i + 1, h, hash) || (Hashed(ms[i]) && hash(ms[i].content.text) == h)
  {
  }

  lemma CountDuplicate(ms: seq<Message>, i: nat, hash: Hash)
    requires i < |ms|
    ensures |Duplicates(ms, i, hash)| == |Duplicates(ms, i + 1, hash)| + if IsDuplicate(ms, i, hash) then 1 else 0
  {
    assert Duplicates(ms, i, hash)
        == Duplicates(ms, i + 1, hash) + if IsDuplicate(ms, i, hash) then {i} else {};
  }

  lemma CountBulky(ms: seq<Message>, i: nat)
    requires i < |ms|
    ensures |BulkyBefore(ms, i + 1)| == |BulkyBefore(ms, i)| + if Bulky(ms[i]) then 1 else 0
  {
    BulkyStep(ms, i);
    assert i !in BulkyBefore(ms, i);
  }

  lemma BulkyStep(ms: seq<Message>, i: nat)
    requires i < |ms|
    ensures BulkyBefore(ms, i + 1) == BulkyBefore(ms, i) + if Bulky(ms[i]) then {i} else {}
  {
    forall k: nat ensures k in BulkyBefore(ms, i + 1) <==> k in BulkyBefore(ms, i) || (k == i && Bulky(ms[i])) {
    }
  }

  // ---- Properties -------------------------------------------------------------------------------

  /** Every line the pass writes is short enough not to be touched again. */
  ghost predicate ShortLines(ms: seq<Message>) {
    forall m :: m in ms && Bulky(m) ==> |PruneLine(m)| < 200
  }

  /** A tool result of at least 200 characters with the hash of a later such result. */
  ghost predicate Superseded(ms: seq<Message>, hash: Hash, i: nat)
    requires i < |ms|
  {
    && ms[i].role.Tool? && ms[i].content.Text? && |ms[i].content.text| >= 200
    && exists j :: i < j < |ms| && ms[j].role.Tool? && ms[j].content.Text? && |ms[j].content.text| >= 200
                   && hash(ms[j].content.text) == hash(ms[i].content.text)
  }

  /** A tool result of more than 200 characters before the last `tailCount` messages, unless it is
      superseded or already a placeholder. */
  ghost predicate Outdated(ms: seq<Message>, tailCount: nat, hash: Hash, i: nat)
    requires i < |ms|
  {
    && i < |ms| - tailCount && ms[i].role.Tool? && ms[i].content.Text? && !Superseded(ms, hash, i)
    && |ms[i].content.text| > 200
    && !("[Duplicate" <= ms[i].content.text) && !("[Old tool" <= ms[i].content.text)
  }

  /** What becomes of every message. */
  lemma PruningExactly(ms: seq<Message>, tailCount: nat, hash: Hash, i: nat)
    requires i < |ms|
    ensures Pruned(ms, tailCount, hash)[i] ==
            if Superseded(ms, hash, i) then
              ms[i].(content := Text("[Duplicate tool output \U{2014} see more recent call]"))
            else if Outdated(ms, tailCount, hash, i) then
              ms[i].(content := Text("[tool:" + ms[i].resultFor + "] output pruned ("
                                     + Commas(|ms[i].content.text|) + " chars)"))
            else ms[i]
  {
    SupersededExactly(ms, hash, i);
    assert Superseded(ms, hash, i) ==> "[Duplicate" <= DUPLICATE_TEXT;
  }

  lemma SupersededExactly(ms: seq<Message>, hash: Hash, i: nat)
    requires i < |ms|
    ensures IsDuplicate(ms, i, hash) <==> Superseded(ms, hash, i)
  {
  }

  /** The count is that of the messages replaced. */
  lemma PruneCountExactly(ms: seq<Message>, tailCount: nat, hash: Hash)
    ensures PruneCount(ms, tailCount, hash)
         == |set i: nat | i < |ms| && (Superseded(ms, hash, i) || Outdated(ms, tailCount, hash, i))|
  {
    var duplicates, bulky := Duplicates(ms, 0, hash), BulkyBefore(Deduped(ms, hash), Boundary(|ms|, tailCount));
    var replaced := set i: nat | i < |ms| && (Superseded(ms, hash, i) || Outdated(ms, tailCount, hash, i));
    forall i: nat ensures i in replaced <==> i in duplicates || i in bulky
      ensures !(i in duplicates && i in bulky)
    {
      if i < |ms| {
        SupersededExactly(ms, hash, i);
        DedupedIsBulky(ms, hash, i);
      }
    }
    assert replaced == duplicates + bulky && duplicates !! bulky;
  }

  lemma DedupedIsBulky(ms: seq<Message>, hash: Hash, i: nat)
    requires i < |ms|
    ensures Bulky(Deduped(ms, hash)[i]) <==> Bulky(ms[i]) && !IsDuplicate(ms, i, hash)
  {
    assert "[Duplicate" <= DUPLICATE_TEXT;
  }

  /** Only the contents of long tool results change, and only duplicates change in the kept tail. */
  lemma PruningKeepsStructure(ms: seq<Message>, tailCount: nat, hash: Hash)
    ensures SameShape(ms, Pruned(ms, tailCount, hash))
    ensures forall i :: 0 <= i < |ms| && !Hashed(ms[i]) ==> Pruned(ms, tailCount, hash)[i] == ms[i]
    ensures forall i :: Boundary(|ms|, tailCount) <= i < |ms| && !IsDuplicate(ms, i, hash)
              ==> Pruned(ms, tailCount, hash)[i] == ms[i]
  {
  }

  /** Deduplication keeps exactly one copy per hash, and it is the newest. */
  lemma {:induction false} DedupKeepsNewest(ms: seq<Message>, hash: Hash, i: nat)
    returns (j: nat)
    requires i < |ms| && Hashed(ms[i])
    ensures i <= j < |ms| && Deduped(ms, hash)[j] == ms[j] && Hashed(ms[j])
    ensures hash(ms[j].content.text) == hash(ms[i].content.text)
    ensures forall k :: 0 <= k < |ms| && k != j && Hashed(Deduped(ms, hash)[k])
              ==> hash(Deduped(ms, hash)[k].content.text) != hash(ms[j].content.text)
    decreases |ms| - i
  {
    if IsDuplicate(ms, i, hash) {
      var later :| i + 1 <= later < |ms| && Hashed(ms[later])
                && hash(ms[later].content.text) == hash(ms[i].content.text);
      j := DedupKeepsNewest(ms, hash, later);
    } else {
      j := i;
    }
  }

  /** Nothing is left to prune. */
  ghost predicate NothingToPrune(ms: seq<Message>, tailCount: nat, hash: Hash) {
    forall i :: 0 <= i < |ms| ==> !IsDuplicate(ms, i, hash) && !(i < Boundary(|ms|, tailCount) && Bulky(ms[i]))
  }

  /** The line written for `m` is the text it replaces. */
  predicate IsOwnLine(m: Message) {
    m.content.Text? && PruneLine(m) == m.content.text
  }

  /** The pass counts nothing exactly when no long output is repeated and none before the tail is
      bulky, and it leaves the transcript alone if besides that there are only bulky outputs which
      are their own line. */
  lemma PruningIsIdleExactly(ms: seq<Message>, tailCount: nat, hash: Hash)
    ensures PruneCount(ms, tailCount, hash) == 0 <==> NothingToPrune(ms, tailCount, hash)
    ensures Pruned(ms, tailCount, hash) == ms <==>
            forall i :: 0 <= i < |ms| ==>
              !IsDuplicate(ms, i, hash) && (i < Boundary(|ms|, tailCount) && Bulky(ms[i]) ==> IsOwnLine(ms[i]))
  {
    CountIsZeroExactly(ms, tailCount, hash);
    forall i | 0 <= i < |ms|
      ensures Pruned(ms, tailCount, hash)[i] == ms[i] <==>
              !IsDuplicate(ms, i, hash) && (i < Boundary(|ms|, tailCount) && Bulky(ms[i]) ==> IsOwnLine(ms[i]))
    {
      KeptExactly(ms, tailCount, hash, i);
    }
  }

  lemma KeptExactly(ms: seq<Message>, tailCount: nat, hash: Hash, i: nat)
    requires i < |ms|
    ensures Pruned(ms, tailCount, hash)[i] == ms[i] <==>
            !IsDuplicate(ms, i, hash) && (i < Boundary(|ms|, tailCount) && Bulky(ms[i]) ==> IsOwnLine(ms[i]))
  {
    if IsDuplicate(ms, i, hash) {
      assert |Pruned(ms, tailCount, hash)[i].content.text| < 200;
    }
  }

  lemma CountIsZeroExactly(ms: seq<Message>, tailCount: nat, hash: Hash)
    ensures PruneCount(ms, tailCount, hash) == 0 <==> NothingToPrune(ms, tailCount, hash)
  {
    var deduped, boundary := Deduped(ms, hash), Boundary(|ms|, tailCount);
    if forall i :: 0 <= i < |ms| ==> !IsDuplicate(ms, i, hash) {
      assert deduped == ms;
      assert Duplicates(ms, 0, hash) == {};
      if !NothingToPrune(ms, tailCount, hash) {
        var i :| 0 <= i < boundary && Bulky(ms[i]);
        assert i in BulkyBefore(ms, boundary);
      }
    } else {
      var i :| 0 <= i < |ms| && IsDuplicate(ms, i, hash);
      assert i in Duplicates(ms, 0, hash);
    }
  }

  /** The pass replaces this output by its line. */
  ghost predicate Written(ms: seq<Message>, tailCount: nat, hash: Hash, i: nat) {
    i < Boundary(|ms|, tailCount) && Bulky(ms[i]) && !IsDuplicate(ms, i, hash)
  }

  /** A line long enough to be hashed, whose hash another output of the pruned transcript has. */
  ghost predicate LineClashes(ms: seq<Message>, tailCount: nat, hash: Hash, i: nat) {
    && Written(ms, tailCount, hash, i) && |PruneLine(ms[i])| >= 200
    && var once := Pruned(ms, tailCount, hash);
       exists j :: 0 <= j < |ms| && j != i && Hashed(once[j]) && hash(once[j].content.text) == hash(PruneLine(ms[i]))
  }

  lemma OnceAt(ms: seq<Message>, tailCount: nat, hash: Hash, i: nat)
    requires i < |ms|
    ensures var m := Pruned(ms, tailCount, hash)[i];
            if Written(ms, tailCount, hash, i) then
              && m == ms[i].(content := Text(PruneLine(ms[i])))
              && (Bulky(m) <==> |PruneLine(ms[i])| > 200) && (Hashed(m) <==> |PruneLine(ms[i])| >= 200)
            else
              && (Hashed(m) ==> m == ms[i] && !IsDuplicate(ms, i, hash))
              && !(i < Boundary(|ms|, tailCount) && Bulky(m))
  {
    if Written(ms, tailCount, hash, i) {
      assert PruneLine(ms[i])[1] == 't';
    }
  }

  /** In the pruned transcript, a repeated output goes back to a line that clashes. */
  lemma ClashesExactly(ms: seq<Message>, tailCount: nat, hash: Hash)
    ensures var once := Pruned(ms, tailCount, hash);
            (forall i :: 0 <= i < |ms| ==> !IsDuplicate(once, i, hash)) <==>
            (forall i :: 0 <= i < |ms| ==> !LineClashes(ms, tailCount, hash, i))
  {
    var once := Pruned(ms, tailCount, hash);
    if i :| 0 <= i < |ms| && IsDuplicate(once, i, hash) {
      var j :| i + 1 <= j < |once| && Hashed(once[j]) && hash(once[j].content.text) == hash(once[i].content.text);
      RepetitionIsClash(ms, tailCount, hash, i, j);
    }
    if i :| 0 <= i < |ms| && LineClashes(ms, tailCount, hash, i) {
      var j :| 0 <= j < |ms| && j != i && Hashed(once[j]) && hash(once[j].content.text) == hash(PruneLine(ms[i]));
      OnceAt(ms, tailCount, hash, i);
      assert IsDuplicate(once, if i < j then i else j, hash);
    }
  }

  lemma RepetitionIsClash(ms: seq<Message>, tailCount: nat, hash: Hash, i: nat, j: nat)
    requires i < j < |ms|
    requires var once := Pruned(ms, tailCount, hash);
             && Hashed(once[i]) && Hashed(once[j]) && hash(once[j].content.text) == hash(once[i].content.text)
    ensures LineClashes(ms, tailCount, hash, i) || LineClashes(ms, tailCount, hash, j)
  {
    OnceAt(ms, tailCount, hash, i);
    OnceAt(ms, tailCount, hash, j);
  }

  /** A second pass with the same tail counts nothing exactly when no line has more than 200
      characters and none clashes, and it changes nothing exactly when none clashes and each line of
      more than 200 characters is its own line. */
  lemma PruningIsIdempotentExactly(ms: seq<Message>, tailCount: nat, hash: Hash)
    ensures var once := Pruned(ms, tailCount, hash);
            && (PruneCount(once, tailCount, hash) == 0 <==>
                  forall i :: 0 <= i < |ms| ==>
                    && !LineClashes(ms, tailCount, hash, i)
                    && (Written(ms, tailCount, hash, i) ==> |PruneLine(ms[i])| <= 200))
            && (Pruned(once, tailCount, hash) == once <==>
                  forall i :: 0 <= i < |ms| ==>
                    && !LineClashes(ms, tailCount, hash, i)
                    && (Written(ms, tailCount, hash, i) && |PruneLine(ms[i])| > 200 ==> IsOwnLine(once[i])))
  {
    var once := Pruned(ms, tailCount, hash);
    ClashesExactly(ms, tailCount, hash);
    PruningIsIdleExactly(once, tailCount, hash);
    forall i | 0 <= i < |ms|
      ensures i < Boundary(|ms|, tailCount) && Bulky(once[i]) <==>
              Written(ms, tailCount, hash, i) && |PruneLine(ms[i])| > 200
    {
      OnceAt(ms, tailCount, hash, i);
    }
  }

  /** With short lines a second pass always does nothing. */
  lemma PruningIsIdempotent(ms: seq<Message>, tailCount: nat, hash: Hash)
    requires ShortLines(ms)
    ensures var once := Pruned(ms, tailCount, hash);
            Pruned(once, tailCount, hash) == once && PruneCount(once, tailCount, hash) == 0
  {
    PruningIsIdempotentExactly(ms, tailCount, hash);
    assert forall i :: 0 <= i < |ms| ==> ms[i] in ms;
  }

  /** A call id of 200 characters makes a line that the second pass rewrites. */
  lemma LongIdIsPrunedTwice(hash: Hash)
    ensures var ms := [Message(Tool, Text(seq(201, _ => 'x')), [], seq(200, _ => 'i'))];
            var once := Pruned(ms, 0, hash);
            Pruned(once, 0, hash) != once && PruneCount(once, 0, hash) != 0
  {
    var m := Message(Tool, Text(seq(201, _ => 'x')), [], seq(200, _ => 'i'));
    assert m.content.text[0] == 'x' && "[Duplicate"[0] == '[' && "[Old tool"[0] == '[';
    LongLineIsRewritten(m, hash);
  }

  lemma LongLineIsRewritten(m: Message, hash: Hash)
    requires Bulky(m) && |m.content.text| == 201 && |m.resultFor| == 200
    ensures var once := Pruned([m], 0, hash);
            Pruned(once, 0, hash) != once && PruneCount(once, 0, hash) != 0
  {
    var once := Pruned([m], 0, hash);
    assert Written([m], 0, hash, 0);
    OnceAt([m], 0, hash, 0);
    LongLineIsNotItsOwn(m);
    PruningIsIdempotentExactly([m], 0, hash);
  }

  lemma LongLineIsNotItsOwn(m: Message)
    requires m.content.Text? && |m.content.text| == 201 && |m.resultFor| == 200
    ensures |PruneLine(m)| > 200 && !IsOwnLine(m.(content := Text(PruneLine(m))))
  {
    LongLine(m);
    LongLine(m.(content := Text(PruneLine(m))));
  }

  lemma LongLine(m: Message)
    requires m.content.Text? && 100 <= |m.content.text| < 1000 && |m.resultFor| == 200
    ensures |PruneLine(m)| == 233 && PruneLine(m)[224] == Digit(|m.content.text| / 10 % 10)
  {
    HundredsRead(|m.content.text|);
  }

  lemma HundredsRead(n: nat)
    requires 100 <= n < 1000
    ensures Commas(n) == [Digit(n / 100), Digit(n / 10 % 10), Digit(n % 10)]
  {
    assert Decimal(n / 10) == Decimal(n / 10 / 10) + [Digit(n / 10 % 10)];
  }

  lemma ThreeDigits(n: nat)
    requires n < 1000
    ensures |Decimal(n)| <= 3
  {
    if n >= 10 {
      assert |Decimal(n)| == |Decimal(n / 10)| + 1;
      if n / 10 >= 10 {
        assert |Decimal(n / 10)| == |Decimal(n / 10 / 10)| + 1;
        assert n / 10 / 10 < 10;
      }
    }
  }

  lemma {:induction false} CommasLength(n: nat, groups: nat)
    requires n < Power1000(groups) && groups > 0
    ensures |Commas(n)| <= 4 * groups - 1
  {
    if n < 1000 {
      ThreeDigits(n);
    } else {
      CommasLength(n / 1000, groups - 1);
    }
  }

  function Power1000(k: nat): nat {
    if k == 0 then 1 else 1000 * Power1000(k - 1)
  }

  lemma SevenGroups()
    ensures Power1000(7) == 1_000_000_000_000_000_000_000
  {
    calc {
      Power1000(7);
      1_000 * Power1000(6);
      1_000_000 * Power1000(5);
      1_000_000_000 * Power1000(4);
      1_000_000_000_000 * Power1000(3);
      1_000_000_000_000_000 * Power1000(2);
      1_000_000_000_000_000_000 * Power1000(1);
      1_000_000_000_000_000_000_000 * Power1000(0);
    }
  }

  /** Call ids of at most 100 characters make every written line short. */
  lemma ShortIdsMakeShortLines(ms: seq<Message>)
    requires forall m :: m in ms && Bulky(m) ==> |m.resultFor| <= 100 && |m.content.text| < TEXT_LIMIT
    ensures ShortLines(ms)
  {
    SevenGroups();
    forall m | m in ms && Bulky(m) ensures |PruneLine(m)| < 200 {
      CommasLength(|m.content.text|, 7);
    }
  }

  // ---- The number in the line ----------------------------------------------------------------------

  function WithoutCommas(s: string): string {
    if s == "" then ""
    else WithoutCommas(s[..|s| - 1]) + if s[|s| - 1] == ',' then "" else [s[|s| - 1]]
  }

  lemma {:induction false} WithoutCommasAppend(s: string, t: string)
    ensures WithoutCommas(s + t) == WithoutCommas(s) + WithoutCommas(t)
  {
    if t == "" {
      assert s + t == s;
    } else {
      assert (s + t)[..|s + t| - 1] == s + t[..|t| - 1];
      WithoutCommasAppend(s, t[..|t| - 1]);
    }
  }

  lemma {:induction false} DigitsHaveNoCommas(s: string)
    requires forall c <- s :: IsDigit(c)
    ensures WithoutCommas(s) == s
  {
    if s != "" {
      var front := s[..|s| - 1];
      assert s[|s| - 1] in s && forall c <- front :: c in s;
      DigitsHaveNoCommas(front);
      assert s == front + [s[|s| - 1]];
    }
  }

  function LastThree(n: nat): string {
    [Digit(n / 100 % 10), Digit(n / 10 % 10), Digit(n % 10)]
  }

  lemma DecimalInThousands(n: nat)
    requires n >= 1000
    ensures Decimal(n) == Decimal(n / 1000) + LastThree(n)
  {
    assert n / 10 / 10 == n / 100 && n / 100 / 10 == n / 1000;
    assert Decimal(n) == Decimal(n / 10) + [Digit(n % 10)];
    assert Decimal(n / 10) == Decimal(n / 100) + [Digit(n / 10 % 10)];
    assert Decimal(n / 100) == Decimal(n / 1000) + [Digit(n / 100 % 10)];
  }

  /** The number is written in decimal, */
  lemma {:induction false} CommasReadBack(n: nat)
    ensures WithoutCommas(Commas(n)) == Decimal(n)
  {
    if n < 1000 {
      DigitsHaveNoCommas(Decimal(n));
    } else {
      CommasReadBack(n / 1000);
      DecimalInThousands(n);
      GroupReadsBack(Commas(n / 1000), n);
    }
  }

  lemma GroupReadsBack(front: string, n: nat)
    ensures WithoutCommas(front + "," + LastThree(n)) == WithoutCommas(front) + LastThree(n)
  {
    WithoutCommasAppend(front + ",", LastThree(n));
    WithoutCommasAppend(front, ",");
    assert WithoutCommas(",") == "" by { assert ","[..0] == ""; }
    DigitsHaveNoCommas(LastThree(n));
  }

  /** Counted from the right, every fourth place holds a comma. */
  ghost predicate CommaEveryFourth(s: string) {
    forall k :: 0 <= k < |s| ==> (s[|s| - 1 - k] == ',' <==> k % 4 == 3)
  }

  /** with a comma before every third digit from the right. */
  lemma {:induction false} CommasAreSpaced(n: nat)
    ensures CommaEveryFourth(Commas(n)) && Commas(n) != "" && Commas(n)[0] != ','
  {
    if n < 1000 {
      ThreeDigits(n);
      DigitsAreSpaced(Decimal(n));
    } else {
      CommasAreSpaced(n / 1000);
      CommaPlaces(Commas(n / 1000), LastThree(n));
    }
  }

  lemma DigitsAreSpaced(s: string)
    requires s != "" && |s| <= 3 && forall c <- s :: IsDigit(c)
    ensures CommaEveryFourth(s) && s[0] != ','
  {
    assert forall k :: 0 <= k < |s| ==> s[k] in s;
  }

  lemma CommaPlaces(front: string, digits: string)
    requires |digits| == 3 && forall c <- digits :: IsDigit(c)
    requires CommaEveryFourth(front)
    ensures CommaEveryFourth(front + "," + digits)
  {
    var s := front + "," + digits;
    forall k | 0 <= k < |s| ensures s[|s| - 1 - k] == ',' <==> k % 4 == 3 {
      if k < 3 {
        assert s[|s| - 1 - k] == digits[2 - k] && digits[2 - k] in digits;
      } else if k == 3 {
        assert s[|front|] == ',' && |s| - 1 - k == |front|;
      } else {
        var j := k - 4;
        assert s[|s| - 1 - k] == front[|front| - 1 - j];
        assert front[|front| - 1 - j] == ',' <==> j % 4 == 3;
        assert j % 4 == k % 4;
      }
    }
  }
}
