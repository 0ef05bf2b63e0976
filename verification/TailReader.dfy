/** Agent output files read from the end (cos_lib/agent_output_monitor.py). A file is its bytes;
    decoding and JSON parsing of one line, and the search for a progress marker in a text, are
    arbitrary functions. */
module TailReader {
  import opened Common

  const TAIL_BYTES := 16 * 1024

  /** A text block holds a string, or `BadText`: some other value that counts as true. */
  datatype Block = NotADict | ToolUse | Text(text: string) | BadText | OtherBlock

  /** What one line holds: no JSON, JSON that is no object, an object of another type, an assistant
      object whose message is no object or holds no list of blocks, or the blocks. `BadMessage` is
      also a line on which the JSON parser itself fails other than by a `ValueError`. */
  datatype Line = NotJson | NotAnObject | OtherObject | BadMessage | NoBlocks | Blocks(blocks: seq<Block>)

  /** A blank line holds no JSON. */
  type LineParser = string -> Line

  type MarkerSearch = string -> Option<string>

  // ---- Reading the tail ------------------------------------------------------------------------

  predicate IsBlank(s: string) {
    forall c | c in s :: IsSpace(c)
  }

  function NonBlank(lines: seq<string>): seq<string> {
    if lines == [] then []
    else (if IsBlank(lines[0]) then [] else [lines[0]]) + NonBlank(lines[1..])
  }

  function ReadOffset(file: string, tailBytes: nat): nat {
    Max(0, |file| - tailBytes)
  }

  function ReadTail(file: string, tailBytes: nat): seq<string> {
    if file == "" then []
    else
      var offset := ReadOffset(file, tailBytes);
      var lines := Split(file[offset..], '\n');
      NonBlank(if offset > 0 then lines[1..] else lines)
  }

  /** Universal newlines, as Python's text mode translates them. */
  function Translated(s: string): string {
    if s == "" then ""
    else if s[0] == '\r' then "\n" + Translated(if |s| > 1 && s[1] == '\n' then s[2..] else s[1..])
    else [s[0]] + Translated(s[1..])
  }

  /** The non-blank lines that a scan of the whole file in text mode sees. */
  function AllLines(file: string): seq<string> {
    NonBlank(Split(Translated(file), '\n'))
  }

  // ---- What the lines say --------------------------------------------------------------------------

  function UsesIn(blocks: seq<Block>): nat {
    if blocks == [] then 0
    else UsesIn(blocks[..|blocks| - 1]) + if blocks[|blocks| - 1].ToolUse? then 1 else 0
  }

  function MarkersIn(blocks: seq<Block>, search: MarkerSearch): seq<string> {
    if blocks == [] then []
    else
      var b := blocks[|blocks| - 1];
      MarkersIn(blocks[..|blocks| - 1], search)
      + if b.Text? && b.text != "" && search(b.text).Some? then [search(b.text).value] else []
  }

  /** The non-empty texts, joined by spaces; `None` when there is none. */
  function JoinedTexts(blocks: seq<Block>): Option<string> {
    if blocks == [] then None
    else
      var b, before := blocks[|blocks| - 1], JoinedTexts(blocks[..|blocks| - 1]);
      if b.Text? && b.text != "" then Some(if before.Some? then before.value + " " + b.text else b.text)
      else before
  }

  function Snippet(s: string): (r: string)
    ensures |r| == Min(100, |s|) && r == s[|s| - |r|..]
  {
    if |s| > 100 then s[|s| - 100..] else s
  }

  function BlocksOf(line: Line): seq<Block> {
    if line.Blocks? then line.blocks else []
  }

  function ToolUses(lines: seq<string>, parse: LineParser): nat {
    if lines == [] then 0
    else ToolUses(lines[..|lines| - 1], parse) + UsesIn(BlocksOf(parse(lines[|lines| - 1])))
  }

  function Markers(lines: seq<string>, parse: LineParser, search: MarkerSearch): seq<string> {
    if lines == [] then []
    else Markers(lines[..|lines| - 1], parse, search) + MarkersIn(BlocksOf(parse(lines[|lines| - 1])), search)
  }

  function Snippets(lines: seq<string>, parse: LineParser): seq<string> {
    if lines == [] then []
    else
      var text := JoinedTexts(BlocksOf(parse(lines[|lines| - 1])));
      Snippets(lines[..|lines| - 1], parse) + if text.Some? then [Snippet(text.value)] else []
  }

  function Last(s: seq<string>): Option<string> {
    if s == [] then None else Some(s[|s| - 1])
  }

  datatype Summary = Summary(toolCalls: nat, marker: Option<string>, text: Option<string>)

  function Newer(found: Option<string>, before: Option<string>): Option<string> {
    if found.Some? then found else before
  }

  function Summarised(lines: seq<string>, parse: LineParser, search: MarkerSearch): Summary {
    Summary(ToolUses(lines, parse), Last(Markers(lines, parse, search)), Last(Snippets(lines, parse)))
  }

  /** The summary after one more line with these blocks. */
  function Bumped(s: Summary, blocks: seq<Block>, search: MarkerSearch): Summary {
    var text := JoinedTexts(blocks);
    Summary(s.toolCalls + UsesIn(blocks), Newer(Last(MarkersIn(blocks, search)), s.marker),
            if text.Some? then Some(Snippet(text.value)) else s.text)
  }

  lemma OneMoreLine(lines: seq<string>, i: nat, parse: LineParser, search: MarkerSearch)
    requires i < |lines|
    ensures Summarised(lines[..i + 1], parse, search)
         == Bumped(Summarised(lines[..i], parse, search), BlocksOf(parse(lines[i])), search)
  {
    assert lines[..i + 1][..i] == lines[..i];
    LastAppend(Markers(lines[..i], parse, search), MarkersIn(BlocksOf(parse(lines[i])), search));
  }

  lemma LastAppend(xs: seq<string>, ys: seq<string>)
    ensures Last(xs + ys) == Newer(Last(ys), Last(xs))
  {
    assert ys == [] ==> xs + ys == xs;
  }

  predicate HasBadText(blocks: seq<Block>) {
    exists b <- blocks :: b.BadText?
  }

  /** Whether `_parse_lines` lets an exception escape on the line: on JSON that is no object, whose
      message is no object, or that holds a text which is no string. */
  predicate Rejected(line: Line) {
    line.NotAnObject? || line.BadMessage? || (line.Blocks? && HasBadText(line.blocks))
  }

  method ParseLines(lines: seq<string>, parse: LineParser, search: MarkerSearch) returns (r: Option<Summary>)
    ensures r.None? <==> exists i :: 0 <= i < |lines| && Rejected(parse(lines[i]))
    ensures r.Some? ==> r.value == Summarised(lines, parse, search)
  {
    var sum := Summary(0, None, None);
    for i := 0 to |lines|
      invariant forall k :: 0 <= k < i ==> !Rejected(parse(lines[k]))
      invariant sum == Summarised(lines[..i], parse, search)
    {
      var line := parse(lines[i]);
      if line.NotAnObject? || line.BadMessage? {
        return None;
      }
      OneMoreLine(lines, i, parse, search);
      if !line.Blocks? {
        continue;
      }
      var raised, uses, found, combined := ScanBlocks(line.blocks, search);
      if raised {
        return None;
      }
      sum := Summary(sum.toolCalls + uses, Newer(found, sum.marker),
                     if combined.Some? then Some(Snippet(combined.value)) else sum.text);
    }
    assert lines[..|lines|] == lines;
    return Some(sum);
  }

  method ScanBlocks(blocks: seq<Block>, search: MarkerSearch)
    returns (raised: bool, uses: nat, marker: Option<string>, combined: Option<string>)
    ensures raised <==> HasBadText(blocks)
    ensures !raised ==> uses == UsesIn(blocks)
    ensures !raised ==> marker == Last(MarkersIn(blocks, search))
    ensures !raised ==> combined == JoinedTexts(blocks)
  {
    raised, uses, marker, combined := false, 0, None, None;
    for j := 0 to |blocks|
      invariant forall k :: 0 <= k < j ==> !blocks[k].BadText?
      invariant uses == UsesIn(blocks[..j])
      invariant marker == Last(MarkersIn(blocks[..j], search))
      invariant combined == JoinedTexts(blocks[..j])
    {
      assert blocks[..j + 1][..j] == blocks[..j];
      var b := blocks[j];
      if b.ToolUse? {
        uses := uses + 1;
      } else if b.BadText? {
        raised := true;
        return;
      } else if b.Text? && b.text != "" {
        combined := Some(if combined.Some? then combined.value + " " + b.text else b.text);
        if search(b.text).Some? {
          marker := search(b.text);
        }
      }
    }
    assert blocks[..|blocks|] == blocks;
  }

  /** `_count_tool_calls_full` over the lines of a file: JSON that is no object is skipped here. */
  method CountToolCalls(lines: seq<string>, parse: LineParser) returns (r: Option<nat>)
    ensures r.None? <==> exists i :: 0 <= i < |lines| && parse(lines[i]).BadMessage?
    ensures r.Some? ==> r.value == ToolUses(lines, parse)
  {
    var count := 0;
    for i := 0 to |lines|
      invariant forall k :: 0 <= k < i ==> !parse(lines[k]).BadMessage?
      invariant count == ToolUses(lines[..i], parse)
    {
      var line := parse(lines[i]);
      if line.BadMessage? {
        return None;
      }
      assert lines[..i + 1][..i] == lines[..i];
      if line.Blocks? {
        for j := 0 to |line.blocks|
          invariant count == ToolUses(lines[..i], parse) + UsesIn(line.blocks[..j])
        {
          assert line.blocks[..j + 1][..j] == line.blocks[..j];
          if line.blocks[j].ToolUse? {
            count := count + 1;
          }
        }
        assert line.blocks[..|line.blocks|] == line.blocks;
      }
    }
    assert lines[..|lines|] == lines;
    return Some(count);
  }

  // ---- The tail is a suffix of the whole -------------------------------------------------------

  /** The line that starts at position `p`. */
  function LineAt(file: string, p: nat): string
    requires p <= |file|
    decreases |file| - p
  {
    if p == |file| || file[p] == '\n' then "" else [file[p]] + LineAt(file, p + 1)
  }

  /** The lines of the file that start at position `p` or later. */
  function LinesFrom(file: string, p: nat): seq<string>
    decreases |file| + 1 - p
  {
    if p > |file| then []
    else if p == 0 || file[p - 1] == '\n' then [LineAt(file, p)] + LinesFrom(file, p + 1)
    else LinesFrom(file, p + 1)
  }

  lemma {:induction false} SplitIsLines(file: string, p: nat)
    requires p <= |file|
    ensures Split(file[p..], '\n') == [LineAt(file, p)] + LinesFrom(file, p + 1)
    decreases |file| - p
  {
    if p < |file| {
      assert file[p..][1..] == file[p + 1..];
      SplitIsLines(file, p + 1);
    }
  }

  /** `_read_tail` returns exactly the non-blank lines that start strictly after the read offset, and
      all non-blank lines if the file fits. */
  lemma ReadTailIsSuffix(file: string, tailBytes: nat)
    ensures |file| > tailBytes ==> ReadTail(file, tailBytes) == NonBlank(LinesFrom(file, |file| - tailBytes + 1))
    ensures |file| <= tailBytes ==> ReadTail(file, tailBytes) == NonBlank(LinesFrom(file, 0))
  {
    TailLines(file, tailBytes);
    assert ReadOffset(file, tailBytes) == if |file| > tailBytes then |file| - tailBytes else 0;
  }

  lemma TailLines(file: string, tailBytes: nat)
    ensures var offset := ReadOffset(file, tailBytes);
            ReadTail(file, tailBytes) == NonBlank(LinesFrom(file, if offset > 0 then offset + 1 else 0))
  {
    var offset := ReadOffset(file, tailBytes);
    SplitIsLines(file, offset);
    if file == "" {
      assert LinesFrom(file, 0) == [""];
    }
  }

  lemma {:induction false} NotTranslated(s: string)
    requires '\r' !in s
    ensures Translated(s) == s
  {
    if s != "" {
      assert s[0] in s;
      NotTranslated(s[1..]);
      assert s == [s[0]] + s[1..];
    }
  }

  lemma {:induction false} NonBlankAppend(xs: seq<string>, ys: seq<string>)
    ensures NonBlank(xs + ys) == NonBlank(xs) + NonBlank(ys)
  {
    if xs == [] {
      assert xs + ys == ys;
    } else {
      assert (xs + ys)[1..] == xs[1..] + ys;
      NonBlankAppend(xs[1..], ys);
    }
  }

  lemma {:induction false} LinesFromIsSuffix(file: string, p: nat, q: nat) returns (before: seq<string>)
    requires p <= q
    ensures LinesFrom(file, p) == before + LinesFrom(file, q)
    decreases q - p
  {
    before := [];
    if p < q && p <= |file| {
      before := LinesFromIsSuffix(file, p + 1, q);
      if p == 0 || file[p - 1] == '\n' {
        Regroup([LineAt(file, p)], before, LinesFrom(file, q));
        before := [LineAt(file, p)] + before;
      }
    }
  }

  /** Without carriage returns, what the tail holds is the end of what a full scan sees. */
  lemma TailEndsWhole(file: string, tailBytes: nat) returns (before: seq<string>)
    requires '\r' !in file
    ensures AllLines(file) == before + ReadTail(file, tailBytes)
    ensures |file| <= tailBytes ==> before == []
  {
    var offset := ReadOffset(file, tailBytes);
    NotTranslated(file);
    SplitIsLines(file, 0);
    assert file[0..] == file;
    TailLines(file, tailBytes);
    var early := LinesFromIsSuffix(file, 0, if offset > 0 then offset + 1 else 0);
    NonBlankAppend(early, LinesFrom(file, if offset > 0 then offset + 1 else 0));
    before := NonBlank(early);
    if offset == 0 {
      assert early == [] by {
        assert |LinesFrom(file, 0)| == |early| + |LinesFrom(file, 0)|;
      }
    }
  }

  lemma DropLastOfSum(xs: seq<string>, ys: seq<string>)
    requires ys != []
    ensures (xs + ys)[..|xs + ys| - 1] == xs + ys[..|ys| - 1]
  {
  }

  lemma {:induction false} UsesAppend(xs: seq<string>, ys: seq<string>, parse: LineParser)
    ensures ToolUses(xs + ys, parse) == ToolUses(xs, parse) + ToolUses(ys, parse)
  {
    if ys == [] {
      assert xs + ys == xs;
    } else {
      DropLastOfSum(xs, ys);
      UsesAppend(xs, ys[..|ys| - 1], parse);
    }
  }

  lemma Regroup(xs: seq<string>, ys: seq<string>, zs: seq<string>)
    ensures xs + (ys + zs) == xs + ys + zs
  {
  }

  lemma {:induction false} MarkersAppend(xs: seq<string>, ys: seq<string>, parse: LineParser, search: MarkerSearch)
    ensures Markers(xs + ys, parse, search) == Markers(xs, parse, search) + Markers(ys, parse, search)
  {
    if ys == [] {
      assert xs + ys == xs;
    } else {
      var front, last := ys[..|ys| - 1], ys[|ys| - 1];
      DropLastOfSum(xs, ys);
      MarkersAppend(xs, front, parse, search);
      Regroup(Markers(xs, parse, search), Markers(front, parse, search), MarkersIn(BlocksOf(parse(last)), search));
    }
  }

  lemma {:induction false} SnippetsAppend(xs: seq<string>, ys: seq<string>, parse: LineParser)
    ensures Snippets(xs + ys, parse) == Snippets(xs, parse) + Snippets(ys, parse)
  {
    if ys == [] {
      assert xs + ys == xs;
    } else {
      DropLastOfSum(xs, ys);
      SnippetsAppend(xs, ys[..|ys| - 1], parse);
    }
  }

  /** The tail agrees with a full scan: its tool count never exceeds the full one, and its last marker
      and last text are the full scan's whenever the window holds one. */
  lemma TailAgreesWithWhole(file: string, tailBytes: nat, parse: LineParser, search: MarkerSearch)
    requires '\r' !in file
    ensures var tail, whole := ReadTail(file, tailBytes), AllLines(file);
            && ToolUses(tail, parse) <= ToolUses(whole, parse)
            && (Markers(tail, parse, search) != [] ==>
                  Last(Markers(tail, parse, search)) == Last(Markers(whole, parse, search)))
            && (Snippets(tail, parse) != [] ==> Last(Snippets(tail, parse)) == Last(Snippets(whole, parse)))
            && (|file| <= tailBytes ==> tail == whole)
  {
    var before := TailEndsWhole(file, tailBytes);
    var tail := ReadTail(file, tailBytes);
    UsesAppend(before, tail, parse);
    MarkersAppend(before, tail, parse, search);
    SnippetsAppend(before, tail, parse);
  }

  // ---- What is remembered -----------------------------------------------------------------------

  /** A block whose text holds a marker. */
  predicate Hit(block: Block, search: MarkerSearch) {
    block.Text? && block.text != "" && search(block.text).Some?
  }

  lemma OneMoreHit(blocks: seq<Block>, search: MarkerSearch)
    requires blocks != []
    ensures var n := |blocks| - 1;
            Last(MarkersIn(blocks, search)) ==
              if Hit(blocks[n], search) then search(blocks[n].text) else Last(MarkersIn(blocks[..n], search))
  {
  }

  /** `found` is the marker of block `j`, the last with one, or there is none. */
  ghost predicate IsLastHit(blocks: seq<Block>, search: MarkerSearch, found: Option<string>, j: nat) {
    if found.None? then forall k :: 0 <= k < |blocks| ==> !Hit(blocks[k], search)
    else
      && j < |blocks| && Hit(blocks[j], search) && found == search(blocks[j].text)
      && forall k :: j < k < |blocks| ==> !Hit(blocks[k], search)
  }

  lemma {:induction false} LastHit(blocks: seq<Block>, search: MarkerSearch) returns (j: nat)
    ensures IsLastHit(blocks, search, Last(MarkersIn(blocks, search)), j)
  {
    j := 0;
    if blocks != [] {
      var n := |blocks| - 1;
      j := LastHit(blocks[..n], search);
      OneMoreHit(blocks, search);
      if Hit(blocks[n], search) {
        j := n;
      } else {
        assert forall k :: 0 <= k < n ==> blocks[..n][k] == blocks[k];
      }
    }
  }

  /** All blocks of all lines, in order. */
  function AllBlocks(lines: seq<string>, parse: LineParser): seq<Block> {
    if lines == [] then [] else AllBlocks(lines[..|lines| - 1], parse) + BlocksOf(parse(lines[|lines| - 1]))
  }

  lemma {:induction false} BlocksAppend(xs: seq<Block>, ys: seq<Block>, search: MarkerSearch)
    ensures MarkersIn(xs + ys, search) == MarkersIn(xs, search) + MarkersIn(ys, search)
    ensures UsesIn(xs + ys) == UsesIn(xs) + UsesIn(ys)
  {
    if ys == [] {
      assert xs + ys == xs;
    } else {
      assert (xs + ys)[..|xs + ys| - 1] == xs + ys[..|ys| - 1];
      BlocksAppend(xs, ys[..|ys| - 1], search);
    }
  }

  lemma {:induction false} LinesAreBlocks(lines: seq<string>, parse: LineParser, search: MarkerSearch)
    ensures Markers(lines, parse, search) == MarkersIn(AllBlocks(lines, parse), search)
    ensures ToolUses(lines, parse) == UsesIn(AllBlocks(lines, parse))
  {
    if lines != [] {
      LinesAreBlocks(lines[..|lines| - 1], parse, search);
      BlocksAppend(AllBlocks(lines[..|lines| - 1], parse), BlocksOf(parse(lines[|lines| - 1])), search);
    }
  }

  /** The marker remembered is that of the last of all blocks with one. */
  lemma LastMarkerExactly(lines: seq<string>, parse: LineParser, search: MarkerSearch) returns (j: nat)
    ensures var blocks, found := AllBlocks(lines, parse), Last(Markers(lines, parse, search));
            if found.None? then forall k :: 0 <= k < |blocks| ==> !Hit(blocks[k], search)
            else
              && j < |blocks| && Hit(blocks[j], search) && found == search(blocks[j].text)
              && forall k :: j < k < |blocks| ==> !Hit(blocks[k], search)
  {
    LinesAreBlocks(lines, parse, search);
    j := LastHit(AllBlocks(lines, parse), search);
  }

  /** The count is that of the blocks which are tool calls. */
  lemma ToolUsesExactly(lines: seq<string>, parse: LineParser)
    ensures var blocks := AllBlocks(lines, parse);
            ToolUses(lines, parse) == |set j: nat | j < |blocks| && blocks[j].ToolUse?|
  {
    LinesAreBlocks(lines, parse, text => None);
    UsesExactly(AllBlocks(lines, parse));
  }

  /** The non-empty texts of a line. */
  function Texts(blocks: seq<Block>): seq<string> {
    if blocks == [] then []
    else
      var b := blocks[0];
      (if b.Text? && b.text != "" then [b.text] else []) + Texts(blocks[1..])
  }

  lemma {:induction false} TextsAppend(blocks: seq<Block>, b: Block)
    ensures Texts(blocks + [b]) == Texts(blocks) + if b.Text? && b.text != "" then [b.text] else []
  {
    if blocks == [] {
      assert blocks + [b] == [b] && [b][1..] == [];
    } else {
      assert (blocks + [b])[1..] == blocks[1..] + [b];
      TextsAppend(blocks[1..], b);
    }
  }

  lemma {:induction false} JoinedTextsExactly(blocks: seq<Block>)
    ensures JoinedTexts(blocks) == if Texts(blocks) == [] then None else Some(Joined(Texts(blocks), ' '))
  {
    if blocks != [] {
      var front, b := blocks[..|blocks| - 1], blocks[|blocks| - 1];
      JoinedTextsExactly(front);
      TextsAppend(front, b);
      assert blocks == front + [b];
      if b.Text? && b.text != "" {
        if Texts(front) != [] {
          JoinedAppend(Texts(front), b.text, ' ');
        }
      } else {
        assert Texts(blocks) == Texts(front);
      }
    }
  }

  function TextsAt(lines: seq<string>, parse: LineParser, i: nat): seq<string>
    requires i < |lines|
  {
    Texts(BlocksOf(parse(lines[i])))
  }

  lemma OneMoreText(lines: seq<string>, parse: LineParser)
    requires lines != []
    ensures var n := |lines| - 1;
            Last(Snippets(lines, parse)) ==
              if TextsAt(lines, parse, n) == [] then Last(Snippets(lines[..n], parse))
              else Some(Snippet(Joined(TextsAt(lines, parse, n), ' ')))
  {
    JoinedTextsExactly(BlocksOf(parse(lines[|lines| - 1])));
  }

  /** The texts of every line. */
  function AllTexts(lines: seq<string>, parse: LineParser): (texts: seq<seq<string>>)
    ensures |texts| == |lines|
  {
    seq(|lines|, i requires 0 <= i < |lines| => TextsAt(lines, parse, i))
  }

  lemma AllTextsGrow(lines: seq<string>, parse: LineParser)
    requires lines != []
    ensures var n := |lines| - 1;
            AllTexts(lines, parse) == AllTexts(lines[..n], parse) + [TextsAt(lines, parse, n)]
  {
  }

  /** `found` is the snippet of line `i`, the last line with a text, or there is none. */
  ghost predicate IsLastText(texts: seq<seq<string>>, found: Option<string>, i: nat) {
    if found.None? then forall k :: 0 <= k < |texts| ==> texts[k] == []
    else
      && i < |texts| && texts[i] != [] && found == Some(Snippet(Joined(texts[i], ' ')))
      && forall k :: i < k < |texts| ==> texts[k] == []
  }

  lemma LastTextGrows(before: seq<seq<string>>, last: seq<string>, found: Option<string>, i: nat)
    requires IsLastText(before, found, i)
    ensures IsLastText(before + [last], if last == [] then found else Some(Snippet(Joined(last, ' '))),
                       if last == [] then i else |before|)
  {
  }

  lemma {:induction false} LastText(lines: seq<string>, parse: LineParser) returns (i: nat)
    ensures IsLastText(AllTexts(lines, parse), Last(Snippets(lines, parse)), i)
  {
    i := 0;
    if lines != [] {
      var n := |lines| - 1;
      i := LastText(lines[..n], parse);
      var last := TextsAt(lines, parse, n);
      LastTextGrows(AllTexts(lines[..n], parse), last, Last(Snippets(lines[..n], parse)), i);
      AllTextsGrow(lines, parse);
      OneMoreText(lines, parse);
      i := if last == [] then i else n;
    }
  }

  /** The text remembered is the last 100 characters of the texts of the last line with any, joined by
      spaces. */
  lemma LastTextExactly(lines: seq<string>, parse: LineParser) returns (i: nat)
    ensures var texts, found := AllTexts(lines, parse), Last(Snippets(lines, parse));
            if found.None? then forall k :: 0 <= k < |lines| ==> texts[k] == []
            else
              && i < |lines| && texts[i] != [] && (forall k :: i < k < |lines| ==> texts[k] == [])
              && var whole := Joined(texts[i], ' ');
                 found == Some(if |whole| > 100 then whole[|whole| - 100..] else whole)
  {
    i := LastText(lines, parse);
  }

  lemma UseSpotsGrow(blocks: seq<Block>, b: Block)
    ensures var all, before := blocks + [b], set j: nat | j < |blocks| && blocks[j].ToolUse?;
            (set j: nat | j < |all| && all[j].ToolUse?) == before + if b.ToolUse? then {|blocks|} else {}
  {
  }

  lemma {:induction false} UsesExactly(blocks: seq<Block>)
    ensures UsesIn(blocks) == |set j: nat | j < |blocks| && blocks[j].ToolUse?|
  {
    if blocks != [] {
      var front, last := blocks[..|blocks| - 1], blocks[|blocks| - 1];
      UsesExactly(front);
      assert blocks == front + [last];
      UseSpotsGrow(front, last);
    }
  }

  /** Universal newlines: a carriage return, with a newline behind it or not, becomes a newline, and
      everything else stays. */
  lemma {:induction false} TranslatedExactly(s: string, t: string)
    requires '\r' !in s
    ensures Translated(s + "\r\n" + t) == s + "\n" + Translated(t)
    ensures (t == "" || t[0] != '\n') ==> Translated(s + "\r" + t) == s + "\n" + Translated(t)
  {
    if s == "" {
      assert ("" + "\r\n" + t)[2..] == t && ("" + "\r" + t)[1..] == t;
    } else {
      assert s[0] in s;
      assert (s + "\r\n" + t)[1..] == s[1..] + "\r\n" + t && (s + "\r" + t)[1..] == s[1..] + "\r" + t;
      TranslatedExactly(s[1..], t);
      assert s == [s[0]] + s[1..];
    }
  }

  datatype Status = Status(toolCalls: nat, marker: Option<string>, text: Option<string>, size: nat)

  /** `_status_from_file`, without the clock-derived status word. The tool count it reports is that
      of the whole file. */
  method StatusFromFile(file: string, parse: LineParser, search: MarkerSearch) returns (r: Option<Status>)
    ensures var tail := ReadTail(file, TAIL_BYTES);
            r.None? <==> || (exists i :: 0 <= i < |tail| && Rejected(parse(tail[i])))
                         || (exists i :: 0 <= i < |AllLines(file)| && parse(AllLines(file)[i]).BadMessage?)
    ensures var tail, whole := ReadTail(file, TAIL_BYTES), AllLines(file);
            r.Some? ==> r.value == Status(Max(ToolUses(tail, parse), ToolUses(whole, parse)),
                                          Last(Markers(tail, parse, search)), Last(Snippets(tail, parse)), |file|)
    ensures r.Some? && '\r' !in file ==> r.value.toolCalls == ToolUses(AllLines(file), parse)
  {
    var lines := ReadTail(file, TAIL_BYTES);
    var summary := ParseLines(lines, parse, search);
    if summary.None? {
      return None;
    }
    var count := summary.value.toolCalls;
    var full := CountToolCalls(AllLines(file), parse);
    if full.None? {
      return None;
    }
    if full.value > count {
      count := full.value;
    }
    if '\r' !in file {
      TailAgreesWithWhole(file, TAIL_BYTES, parse, search);
    }
    return Some(Status(count, summary.value.marker, summary.value.text, |file|));
  }
}
