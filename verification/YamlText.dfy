/** The text level of the fallback YAML loader (yaml.py): scalars, line splitting and the
    preprocessing of raw lines. */
module YamlText {
  import opened Common

  /** `Opaque` is any other Python object, such as a float. */
  datatype Scalar = Null | Boolean(b: bool) | Integer(i: int) | Str(text: string) | Opaque(repr: string)

  /** What a value is read as. The members of a flow collection are not looked into. */
  datatype Reading =
    | One(scalar: Scalar)
    | FlowList(items: seq<Scalar>)
    | FlowDict(entries: seq<(string, Scalar)>)

  /** Python's own readers and writers: `isJson` and `dumps` of its JSON module, `flow` for bracketed
      values, and `number` for what `int` or `float` make of a value that is no plain integer. */
  datatype Readers = Readers(isJson: string -> bool, dumps: string -> string, flow: string -> Reading,
                             number: string -> Option<Scalar>)

  datatype Line = Line(indent: nat, text: string)

  predicate IsItem(text: string) {
    "- " <= text
  }

  /** The position of the first colon, or the length. */
  function ColonAt(s: string): (i: nat)
    ensures i <= |s|
    ensures i < |s| ==> s[i] == ':'
    ensures forall j :: 0 <= j < i ==> s[j] != ':'
  {
    if s == "" || s[0] == ':' then 0 else 1 + ColonAt(s[1..])
  }

  predicate HasColon(s: string) {
    ColonAt(s) < |s|
  }

  function Trim(s: string): string {
    Strip(s, IsSpace)
  }

  // ---- Scalars -----------------------------------------------------------------------------------

  function Lower(s: string): (r: string)
    ensures |r| == |s|
  {
    seq(|s|, i requires 0 <= i < |s| => if 'A' <= s[i] <= 'Z' then s[i] + ' ' else s[i])
  }

  predicate AllDigits(s: string) {
    s != "" && forall c | c in s :: IsDigit(c)
  }

  function DigitOf(c: char): nat
    requires IsDigit(c)
  {
    c as int - '0' as int
  }

  function DigitsValue(s: string): nat
    requires forall c :: c in s ==> IsDigit(c)
  {
    if s == "" then 0
    else
      assert forall c :: c in s[..|s| - 1] ==> c in s;
      assert s[|s| - 1] in s;
      DigitsValue(s[..|s| - 1]) * 10 + DigitOf(s[|s| - 1])
  }

  /** Python's `int`, for an optional sign and digits. */
  function ParseInt(s: string): Option<int> {
    if AllDigits(s) then Some(DigitsValue(s))
    else if s != "" && (s[0] == '-' || s[0] == '+') && AllDigits(s[1..]) then
      Some(if s[0] == '-' then -(DigitsValue(s[1..]) as int) else DigitsValue(s[1..]))
    else None
  }

  /** `value` is at least as long as its two delimiters, or is a single one that is both. */
  predicate Between(value: string, first: char, last: char) {
    value != "" && value[0] == first && value[|value| - 1] == last
  }

  function Inner(value: string): string {
    if |value| < 2 then "" else value[1..|value| - 1]
  }

  /** Every pair of backslashes becomes one. */
  function Unescaped(s: string): string {
    if |s| < 2 then s
    else if s[0] == '\\' && s[1] == '\\' then ['\\'] + Unescaped(s[2..])
    else [s[0]] + Unescaped(s[1..])
  }

  function ReadScalar(raw: string, rd: Readers): Reading {
    var value := Trim(raw);
    var lowered := Lower(value);
    if value == "" then One(Str(""))
    else if lowered == "null" || lowered == "none" || lowered == "~" then One(Null)
    else if lowered == "true" then One(Boolean(true))
    else if lowered == "false" then One(Boolean(false))
    else if Between(value, '[', ']') || Between(value, '{', '}') then rd.flow(value)
    else if Between(value, '"', '"') then One(Str(Unescaped(Inner(value))))
    else if Between(value, '\'', '\'') then One(Str(Inner(value)))
    else
      match ParseInt(value)
      case Some(i) => One(Integer(i))
      case None => One(if rd.number(value).Some? then rd.number(value).value else Str(value))
  }

  // ---- Preprocessing -------------------------------------------------------------------------------

  /** The position of the first `#` outside quotes, or the length. */
  function CommentAt(s: string, i: nat, single: bool, double: bool): (r: nat)
    requires i <= |s|
    ensures r <= |s|
    decreases |s| - i
  {
    if i == |s| then i
    else if s[i] == '\'' && !double then CommentAt(s, i + 1, !single, double)
    else if s[i] == '"' && !single then CommentAt(s, i + 1, single, !double)
    else if s[i] == '#' && !single && !double then i
    else CommentAt(s, i + 1, single, double)
  }

  function Uncommented(raw: string): string {
    StripRight(raw[..CommentAt(raw, 0, false, false)], IsSpace)
  }

  /** `_strip_comment`, character by character. */
  method StripComment(line: string) returns (r: string)
    ensures r == Uncommented(line)
  {
    var single, double := false, false;
    for i := 0 to |line|
      invariant CommentAt(line, 0, false, false) == CommentAt(line, i, single, double)
    {
      if line[i] == '\'' && !double {
        single := !single;
      } else if line[i] == '"' && !single {
        double := !double;
      } else if line[i] == '#' && !single && !double {
        return StripRight(line[..i], IsSpace);
      }
    }
    assert line[..|line|] == line;
    return StripRight(line, IsSpace);
  }

  function IndentOf(s: string): nat {
    StripLeftKeeps(s, c => c == ' ');
    |s| - |StripLeft(s, c => c == ' ')|
  }

  predicate EndsWith(s: string, suffix: string) {
    |suffix| <= |s| && s[|s| - |suffix|..] == suffix
  }

  /** A line that opens a folded or literal block. */
  predicate OpensBlock(text: string) {
    EndsWith(text, ": >") || EndsWith(text, ": |") || EndsWith(text, ": >-") || EndsWith(text, ": |-")
  }

  /** The lines of a block scalar from `i` on: where they end, and their texts without the
      indentation of the first. */
  function Block(raws: seq<string>, i: nat, indent: nat, blockIndent: Option<nat>, parts: seq<string>)
    : (r: (nat, seq<string>))
    requires i <= |raws|
    ensures i <= r.0 <= |raws|
    decreases |raws| - i
  {
    if i == |raws| then (i, parts)
    else if Trim(raws[i]) == "" then Block(raws, i + 1, indent, blockIndent, parts + [""])
    else
      var ni := IndentOf(raws[i]);
      if ni <= indent then (i, parts)
      else
        var b := if blockIndent.Some? then blockIndent.value else ni;
        Block(raws, i + 1, indent, Some(b), parts + [raws[i][Min(b, |raws[i]|)..]])
  }

  /** The parts that are not blank, trimmed. */
  function Words(parts: seq<string>): seq<string> {
    if parts == [] then []
    else (if Trim(parts[0]) == "" then [] else [Trim(parts[0])]) + Words(parts[1..])
  }

  function Folded(stripped: string, parts: seq<string>): string {
    if '|' in stripped then Joined(parts, '\n') else Joined(Words(parts), ' ')
  }

  function BlockLine(stripped: string, indent: nat, parts: seq<string>, rd: Readers): Line {
    Line(indent, stripped[..ColonAt(stripped)] + ": " + rd.dumps(Folded(stripped, parts)))
  }

  /** A line that is neither a key nor an item continues the line before it. */
  function Absorbed(out: seq<Line>, indent: nat, stripped: string): seq<Line> {
    if !HasColon(stripped) && !IsItem(stripped) && out != [] then
      var last := out[|out| - 1];
      out[|out| - 1 := Line(last.indent, last.text + " " + stripped)]
    else out + [Line(indent, stripped)]
  }

  /** The raw lines from `i` on, behind what came before. */
  function PreprocessFrom(raws: seq<string>, i: nat, out: seq<Line>, rd: Readers): seq<Line>
    requires i <= |raws|
    decreases |raws| - i
  {
    if i == |raws| then out
    else
      var cleaned := Uncommented(raws[i]);
      var stripped, indent := Trim(cleaned), IndentOf(cleaned);
      if stripped == "" then PreprocessFrom(raws, i + 1, out, rd)
      else if OpensBlock(stripped) then
        var (end, parts) := Block(raws, i + 1, indent, None, []);
        PreprocessFrom(raws, end, out + [BlockLine(stripped, indent, parts, rd)], rd)
      else PreprocessFrom(raws, i + 1, Absorbed(out, indent, stripped), rd)
  }

  function Preprocessed(raws: seq<string>, rd: Readers): seq<Line> {
    PreprocessFrom(raws, 0, [], rd)
  }

  method Preprocess(raws: seq<string>, rd: Readers) returns (out: seq<Line>)
    ensures out == Preprocessed(raws, rd)
  {
    out := [];
    var i := 0;
    while i < |raws|
      invariant 0 <= i <= |raws|
      invariant PreprocessFrom(raws, i, out, rd) == Preprocessed(raws, rd)
    {
      var cleaned := StripComment(raws[i]);
      var stripped, indent := Trim(cleaned), IndentOf(cleaned);
      if stripped == "" {
        i := i + 1;
      } else if OpensBlock(stripped) {
        var end, parts := ReadBlock(raws, i + 1, indent);
        out := out + [BlockLine(stripped, indent, parts, rd)];
        i := end;
      } else {
        out := Absorbed(out, indent, stripped);
        i := i + 1;
      }
    }
  }

  /** The inner loop over the lines of a block scalar. */
  method ReadBlock(raws: seq<string>, start: nat, indent: nat) returns (i: nat, parts: seq<string>)
    requires start <= |raws|
    ensures (i, parts) == Block(raws, start, indent, None, [])
    ensures i <= |raws|
  {
    i, parts := start, [];
    var blockIndent: Option<nat> := None;
    while i < |raws|
      invariant start <= i <= |raws|
      invariant Block(raws, i, indent, blockIndent, parts) == Block(raws, start, indent, None, [])
    {
      if Trim(raws[i]) == "" {
        parts := parts + [""];
      } else {
        var ni := IndentOf(raws[i]);
        if ni <= indent {
          break;
        }
        if blockIndent.None? {
          blockIndent := Some(ni);
        }
        parts := parts + [raws[i][Min(blockIndent.value, |raws[i]|)..]];
      }
      i := i + 1;
    }
  }

  // ---- Splitting into lines ------------------------------------------------------------------------

  /** The line breaks of Python's `str.splitlines`. */
  predicate IsBreak(c: char) {
    '\n' <= c <= '\r' || '\U{1c}' <= c <= '\U{1e}' || c == '\U{85}' || c == '\U{2028}' || c == '\U{2029}'
  }

  function BreakAt(s: string): (i: nat)
    ensures i <= |s|
    ensures i < |s| ==> IsBreak(s[i])
    ensures forall j :: 0 <= j < i ==> !IsBreak(s[j])
  {
    if s == "" || IsBreak(s[0]) then 0 else 1 + BreakAt(s[1..])
  }

  function SplitLines(s: string): seq<string>
    decreases |s|
  {
    if s == "" then []
    else
      var k := BreakAt(s);
      if k == |s| then [s]
      else
        var width := if k + 1 < |s| && s[k] == '\r' && s[k + 1] == '\n' then 2 else 1;
        [s[..k]] + SplitLines(s[k + width..])
  }

  function Unlines(raws: seq<string>): string {
    if raws == [] then "" else raws[0] + "\n" + Unlines(raws[1..])
  }

  predicate OneLine(raw: string) {
    forall c <- raw :: !IsBreak(c)
  }

  lemma {:induction false} SplitUndoesUnlines(raws: seq<string>)
    requires forall raw <- raws :: OneLine(raw)
    ensures SplitLines(Unlines(raws)) == raws
  {
    if raws != [] {
      assert raws[0] in raws && forall raw <- raws[1..] :: raw in raws;
      SplitUndoesUnlines(raws[1..]);
      FirstLine(raws[0], Unlines(raws[1..]));
    }
  }

  lemma FirstLine(raw: string, rest: string)
    requires OneLine(raw)
    ensures SplitLines(raw + "\n" + rest) == [raw] + SplitLines(rest)
  {
    var s := raw + "\n" + rest;
    var k := BreakAt(s);
    assert s[|raw|] == '\n' && forall j :: 0 <= j < |raw| ==> s[j] in raw;
    assert k == |raw|;
    assert s[..k] == raw && s[k + 1..] == rest;
  }

  // ---- Printed text reads back -------------------------------------------------------------------

  function Spaces(n: nat): string {
    seq(n, _ => ' ')
  }

  function Numeral(i: int): string {
    if i < 0 then "-" + Decimal(-i) else Decimal(i)
  }

  /** No part of the text is a comment. */
  ghost predicate Uncut(text: string) {
    CommentAt(text, 0, false, false) == |text|
  }

  /** A text that preprocessing takes over as it is. */
  ghost predicate Neat(text: string) {
    && text != "" && !IsSpace(text[0]) && !IsSpace(text[|text| - 1])
    && Uncut(text)
    && (HasColon(text) || IsItem(text))
    && !OpensBlock(text)
  }

  lemma {:induction false} NoComment(s: string, i: nat, single: bool, double: bool)
    requires i <= |s| && '#' !in s
    ensures CommentAt(s, i, single, double) == |s|
    decreases |s| - i
  {
    if i < |s| {
      assert s[i] in s;
      if s[i] == '\'' && !double {
        NoComment(s, i + 1, !single, double);
      } else if s[i] == '"' && !single {
        NoComment(s, i + 1, single, !double);
      } else {
        NoComment(s, i + 1, single, double);
      }
    }
  }

  lemma {:induction false} CommentShift(p: string, t: string, i: nat, single: bool, double: bool)
    requires i <= |t|
    ensures CommentAt(p + t, |p| + i, single, double) == |p| + CommentAt(t, i, single, double)
    decreases |t| - i
  {
    if i < |t| {
      assert (p + t)[|p| + i] == t[i];
      if t[i] == '\'' && !double {
        CommentShift(p, t, i + 1, !single, double);
      } else if t[i] == '"' && !single {
        CommentShift(p, t, i + 1, single, !double);
      } else if !(t[i] == '#' && !single && !double) {
        CommentShift(p, t, i + 1, single, double);
      }
    }
  }

  /** A text without quotes and hashes. */
  ghost predicate Unquoted(s: string) {
    forall i :: 0 <= i < |s| ==> s[i] !in {'\'', '"', '#'}
  }

  lemma {:induction false} SkipUnquoted(p: string, t: string, i: nat)
    requires Unquoted(p) && i <= |p|
    ensures CommentAt(p + t, i, false, false) == CommentAt(p + t, |p|, false, false)
    decreases |p| - i
  {
    if i < |p| {
      assert (p + t)[i] == p[i];
      SkipUnquoted(p, t, i + 1);
    }
  }

  lemma {:induction false} SkipInside(p: string, q: char, t: string, i: nat)
    requires q in {'\'', '"'} && i <= |p| && forall k :: i <= k < |p| ==> p[k] != q
    ensures CommentAt(p + t, i, q == '\'', q == '"') == CommentAt(p + t, |p|, q == '\'', q == '"')
    decreases |p| - i
  {
    if i < |p| {
      assert (p + t)[i] == p[i];
      SkipInside(p, q, t, i + 1);
    }
  }

  /** A part of a line that holds no comment: unquoted text, or a pair of like quotes with anything but
      that quote between. */
  ghost predicate IsSegment(s: string) {
    Unquoted(s) || (|s| >= 2 && s[0] in {'\'', '"'} && s[|s| - 1] == s[0] && s[0] !in s[1..|s| - 1])
  }

  lemma SkipSegment(s: string, t: string)
    requires IsSegment(s)
    ensures CommentAt(s + t, 0, false, false) == |s| + CommentAt(t, 0, false, false)
  {
    CommentShift(s, t, 0, false, false);
    if Unquoted(s) {
      SkipUnquoted(s, t, 0);
    } else {
      var q, n := s[0], |s| - 1;
      forall k | 1 <= k < n ensures s[..n][k] != q {
        assert s[1..n][k - 1] == s[k];
      }
      SkipInside(s[..n], q, s[n..] + t, 1);
      assert s[..n] + (s[n..] + t) == s + t;
      assert (s + t)[0] == q && (s + t)[n] == q;
    }
  }

  function Strung(parts: seq<string>): string {
    if parts == [] then "" else parts[0] + Strung(parts[1..])
  }

  lemma {:induction false} SkipSegments(parts: seq<string>, t: string)
    requires forall i :: 0 <= i < |parts| ==> IsSegment(parts[i])
    ensures CommentAt(Strung(parts) + t, 0, false, false) == |Strung(parts)| + CommentAt(t, 0, false, false)
  {
    if parts == [] {
      assert Strung(parts) + t == t;
    } else {
      assert Strung(parts) + t == parts[0] + (Strung(parts[1..]) + t);
      SkipSegment(parts[0], Strung(parts[1..]) + t);
      SkipSegments(parts[1..], t);
    }
  }

  /** A comment begins at the first `#` outside quotes; it goes, with the white space before it. */
  lemma CommentIsCut(parts: seq<string>, comment: string)
    requires forall i :: 0 <= i < |parts| ==> IsSegment(parts[i])
    ensures Uncommented(Strung(parts) + ("#" + comment)) == StripRight(Strung(parts), IsSpace)
    ensures Uncommented(Strung(parts)) == StripRight(Strung(parts), IsSpace)
  {
    var text := Strung(parts);
    SkipSegments(parts, "#" + comment);
    SkipSegments(parts, "");
    assert text + "" == text && text[..|text|] == text;
    assert (text + ("#" + comment))[..|text|] == text;
  }

  lemma {:induction false} StripSpaces(n: nat, text: string, drop: char -> bool)
    requires drop(' ') && (text != "" ==> !drop(text[0]))
    ensures StripLeft(Spaces(n) + text, drop) == text
  {
    if n == 0 {
      assert Spaces(n) + text == text;
    } else {
      assert (Spaces(n) + text)[1..] == Spaces(n - 1) + text;
      StripSpaces(n - 1, text, drop);
    }
  }

  lemma NeatLineIsKept(line: Line)
    requires Neat(line.text)
    ensures var raw := Spaces(line.indent) + line.text;
            var cleaned := Uncommented(raw);
            Trim(cleaned) == line.text && IndentOf(cleaned) == line.indent
  {
    NeatIsWhole(line);
    StripSpaces(line.indent, line.text, IsSpace);
    StripSpaces(line.indent, line.text, c => c == ' ');
  }

  lemma NeatIsWhole(line: Line)
    requires Neat(line.text)
    ensures var raw := Spaces(line.indent) + line.text;
            Uncommented(raw) == raw && raw != "" && !IsSpace(raw[|raw| - 1])
  {
    var raw := Spaces(line.indent) + line.text;
    SkipSegment(Spaces(line.indent), line.text);
    assert raw[..|raw|] == raw;
  }

  /** The raw text of the lines. */
  function Rendered(lines: seq<Line>): (r: seq<string>)
    ensures |r| == |lines|
  {
    seq(|lines|, i requires 0 <= i < |lines| => Spaces(lines[i].indent) + lines[i].text)
  }

  ghost predicate AllNeat(lines: seq<Line>) {
    forall line :: line in lines ==> Neat(line.text)
  }

  lemma {:induction false} NeatFrom(lines: seq<Line>, i: nat, rd: Readers)
    requires AllNeat(lines) && i <= |lines|
    ensures PreprocessFrom(Rendered(lines), i, lines[..i], rd) == lines
    decreases |lines| - i
  {
    if i == |lines| {
      assert lines[..i] == lines;
    } else {
      assert lines[i] in lines;
      NeatLineIsKept(lines[i]);
      assert Absorbed(lines[..i], lines[i].indent, lines[i].text) == lines[..i + 1];
      NeatFrom(lines, i + 1, rd);
    }
  }

  /** Neat lines come out of preprocessing as they went in. */
  lemma NeatLinesAreKept(lines: seq<Line>, rd: Readers)
    requires AllNeat(lines)
    ensures Preprocessed(Rendered(lines), rd) == lines
  {
    NeatFrom(lines, 0, rd);
  }

  // ---- Comments, blank lines and continuation lines ------------------------------------------------

  lemma {:induction false} StripSpacesRight(s: string, n: nat)
    requires s != "" ==> !IsSpace(s[|s| - 1])
    ensures StripRight(s + Spaces(n), IsSpace) == s
  {
    if n == 0 {
      assert s + Spaces(n) == s;
    } else {
      assert (s + Spaces(n))[..|s| + n - 1] == s + Spaces(n - 1);
      StripSpacesRight(s, n - 1);
    }
  }

  /** Spaces, perhaps with a comment behind them. */
  ghost predicate IsIgnored(raw: string) {
    exists n: nat, comment: string :: raw == Spaces(n) || raw == Spaces(n) + ("#" + comment)
  }

  lemma IgnoredIsBlank(raw: string)
    requires IsIgnored(raw)
    ensures Trim(Uncommented(raw)) == ""
  {
    var n: nat, comment: string :| raw == Spaces(n) || raw == Spaces(n) + ("#" + comment);
    SkipParts([Spaces(n)]);
    CommentIsCut([Spaces(n)], comment);
    StripSpacesRight("", n);
    assert "" + Spaces(n) == Spaces(n);
  }

  lemma SkipParts(parts: seq<string>)
    requires |parts| == 1
    ensures Strung(parts) == parts[0]
  {
    assert parts[1..] == [];
  }

  /** The line, or the line with a comment behind it if all its quotes are closed. */
  ghost predicate Dresses(raw: string, line: Line) {
    || raw == Spaces(line.indent) + line.text
    || exists parts: seq<string>, n: nat, comment: string ::
         && (forall i :: 0 <= i < |parts| ==> IsSegment(parts[i])) && Strung(parts) == line.text
         && raw == Spaces(line.indent) + line.text + Spaces(n) + ("#" + comment)
  }

  lemma DressedLineIsKept(raw: string, line: Line)
    requires Neat(line.text) && Dresses(raw, line)
    ensures var cleaned := Uncommented(raw);
            Trim(cleaned) == line.text && IndentOf(cleaned) == line.indent
  {
    NeatLineIsKept(line);
    if raw != Spaces(line.indent) + line.text {
      var parts: seq<string>, n: nat, comment: string :|
        && (forall i :: 0 <= i < |parts| ==> IsSegment(parts[i])) && Strung(parts) == line.text
        && raw == Spaces(line.indent) + line.text + Spaces(n) + ("#" + comment);
      CommentGoes(line, parts, n, comment);
    }
  }

  lemma CommentGoes(line: Line, parts: seq<string>, n: nat, comment: string)
    requires Neat(line.text) && Strung(parts) == line.text
    requires forall i :: 0 <= i < |parts| ==> IsSegment(parts[i])
    ensures Uncommented(Spaces(line.indent) + line.text + Spaces(n) + ("#" + comment))
         == Spaces(line.indent) + line.text == Uncommented(Spaces(line.indent) + line.text)
  {
    var raw := Spaces(line.indent) + line.text;
    IndentedParts(line.indent, parts, n);
    CommentIsCut([Spaces(line.indent)] + (parts + [Spaces(n)]), comment);
    NeatIsWhole(line);
    StripSpacesRight(raw, n);
  }

  lemma IndentedParts(indent: nat, parts: seq<string>, n: nat)
    requires forall i :: 0 <= i < |parts| ==> IsSegment(parts[i])
    ensures var all := [Spaces(indent)] + (parts + [Spaces(n)]);
            && Strung(all) == Spaces(indent) + Strung(parts) + Spaces(n)
            && forall i :: 0 <= i < |all| ==> IsSegment(all[i])
  {
    var all := [Spaces(indent)] + (parts + [Spaces(n)]);
    StrungAppend(parts, Spaces(n));
    assert all[1..] == parts + [Spaces(n)];
    assert IsSegment(Spaces(indent)) && IsSegment(Spaces(n));
    forall i | 0 <= i < |all| ensures IsSegment(all[i]) {
      assert all[i] == if i == 0 then Spaces(indent) else if i <= |parts| then parts[i - 1] else Spaces(n);
    }
  }

  lemma {:induction false} StrungAppend(parts: seq<string>, last: string)
    ensures Strung(parts + [last]) == Strung(parts) + last
  {
    if parts == [] {
      assert parts + [last] == [last] && [last][1..] == [];
    } else {
      assert (parts + [last])[1..] == parts[1..] + [last];
      StrungAppend(parts[1..], last);
    }
  }

  /** The lines in order, with comments behind them and ignored lines between them. */
  ghost predicate Dressed(raws: seq<string>, lines: seq<Line>) {
    if raws == [] then lines == []
    else
      || (IsIgnored(raws[0]) && Dressed(raws[1..], lines))
      || (lines != [] && Dresses(raws[0], lines[0]) && Dressed(raws[1..], lines[1..]))
  }

  lemma {:induction false} DressedFrom(raws: seq<string>, i: nat, lines: seq<Line>, j: nat, rd: Readers)
    requires AllNeat(lines) && i <= |raws| && j <= |lines| && Dressed(raws[i..], lines[j..])
    ensures PreprocessFrom(raws, i, lines[..j], rd) == lines
    decreases |raws| - i
  {
    if i == |raws| {
      assert lines[..j] == lines;
    } else {
      assert raws[i..][1..] == raws[i + 1..];
      if IsIgnored(raws[i]) && Dressed(raws[i + 1..], lines[j..]) {
        IgnoredIsBlank(raws[i]);
        DressedFrom(raws, i + 1, lines, j, rd);
      } else {
        assert lines[j..][1..] == lines[j + 1..];
        assert lines[j] in lines;
        DressedLineIsKept(raws[i], lines[j]);
        assert Absorbed(lines[..j], lines[j].indent, lines[j].text) == lines[..j + 1];
        DressedFrom(raws, i + 1, lines, j + 1, rd);
      }
    }
  }

  /** Comments and blank lines make no difference. */
  lemma CommentsAreIgnored(raws: seq<string>, lines: seq<Line>, rd: Readers)
    requires AllNeat(lines) && Dressed(raws, lines)
    ensures Preprocessed(raws, rd) == lines
  {
    assert raws[0..] == raws && lines[0..] == lines && lines[..0] == [];
    DressedFrom(raws, 0, lines, 0, rd);
  }

  /** A line that is neither a key nor an item is joined to the line before it by one space. */
  lemma ContinuationIsJoined(line: Line, n: nat, words: string, rd: Readers)
    requires Neat(line.text)
    requires words != "" && !IsSpace(words[0]) && !IsSpace(words[|words| - 1])
    requires Uncut(words) && ':' !in words && !IsItem(words)
    ensures Preprocessed([Spaces(line.indent) + line.text, Spaces(n) + words], rd)
         == [Line(line.indent, line.text + " " + words)]
  {
    var raws := [Spaces(line.indent) + line.text, Spaces(n) + words];
    NeatLineIsKept(line);
    SkipSegment(Spaces(n), words);
    assert raws[1][..|raws[1]|] == raws[1];
    assert Uncommented(raws[1]) == raws[1];
    StripSpaces(n, words, IsSpace);
    assert !HasColon(words);
    EndsInNoBlock(words);
    assert Absorbed([], line.indent, line.text) == [line];
    assert PreprocessFrom(raws, 0, [], rd) == PreprocessFrom(raws, 1, [line], rd);
    assert Absorbed([line], n, words) == [Line(line.indent, line.text + " " + words)];
    assert PreprocessFrom(raws, 1, [line], rd)
        == PreprocessFrom(raws, 2, Absorbed([line], IndentOf(raws[1]), words), rd);
  }

  lemma EndsInNoBlock(text: string)
    requires ':' !in text
    ensures !OpensBlock(text)
  {
    forall suffix: string | EndsWith(text, suffix) && suffix != "" ensures suffix[0] in text {
    }
  }

  lemma {:induction false} DecimalValue(n: nat)
    ensures DigitsValue(Decimal(n)) == n
  {
    if n >= 10 {
      DecimalValue(n / 10);
      assert Decimal(n)[..|Decimal(n)| - 1] == Decimal(n / 10);
    } else {
      assert [Digit(n)][..0] == "";
    }
  }

  lemma NumeralShape(i: int)
    ensures var s := Numeral(i);
            && s != "" && (s[0] == '-' || IsDigit(s[0])) && IsDigit(s[|s| - 1])
            && forall c :: c in s ==> c == '-' || IsDigit(c)
  {
    var d := Decimal(if i < 0 then -i else i);
    assert d[0] in d && d[|d| - 1] in d;
  }

  lemma NumeralParses(i: int)
    ensures ParseInt(Numeral(i)) == Some(i)
  {
    var n := if i < 0 then -i else i;
    var d := Decimal(n);
    DecimalValue(n);
    assert d[0] in d;
    if i < 0 {
      assert Numeral(i)[1..] == d && '-' in Numeral(i);
    }
  }

  lemma NumeralTrims(i: int)
    ensures Trim(Numeral(i)) == Numeral(i) == Trim(" " + Numeral(i))
  {
    var s := Numeral(i);
    NumeralShape(i);
    StripKeeps(s, IsSpace);
    assert (" " + s)[1..] == s;
  }

  /** A numeral, with a space before it or not, is read back as its integer. */
  lemma NumeralReadsBack(i: int, rd: Readers)
    ensures Trim(Numeral(i)) == Numeral(i) == Trim(" " + Numeral(i))
    ensures ReadScalar(Numeral(i), rd) == ReadScalar(" " + Numeral(i), rd) == One(Integer(i))
  {
    NumeralTrims(i);
    NumeralShape(i);
    NumeralParses(i);
    NumeralIsNoWord(Numeral(i));
  }

  lemma NumeralIsNoWord(s: string)
    requires s != "" && (s[0] == '-' || IsDigit(s[0]))
    ensures Lower(s) !in {"null", "none", "~", "true", "false"}
  {
    assert Lower(s)[0] == s[0];
  }

  // ---- Which value a text is read as ----------------------------------------------------------------

  /** `w` is the lower-case `t` up to the case of its letters. */
  ghost predicate AnyCase(w: string, t: string) {
    && |w| == |t|
    && forall i :: 0 <= i < |t| ==> w[i] == t[i] || ('a' <= t[i] <= 'z' && w[i] as int == t[i] as int - 32)
  }

  lemma LowerExactly(w: string, t: string)
    requires forall i :: 0 <= i < |t| ==> 'a' <= t[i] <= '~'
    ensures Lower(w) == t <==> AnyCase(w, t)
  {
    if |w| == |t| {
      forall i | 0 <= i < |t|
        ensures Lower(w)[i] == t[i] <==> w[i] == t[i] || ('a' <= t[i] <= 'z' && w[i] as int == t[i] as int - 32)
      {
      }
      assert (forall i :: 0 <= i < |t| ==> Lower(w)[i] == t[i]) ==> Lower(w) == t;
    }
  }

  ghost predicate IsNullWord(w: string) {
    AnyCase(w, "null") || AnyCase(w, "none") || w == "~"
  }

  lemma LowerWords(w: string)
    ensures Lower(w) in {"null", "none", "~"} <==> IsNullWord(w)
    ensures Lower(w) == "true" <==> AnyCase(w, "true")
    ensures Lower(w) == "false" <==> AnyCase(w, "false")
  {
    LowerExactly(w, "null");
    LowerExactly(w, "none");
    LowerExactly(w, "~");
    LowerExactly(w, "true");
    LowerExactly(w, "false");
    assert AnyCase(w, "~") <==> w == "~";
  }

  ghost predicate Trimmed(w: string) {
    w != "" ==> !IsSpace(w[0]) && !IsSpace(w[|w| - 1])
  }

  /** White space around a value makes no difference, and null and the booleans may be spelled in any
      case. */
  lemma WordsAreRead(w: string, rd: Readers)
    requires Trimmed(w) && w != ""
    ensures IsNullWord(w) ==> ReadScalar(w, rd) == One(Null)
    ensures AnyCase(w, "true") ==> ReadScalar(w, rd) == One(Boolean(true))
    ensures AnyCase(w, "false") ==> ReadScalar(w, rd) == One(Boolean(false))
    ensures ReadScalar(" " + w, rd) == ReadScalar(w, rd)
  {
    LowerWords(w);
    StripKeeps(w, IsSpace);
    assert (" " + w)[1..] == w;
  }

  /** A text that is none of these, not quoted, not bracketed and no number is read as itself. */
  ghost predicate PlainWord(w: string, rd: Readers) {
    && w != "" && Trimmed(w)
    && !IsNullWord(w) && !AnyCase(w, "true") && !AnyCase(w, "false")
    && w[0] !in {'[', '{', '"', '\''}
    && !(w[0] in {'+', '-'} || IsDigit(w[0])) && rd.number(w) == None
  }

  lemma PlainWordIsRead(w: string, rd: Readers)
    requires PlainWord(w, rd)
    ensures ReadScalar(w, rd) == One(Str(w))
  {
    LowerWords(w);
    StripKeeps(w, IsSpace);
    assert w[0] in w;
  }

  /** Every backslash becomes two. */
  function Escaped(s: string): string {
    if s == "" then "" else (if s[0] == '\\' then ['\\', '\\'] else [s[0]]) + Escaped(s[1..])
  }

  lemma {:induction false} UnescapedUndoes(s: string)
    ensures Unescaped(Escaped(s)) == s
  {
    if s != "" {
      UnescapedUndoes(s[1..]);
      var e, rest := Escaped(s), Escaped(s[1..]);
      assert s == [s[0]] + s[1..];
      if s[0] == '\\' {
        assert e[2..] == rest;
      } else {
        assert e[1..] == rest;
        if |e| == 1 {
          assert rest == "";
        }
      }
    }
  }

  function InQuotes(s: string, q: char): string {
    [q] + s + [q]
  }

  /** Between double quotes any text is read back, if its backslashes are doubled; between single
      quotes it is read as it is. */
  lemma QuotedIsRead(s: string, rd: Readers)
    ensures ReadScalar(InQuotes(Escaped(s), '"'), rd) == One(Str(s))
    ensures ReadScalar(InQuotes(s, '\''), rd) == One(Str(s))
  {
    UnescapedUndoes(s);
    QuotedValue(Escaped(s), '"', rd);
    QuotedValue(s, '\'', rd);
  }

  lemma QuotedValue(s: string, q: char, rd: Readers)
    requires q in {'"', '\''}
    ensures ReadScalar(InQuotes(s, q), rd) == One(Str(if q == '"' then Unescaped(s) else s))
    ensures Trim(InQuotes(s, q)) == InQuotes(s, q)
  {
    var value := InQuotes(s, q);
    StripKeeps(value, IsSpace);
    assert value[0] == q && value[|value| - 1] == q && value[1..|value| - 1] == s;
    assert Lower(value)[0] == q;
  }

  /** Anything between brackets or braces is left to the flow reader. */
  lemma FlowIsRead(s: string, rd: Readers)
    ensures ReadScalar("[" + s + "]", rd) == rd.flow("[" + s + "]")
    ensures ReadScalar("{" + s + "}", rd) == rd.flow("{" + s + "}")
  {
    StripKeeps("[" + s + "]", IsSpace);
    StripKeeps("{" + s + "}", IsSpace);
    assert Lower("[" + s + "]")[0] == '[' && Lower("{" + s + "}")[0] == '{';
  }

  /** A plus sign and leading zeros make no difference to a numeral. */
  lemma PlusAndZeros(n: nat)
    ensures ParseInt("+" + Decimal(n)) == ParseInt("0" + Decimal(n)) == Some(n)
  {
    var d := Decimal(n);
    DecimalValue(n);
    assert ("+" + d)[1..] == d && d[0] in d && !AllDigits("+" + d) by { assert '+' in "+" + d; }
    LeadingZero(d);
  }

  lemma {:induction false} LeadingZero(d: string)
    requires forall c <- d :: IsDigit(c)
    ensures (forall c <- "0" + d :: IsDigit(c)) && DigitsValue("0" + d) == DigitsValue(d)
  {
    if d == "" {
      assert "0" + d == "0" && "0"[..0] == "";
    } else {
      var front := d[..|d| - 1];
      assert forall c <- front :: c in d;
      assert d[|d| - 1] in d;
      LeadingZero(front);
      assert ("0" + d)[..|d|] == "0" + front;
    }
  }

  // ---- Block scalars -------------------------------------------------------------------------------

  /** A line of white space only. */
  ghost predicate IsBlankLine(raw: string) {
    Trim(raw) == ""
  }

  /** The block from `start` ends at `end`: before the first line that is not blank and not indented
      deeper. */
  ghost predicate EndsAt(raws: seq<string>, start: nat, end: nat, indent: nat) {
    && start <= end <= |raws|
    && (end < |raws| ==> !IsBlankLine(raws[end]) && IndentOf(raws[end]) <= indent)
    && (forall k :: start <= k < end ==> IsBlankLine(raws[k]) || IndentOf(raws[k]) > indent)
  }

  ghost function BlockPart(raw: string, b: nat): string {
    if IsBlankLine(raw) then "" else raw[Min(b, |raw|)..]
  }

  /** `all` is `parts` and the parts of the lines from `i` to `end`. */
  ghost predicate HoldsParts(raws: seq<string>, i: nat, end: nat, b: nat, parts: seq<string>, all: seq<string>) {
    && i <= end <= |raws| && |all| == |parts| + end - i && parts <= all
    && forall k :: i <= k < end ==> all[|parts| + k - i] == BlockPart(raws[k], b)
  }

  lemma PartsGrow(raws: seq<string>, i: nat, end: nat, b: nat, parts: seq<string>, all: seq<string>)
    requires i < end <= |raws| && HoldsParts(raws, i + 1, end, b, parts + [BlockPart(raws[i], b)], all)
    ensures HoldsParts(raws, i, end, b, parts, all)
  {
    var grown := parts + [BlockPart(raws[i], b)];
    assert all[|parts|] == grown[|parts|];
    forall k | i <= k < end ensures all[|parts| + k - i] == BlockPart(raws[k], b) {
      assert k > i ==> all[|grown| + k - (i + 1)] == BlockPart(raws[k], b);
    }
  }

  lemma {:induction false} BlockGoesOn(raws: seq<string>, i: nat, indent: nat, b: nat, parts: seq<string>)
    requires i <= |raws|
    ensures var (end, all) := Block(raws, i, indent, Some(b), parts);
            EndsAt(raws, i, end, indent) && HoldsParts(raws, i, end, b, parts, all)
    decreases |raws| - i
  {
    if i < |raws| && (IsBlankLine(raws[i]) || IndentOf(raws[i]) > indent) {
      var more := parts + [BlockPart(raws[i], b)];
      BlockGoesOn(raws, i + 1, indent, b, more);
      var (end, all) := Block(raws, i + 1, indent, Some(b), more);
      PartsGrow(raws, i, end, b, parts, all);
    }
  }

  /** The first line with text in `[i..end)` is `first`, if there is one. */
  ghost predicate FirstTextAt(raws: seq<string>, i: nat, first: nat, end: nat) {
    && i <= first <= end <= |raws|
    && (first < end ==> !IsBlankLine(raws[first]))
    && (forall k :: i <= k < first ==> IsBlankLine(raws[k]))
  }

  ghost function Margin(raws: seq<string>, first: nat, end: nat): nat
    requires first <= end <= |raws|
  {
    if first < end then IndentOf(raws[first]) else 0
  }

  lemma BlankBefore(raws: seq<string>, i: nat, first: nat, end: nat, indent: nat)
    requires i < |raws| && IsBlankLine(raws[i])
    requires FirstTextAt(raws, i + 1, first, end) && EndsAt(raws, i + 1, end, indent)
    ensures FirstTextAt(raws, i, first, end) && EndsAt(raws, i, end, indent)
  {
  }

  /** The block that begins behind a line indented by `indent`: where it ends, and its parts, each
      without the indentation of the first line that is not blank. */
  lemma {:induction false} BlockExactly(raws: seq<string>, i: nat, indent: nat, parts: seq<string>)
    returns (first: nat)
    requires i <= |raws|
    ensures var (end, all) := Block(raws, i, indent, None, parts);
            && EndsAt(raws, i, end, indent) && FirstTextAt(raws, i, first, end)
            && HoldsParts(raws, i, end, Margin(raws, first, end), parts, all)
    decreases |raws| - i
  {
    first := i;
    if i < |raws| {
      if IsBlankLine(raws[i]) {
        first := BlockExactly(raws, i + 1, indent, parts + [""]);
        var (end, all) := Block(raws, i + 1, indent, None, parts + [""]);
        BlankBefore(raws, i, first, end, indent);
        PartsGrow(raws, i, end, Margin(raws, first, end), parts, all);
      } else if IndentOf(raws[i]) > indent {
        BlockOpens(raws, i, indent, parts);
      }
    }
  }

  lemma BlockOpens(raws: seq<string>, i: nat, indent: nat, parts: seq<string>)
    requires i < |raws| && !IsBlankLine(raws[i]) && IndentOf(raws[i]) > indent
    ensures var (end, all) := Block(raws, i, indent, None, parts);
            i < end && EndsAt(raws, i, end, indent) && HoldsParts(raws, i, end, IndentOf(raws[i]), parts, all)
  {
    var b := IndentOf(raws[i]);
    BlockGoesOn(raws, i + 1, indent, b, parts + [BlockPart(raws[i], b)]);
    var (end, all) := Block(raws, i + 1, indent, Some(b), parts + [BlockPart(raws[i], b)]);
    PartsGrow(raws, i, end, b, parts, all);
  }

  /** The line a block scalar becomes: the key and the quoted lines, joined by newlines for a literal
      block and trimmed and joined by spaces for a folded one. */
  lemma BlockIsQuoted(key: string, indent: nat, parts: seq<string>, rd: Readers)
    requires ':' !in key && '|' !in key
    ensures BlockLine(key + ": |", indent, parts, rd) == Line(indent, key + ": " + rd.dumps(Joined(parts, '\n')))
    ensures BlockLine(key + ": >", indent, parts, rd) == Line(indent, key + ": " + rd.dumps(Joined(Words(parts), ' ')))
  {
    KeyOfBlock(key, " |");
    KeyOfBlock(key, " >");
    assert key + ": |" == key + ":" + " |" && key + ": >" == key + ":" + " >";
    assert (key + ": |")[|key| + 2] == '|';
    assert '|' !in key + ": >";
  }

  lemma {:induction false} KeyOfBlock(key: string, rest: string)
    requires ':' !in key
    ensures ColonAt(key + ":" + rest) == |key| && (key + ":" + rest)[..|key|] == key
  {
    if key != "" {
      assert key[0] in key && forall c <- key[1..] :: c in key;
      assert (key + ":" + rest)[1..] == key[1..] + ":" + rest;
      KeyOfBlock(key[1..], rest);
    }
  }

  /** The words of parts are their texts without the white space around them, blank ones left out. */
  lemma {:induction false} WordsAppend(xs: seq<string>, ys: seq<string>)
    ensures Words(xs + ys) == Words(xs) + Words(ys)
  {
    if xs == [] {
      assert xs + ys == ys;
    } else {
      assert (xs + ys)[1..] == xs[1..] + ys;
      WordsAppend(xs[1..], ys);
    }
  }

  lemma WordIsTrimmed(w: string)
    requires w != "" && Trimmed(w)
    ensures Words([w]) == [w] && Words([" " + w]) == [w] && Words([" "]) == []
  {
    StripKeeps(w, IsSpace);
    assert (" " + w)[1..] == w && " "[1..] == "";
    assert [w][1..] == [] && [" " + w][1..] == [] && [" "][1..] == [];
  }

  /** A literal block of two lines does not come back: the quoted newline is read as a backslash and
      the letter n, since only pairs of backslashes are undone. */
  lemma LiteralNewlineIsLost(rd: Readers)
    requires rd.dumps("a\nb") == InQuotes("a\\nb", '"')
    ensures ReadScalar(rd.dumps(Joined(["a", "b"], '\n')), rd) == One(Str("a\\nb")) != One(Str("a\nb"))
  {
    TwoJoined("a", "b");
    assert "a" + "\n" + "b" == "a\nb";
    QuotedValue("a\\nb", '"', rd);
    SingleBackslashStays();
  }

  lemma TwoJoined(s: string, t: string)
    ensures Joined([s, t], '\n') == s + "\n" + t
  {
    assert [s, t][1..] == [t];
  }

  lemma SingleBackslashStays()
    ensures Unescaped("a\\nb") == "a\\nb" != "a\nb"
  {
    var s := "a\\nb";
    assert s[1] == '\\' && s[2] == 'n' && s[1..] == "\\nb" && s[1..][1..] == "nb" && "nb"[1..] == "b";
    assert Unescaped("nb") == "nb" && Unescaped("\\nb") == "\\nb";
    assert |s| == 4 && |"a\nb"| == 3;
  }
}
