/** Small pieces shared by the models: an optional value, and the Python slicing and search rules
    that several of the modelled functions rely on. */
module Common {

  datatype Option<+T> = None | Some(value: T)

  function Max(a: int, b: int): int {
    if a < b then b else a
  }

  function Min(a: int, b: int): int {
    if a < b then a else b
  }

  /** The position at which Python cuts a list of length `n` for both `s[:k]` and `s[k:]`. */
  function Cut(n: nat, k: int): (i: nat)
    ensures i <= n
  {
    if k < 0 then Max(0, n + k) else Min(n, k)
  }

  /** Python's `int(x)` on a float: truncation toward zero. */
  function Trunc(x: real): (r: int)
    ensures x >= 0.0 ==> r as real <= x < r as real + 1.0
    ensures x <= 0.0 ==> r as real - 1.0 < x <= r as real
  {
    if x < 0.0 then -((-x).Floor) else x.Floor
  }

  /** Python's `part in whole` on strings. */
  predicate Contains(whole: string, part: string) {
    exists i | 0 <= i <= |whole| :: OccursAt(whole, part, i)
  }

  predicate OccursAt(whole: string, part: string, i: nat)
    requires i <= |whole|
  {
    part <= whole[i..]
  }

  /** White space, as Python's `str.strip` sees it. */
  predicate IsSpace(c: char) {
    || c == ' ' || '\t' <= c <= '\r' || '\U{1c}' <= c <= '\U{1f}' || c == '\U{85}' || c == '\U{a0}'
    || c == '\U{1680}' || '\U{2000}' <= c <= '\U{200a}' || c == '\U{2028}' || c == '\U{2029}'
    || c == '\U{202f}' || c == '\U{205f}' || c == '\U{3000}'
  }

  // ---- Decimal numerals ----------------------------------------------------------------------

  function Digit(d: nat): char
    requires d < 10
  {
    ('0' as int + d) as char
  }

  predicate IsDigit(c: char) {
    '0' <= c <= '9'
  }

  function Decimal(n: nat): (s: string)
    ensures s != "" && forall c :: c in s ==> IsDigit(c)
  {
    if n < 10 then [Digit(n)] else Decimal(n / 10) + [Digit(n % 10)]
  }

  // ---- Splitting at a separator ----------------------------------------------------------------

  /** Python's `s.split(sep)`. */
  function Split(s: string, sep: char): (parts: seq<string>)
    ensures |parts| > 0
  {
    if s == "" then [""]
    else if s[0] == sep then [""] + Split(s[1..], sep)
    else
      var parts := Split(s[1..], sep);
      [[s[0]] + parts[0]] + parts[1..]
  }

  ghost predicate Free(s: string, sep: char) {
    forall i :: 0 <= i < |s| ==> s[i] != sep
  }

  lemma {:induction false} SplitFree(s: string, sep: char)
    requires Free(s, sep)
    ensures Split(s, sep) == [s]
  {
    if s != "" {
      SplitFree(s[1..], sep);
      assert [s[0]] + s[1..] == s;
    }
  }

  lemma {:induction false} SplitAt(s: string, t: string, sep: char)
    requires Free(s, sep)
    ensures Split(s + [sep] + t, sep) == [s] + Split(t, sep)
  {
    var whole := s + [sep] + t;
    if s == "" {
      assert whole[1..] == t;
    } else {
      assert whole[1..] == s[1..] + [sep] + t;
      SplitAt(s[1..], t, sep);
      assert [s[0]] + s[1..] == s;
    }
  }

  // ---- Joining ---------------------------------------------------------------------------------

  /** Python's `sep.join(parts)`. */
  function Joined(parts: seq<string>, sep: char): string {
    if parts == [] then ""
    else if |parts| == 1 then parts[0]
    else parts[0] + [sep] + Joined(parts[1..], sep)
  }

  lemma {:induction false} JoinedAppend(parts: seq<string>, last: string, sep: char)
    requires parts != []
    ensures Joined(parts + [last], sep) == Joined(parts, sep) + [sep] + last
  {
    if |parts| == 1 {
      assert (parts + [last])[1..] == [last];
    } else {
      assert (parts + [last])[1..] == parts[1..] + [last];
      JoinedAppend(parts[1..], last, sep);
    }
  }

  // ---- Stripping both ends ------------------------------------------------------------------------

  function StripLeft(s: string, drop: char -> bool): string {
    if s != [] && drop(s[0]) then StripLeft(s[1..], drop) else s
  }

  function StripRight(s: string, drop: char -> bool): string {
    if s != [] && drop(s[|s| - 1]) then StripRight(s[..|s| - 1], drop) else s
  }

  function Strip(s: string, drop: char -> bool): string {
    StripRight(StripLeft(s, drop), drop)
  }

  lemma {:induction false} StripLeftKeeps(s: string, drop: char -> bool)
    ensures var t := StripLeft(s, drop);
            |t| <= |s| && t == s[|s| - |t|..] && (t != [] ==> !drop(t[0]))
  {
    if s != [] && drop(s[0]) {
      StripLeftKeeps(s[1..], drop);
    }
  }

  lemma {:induction false} StripRightKeeps(s: string, drop: char -> bool)
    ensures StripRight(s, drop) <= s
    ensures var t := StripRight(s, drop); t != [] ==> !drop(t[|t| - 1])
  {
    if s != [] && drop(s[|s| - 1]) {
      StripRightKeeps(s[..|s| - 1], drop);
    }
  }

  lemma StripKeeps(s: string, drop: char -> bool)
    requires s != "" ==> !drop(s[0]) && !drop(s[|s| - 1])
    ensures Strip(s, drop) == s
  {
  }
}
