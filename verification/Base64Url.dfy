/** Unpadded base64url as cos_lib/cosd_grant.py uses it: the alphabet of section 5 of RFC 4648, with
    the padding of section 3.2 stripped by the encoder and restored before decoding. The decoder is
    CPython's lenient one, which skips characters outside the alphabet. */
module Base64Url {
  import opened Common

  type Byte = b: int | 0 <= b < 256

  type Sextet = v: int | 0 <= v < 64

  function Symbol(v: Sextet): char {
    if v < 26 then ('A' as int + v) as char
    else if v < 52 then ('a' as int + v - 26) as char
    else if v < 62 then ('0' as int + v - 52) as char
    else if v == 62 then '-'
    else '_'
  }

  /** The URL-safe symbols are translated to the standard ones first, so both are understood. */
  function SymbolValue(c: char): Option<Sextet> {
    if 'A' <= c <= 'Z' then Some(c as int - 'A' as int)
    else if 'a' <= c <= 'z' then Some(c as int - 'a' as int + 26)
    else if '0' <= c <= '9' then Some(c as int - '0' as int + 52)
    else if c == '-' || c == '+' then Some(62)
    else if c == '_' || c == '/' then Some(63)
    else None
  }

  function Quad(b0: Byte, b1: Byte, b2: Byte): string {
    [Symbol(b0 / 4), Symbol(b0 % 4 * 16 + b1 / 16), Symbol(b1 % 16 * 4 + b2 / 64), Symbol(b2 % 64)]
  }

  function Pair(b0: Byte): string {
    [Symbol(b0 / 4), Symbol(b0 % 4 * 16)]
  }

  function Triple(b0: Byte, b1: Byte): string {
    [Symbol(b0 / 4), Symbol(b0 % 4 * 16 + b1 / 16), Symbol(b1 % 16 * 4)]
  }

  function PaddedEncode(d: seq<Byte>): string {
    if |d| == 0 then ""
    else if |d| == 1 then Pair(d[0]) + "=="
    else if |d| == 2 then Triple(d[0], d[1]) + "="
    else Quad(d[0], d[1], d[2]) + PaddedEncode(d[3..])
  }

  function StripPadding(s: string): string {
    if s != "" && s[|s| - 1] == '=' then StripPadding(s[..|s| - 1]) else s
  }

  function Padding(n: nat): string {
    seq(n, _ => '=')
  }

  function Encode(d: seq<Byte>): string {
    StripPadding(PaddedEncode(d))
  }

  predicate LeftFits(quad: nat, left: nat) {
    match quad
    case 0 => left == 0
    case 1 => left < 64
    case 2 => left < 16
    case 3 => left < 4
    case _ => false
  }

  function Prepend(b: Byte, rest: Option<seq<Byte>>): Option<seq<Byte>> {
    if rest.Some? then Some([b] + rest.value) else None
  }

  /** The decoder's loop, `quad` symbols into a group with `left` bits carried over. */
  function Scan(s: string, quad: nat, left: nat, pads: nat): Option<seq<Byte>>
    requires LeftFits(quad, left)
    decreases |s|
  {
    if s == "" then (if quad == 0 then Some([]) else None)
    else if s[0] == '=' then
      if quad >= 2 && quad + pads + 1 >= 4 then Some([])
      else Scan(s[1..], quad, left, if quad >= 2 then pads + 1 else pads)
    else
      match SymbolValue(s[0])
      case None => Scan(s[1..], quad, left, pads)
      case Some(v) =>
        if quad == 0 then Scan(s[1..], 1, v, 0)
        else if quad == 1 then Prepend(left * 4 + v / 16, Scan(s[1..], 2, v % 16, 0))
        else if quad == 2 then Prepend(left * 16 + v / 4, Scan(s[1..], 3, v % 4, 0))
        else Prepend(left * 64 + v, Scan(s[1..], 0, 0, 0))
  }

  /** `None` when decoding raises. */
  function Decode(s: string): Option<seq<Byte>> {
    if exists i | 0 <= i < |s| :: s[i] >= '\U{80}' then None
    else Scan(s + Padding(-|s| % 4), 0, 0, 0)
  }

  // ---- Decoding undoes encoding --------------------------------------------------------------

  lemma SymbolRoundTrip(v: Sextet)
    ensures SymbolValue(Symbol(v)) == Some(v)
    ensures Symbol(v) != '=' && Symbol(v) != ':' && Symbol(v) < '\U{80}'
  {
  }

  lemma ScanSymbol(v: Sextet, rest: string, quad: nat, left: nat)
    requires LeftFits(quad, left)
    ensures Scan([Symbol(v)] + rest, quad, left, 0) ==
            if quad == 0 then Scan(rest, 1, v, 0)
            else if quad == 1 then Prepend(left * 4 + v / 16, Scan(rest, 2, v % 16, 0))
            else if quad == 2 then Prepend(left * 16 + v / 4, Scan(rest, 3, v % 4, 0))
            else Prepend(left * 64 + v, Scan(rest, 0, 0, 0))
  {
    SymbolRoundTrip(v);
    assert ([Symbol(v)] + rest)[1..] == rest;
  }

  lemma ScanFour(c0: char, c1: char, c2: char, c3: char, rest: string, v0: Sextet, v1: Sextet, v2: Sextet, v3: Sextet)
    requires c0 == Symbol(v0) && c1 == Symbol(v1) && c2 == Symbol(v2) && c3 == Symbol(v3)
    ensures Scan([c0] + ([c1] + ([c2] + ([c3] + rest))), 0, 0, 0)
         == Prepend(v0 * 4 + v1 / 16, Prepend(v1 % 16 * 16 + v2 / 4, Prepend(v2 % 4 * 64 + v3, Scan(rest, 0, 0, 0))))
  {
    ScanFirstTwo(v0, v1, [c2] + ([c3] + rest));
    ScanLastTwo(v1 % 16, v2, v3, rest);
  }

  lemma ScanFirstTwo(v0: Sextet, v1: Sextet, rest: string)
    ensures Scan([Symbol(v0)] + ([Symbol(v1)] + rest), 0, 0, 0)
         == Prepend(v0 * 4 + v1 / 16, Scan(rest, 2, v1 % 16, 0))
  {
    ScanSymbol(v0, [Symbol(v1)] + rest, 0, 0);
    ScanSymbol(v1, rest, 1, v0);
  }

  lemma ScanLastTwo(left: nat, v2: Sextet, v3: Sextet, rest: string)
    requires left < 16
    ensures Scan([Symbol(v2)] + ([Symbol(v3)] + rest), 2, left, 0)
         == Prepend(left * 16 + v2 / 4, Prepend(v2 % 4 * 64 + v3, Scan(rest, 0, 0, 0)))
  {
    ScanSymbol(v2, [Symbol(v3)] + rest, 2, left);
    ScanSymbol(v3, rest, 3, v2 % 4);
  }

  /** The bytes a group of sextets stands for. */
  lemma SextetsHoldBytes(b0: Byte, b1: Byte, b2: Byte)
    ensures var v0, v1, v2, v3 := b0 / 4, b0 % 4 * 16 + b1 / 16, b1 % 16 * 4 + b2 / 64, b2 % 64;
            v0 * 4 + v1 / 16 == b0 && v1 % 16 * 16 + v2 / 4 == b1 && v2 % 4 * 64 + v3 == b2
  {
  }

  lemma ScanQuad(b0: Byte, b1: Byte, b2: Byte, rest: string)
    ensures Scan(Quad(b0, b1, b2) + rest, 0, 0, 0)
         == Prepend(b0, Prepend(b1, Prepend(b2, Scan(rest, 0, 0, 0))))
  {
    var q := Quad(b0, b1, b2);
    assert q + rest == [q[0]] + ([q[1]] + ([q[2]] + ([q[3]] + rest)));
    ScanFour(q[0], q[1], q[2], q[3], rest,
             b0 / 4, b0 % 4 * 16 + b1 / 16, b1 % 16 * 4 + b2 / 64, b2 % 64);
    SextetsHoldBytes(b0, b1, b2);
  }

  lemma ScanPair(b0: Byte)
    ensures Scan(Pair(b0) + "==", 0, 0, 0) == Some([b0])
  {
    var v0, v1 := b0 / 4, b0 % 4 * 16;
    SextetsHoldBytes(b0, 0, 0);
    assert Pair(b0) + "==" == [Symbol(v0)] + ([Symbol(v1)] + "==");
    ScanSymbol(v0, [Symbol(v1)] + "==", 0, 0);
    ScanSymbol(v1, "==", 1, v0);
    assert "=="[1..] == "=";
    assert Scan("==", 2, 0, 0) == Scan("=", 2, 0, 1) == Some([]);
    assert [b0] + [] == [b0];
  }

  lemma ScanTriple(b0: Byte, b1: Byte)
    ensures Scan(Triple(b0, b1) + "=", 0, 0, 0) == Some([b0, b1])
  {
    var v0, v1, v2 := b0 / 4, b0 % 4 * 16 + b1 / 16, b1 % 16 * 4;
    SextetsHoldBytes(b0, b1, 0);
    assert Triple(b0, b1) + "=" == [Symbol(v0)] + ([Symbol(v1)] + ([Symbol(v2)] + "="));
    ScanSymbol(v0, [Symbol(v1)] + ([Symbol(v2)] + "="), 0, 0);
    ScanSymbol(v1, [Symbol(v2)] + "=", 1, v0);
    ScanSymbol(v2, "=", 2, v1 % 16);
    assert Scan("=", 3, 0, 0) == Some([]);
    assert [b0] + ([b1] + []) == [b0, b1];
  }

  lemma {:induction false} ScanUndoesEncode(d: seq<Byte>)
    ensures Scan(PaddedEncode(d), 0, 0, 0) == Some(d)
  {
    if |d| == 1 {
      ScanPair(d[0]);
      assert d == [d[0]];
    } else if |d| == 2 {
      ScanTriple(d[0], d[1]);
      assert d == [d[0], d[1]];
    } else if |d| > 2 {
      ScanUndoesEncode(d[3..]);
      ScanQuad(d[0], d[1], d[2], PaddedEncode(d[3..]));
      assert d == [d[0]] + ([d[1]] + ([d[2]] + d[3..]));
    }
  }

  ghost predicate Clean(s: string) {
    forall i :: 0 <= i < |s| ==> s[i] != '=' && s[i] != ':' && s[i] < '\U{80}'
  }

  lemma GroupIsClean(b0: Byte, b1: Byte, b2: Byte)
    ensures Clean(Quad(b0, b1, b2)) && Clean(Triple(b0, b1)) && Clean(Pair(b0))
  {
    forall v: Sextet ensures Symbol(v) != '=' && Symbol(v) != ':' && Symbol(v) < '\U{80}' {
      SymbolRoundTrip(v);
    }
  }

  lemma CleanAppend(s: string, t: string)
    requires Clean(s) && Clean(t)
    ensures Clean(s + t)
  {
  }

  lemma {:induction false} StripPaddingStops(s: string, n: nat)
    requires Clean(s)
    ensures StripPadding(s + Padding(n)) == s
  {
    if n == 0 {
      assert s + Padding(n) == s;
    } else {
      assert (s + Padding(n))[..|s| + n - 1] == s + Padding(n - 1);
      StripPaddingStops(s, n - 1);
    }
  }

  lemma PaddingOfGroup(n: int)
    ensures -(n + 4) % 4 == -n % 4
  {
  }

  lemma ShortPadding(d: seq<Byte>) returns (bare: string)
    requires |d| < 3
    ensures Clean(bare) && PaddedEncode(d) == bare + Padding(-|bare| % 4)
  {
    assert Padding(0) == "" && Padding(1) == "=" && Padding(2) == "==";
    if |d| == 0 {
      bare := "";
    } else if |d| == 1 {
      bare := Pair(d[0]);
      GroupIsClean(d[0], 0, 0);
    } else {
      bare := Triple(d[0], d[1]);
      GroupIsClean(d[0], d[1], 0);
    }
  }

  /** What the encoder strips is exactly what the decoder restores. */
  lemma {:induction false} PaddingRestored(d: seq<Byte>) returns (bare: string)
    ensures Clean(bare) && PaddedEncode(d) == bare + Padding(-|bare| % 4)
  {
    if |d| < 3 {
      bare := ShortPadding(d);
    } else {
      var rest := PaddingRestored(d[3..]);
      var group := Quad(d[0], d[1], d[2]);
      bare := group + rest;
      GroupIsClean(d[0], d[1], d[2]);
      CleanAppend(group, rest);
      PaddingOfGroup(|rest|);
      assert group + (rest + Padding(-|rest| % 4)) == bare + Padding(-|bare| % 4);
    }
  }

  /** Decoding undoes encoding, and an encoding holds no padding, no colon and only ASCII. */
  lemma DecodeUndoesEncode(d: seq<Byte>)
    ensures Decode(Encode(d)) == Some(d)
    ensures Clean(Encode(d))
  {
    var bare := PaddingRestored(d);
    StripPaddingStops(bare, -|bare| % 4);
    ScanUndoesEncode(d);
  }

  // ---- Which encoding it is ------------------------------------------------------------------

  /** Table 2 of RFC 4648: letters, digits, dash and underscore, each group in order. */
  lemma AlphabetInOrder(v: Sextet)
    ensures Symbol(0) == 'A' && Symbol(25) == 'Z' && Symbol(26) == 'a' && Symbol(51) == 'z'
    ensures Symbol(52) == '0' && Symbol(61) == '9' && Symbol(62) == '-' && Symbol(63) == '_'
    ensures v !in {0, 26, 52, 62, 63} ==> Symbol(v) as int == Symbol(v - 1) as int + 1
  {
  }

  /** A group of three bytes is one number, most significant first, in four digits of base 64; one or
      two bytes are padded with zero bits. */
  lemma GroupIsOneNumber(b0: Byte, b1: Byte, b2: Byte)
    ensures var n := (b0 * 256 + b1) * 256 + b2;
            Quad(b0, b1, b2) ==
              [Symbol(n / 64 / 64 / 64), Symbol(n / 64 / 64 % 64), Symbol(n / 64 % 64), Symbol(n % 64)]
    ensures Triple(b0, b1) == Quad(b0, b1, 0)[..3] && Pair(b0) == Quad(b0, 0, 0)[..2]
  {
    var n := (b0 * 256 + b1) * 256 + b2;
    assert n == ((b0 * 4 + b1 / 64) * 64 + b1 % 64) * 256 + b2;
    assert n / 64 == (b0 * 256 + b1) * 4 + b2 / 64 && n % 64 == b2 % 64;
    assert n / 64 / 64 == b0 * 16 + b1 / 16 && n / 64 % 64 == b1 % 16 * 4 + b2 / 64;
    assert n / 64 / 64 / 64 == b0 / 4 && n / 64 / 64 % 64 == b0 % 4 * 16 + b1 / 16;
  }

  /** The whole encoding: groups of three bytes in order, then what is left over. */
  lemma EncodesInGroups(d: seq<Byte>)
    ensures Encode(d) ==
            if |d| == 0 then ""
            else if |d| == 1 then Pair(d[0])
            else if |d| == 2 then Triple(d[0], d[1])
            else Quad(d[0], d[1], d[2]) + Encode(d[3..])
  {
    if |d| > 2 {
      var rest := PaddingRestored(d[3..]);
      var group := Quad(d[0], d[1], d[2]);
      GroupIsClean(d[0], d[1], d[2]);
      CleanAppend(group, rest);
      assert PaddedEncode(d) == (group + rest) + Padding(-|rest| % 4);
      StripPaddingStops(group + rest, -|rest| % 4);
      StripPaddingStops(rest, -|rest| % 4);
    } else if |d| > 0 {
      GroupIsClean(d[0], d[|d| - 1], 0);
      assert Padding(1) == "=" && Padding(2) == "==";
      StripPaddingStops(if |d| == 1 then Pair(d[0]) else Triple(d[0], d[1]), 3 - |d|);
    }
  }

  lemma GroupFirst(b0: Byte, b1: Byte, b2: Byte, rest: seq<Byte>)
    ensures Encode([b0, b1, b2] + rest) == Quad(b0, b1, b2) + Encode(rest)
  {
    EncodesInGroups([b0, b1, b2] + rest);
    assert ([b0, b1, b2] + rest)[3..] == rest;
  }

  /** Section 10 of RFC 4648 encodes "foobar" as "Zm9vYmFy". */
  lemma KnownEncoding()
    ensures Encode([102, 111, 111] + [98, 97, 114]) == "Zm9v" + "YmFy"
    ensures Encode([102, 111, 111] + [98, 97]) == "Zm9v" + "YmE"
  {
    KnownGroups();
    GroupFirst(102, 111, 111, [98, 97, 114]);
    GroupFirst(102, 111, 111, [98, 97]);
  }

  lemma KnownGroups()
    ensures Quad(102, 111, 111) == "Zm9v"
    ensures Encode([98, 97, 114]) == "YmFy" && Encode([98, 97]) == "YmE"
  {
    EncodesInGroups([98, 97, 114]);
    EncodesInGroups([98, 97]);
    assert [98, 97, 114][3..] == [];
    EncodesInGroups([]);
  }

  predicate InAlphabet(c: char) {
    exists v: Sextet :: Symbol(v) == c
  }

  /** Texts that the decoder's loop takes alike in every state. */
  ghost predicate ScanAlike(x: string, y: string) {
    forall quad, left, pads | LeftFits(quad, left) :: Scan(x, quad, left, pads) == Scan(y, quad, left, pads)
  }

  lemma {:induction false} AlikeBehind(s: string, x: string, y: string)
    requires ScanAlike(x, y)
    ensures ScanAlike(s + x, s + y)
  {
    if s == "" {
      assert s + x == x && s + y == y;
    } else {
      AlikeBehind(s[1..], x, y);
      assert (s + x)[1..] == s[1..] + x && (s + y)[1..] == s[1..] + y;
    }
  }

  /** The decoder skips a character outside both alphabets, and reads the two standard symbols like
      the URL-safe ones. */
  lemma DecoderIsLenient(s: string, c: char, t: string)
    ensures c !in {'=', '+', '/'} && !InAlphabet(c) ==> ScanAlike(s + ([c] + t), s + t)
    ensures ScanAlike(s + ("+" + t), s + ("-" + t)) && ScanAlike(s + ("/" + t), s + ("_" + t))
  {
    assert ([c] + t)[1..] == t && ("+" + t)[1..] == ("-" + t)[1..] == ("/" + t)[1..] == ("_" + t)[1..] == t;
    AlikeBehind(s, "+" + t, "-" + t);
    AlikeBehind(s, "/" + t, "_" + t);
    if c !in {'=', '+', '/'} && !InAlphabet(c) {
      OnlyAlphabet(c);
      AlikeBehind(s, [c] + t, t);
    }
  }

  lemma OnlyAlphabet(c: char)
    ensures InAlphabet(c) <==> SymbolValue(c).Some? && c !in {'+', '/'}
  {
    if v: Sextet :| Symbol(v) == c {
      SymbolRoundTrip(v);
    }
    assert SymbolValue(c).Some? ==> c in {'+', '/'} || Symbol(SymbolValue(c).value) == c;
  }
}
