/** Scalars as they are printed and read back by the fallback YAML loader (yaml.py). */
module YamlScalars {
  import opened Common
  import opened YamlText

  datatype Atom = Nothing | Truth(b: bool) | Number(i: int) | Text(text: string)

  function AtomValue(a: Atom): Scalar {
    match a
    case Nothing => Null
    case Truth(b) => Boolean(b)
    case Number(i) => Integer(i)
    case Text(t) => Str(t)
  }

  /** A way to print scalars: `show` is for those that satisfy `ok`. */
  datatype Printer = Printer(ok: Atom -> bool, show: Atom -> string, rd: Readers)

  /** What a printed scalar must look like: one line without white space around it, which is no anchor
      and opens no block, and which is quoted if it holds a hash or a colon. */
  ghost predicate AtomShape(s: string) {
    && s != "" && Trimmed(s) && OneLine(s) && s[0] != '&'
    && ('#' in s || ':' in s ==> s[0] == '"' && IsSegment(s))
    && s !in {">", "|", ">-", "|-"}
  }

  /** With a space before it or not, the text is read as the scalar. */
  ghost predicate ReadsAs(s: string, a: Atom, rd: Readers) {
    AtomShape(s) && ReadScalar(s, rd) == ReadScalar(" " + s, rd) == One(AtomValue(a))
  }

  ghost predicate Correct(p: Printer) {
    forall a: Atom :: p.ok(a) ==> ReadsAs(p.show(a), a, p.rd)
  }

  // ---- The standard printer --------------------------------------------------------------------------

  /** A text that needs no quotes. */
  ghost predicate SafeWord(t: string, rd: Readers) {
    && PlainWord(t, rd) && OneLine(t) && ':' !in t && '#' !in t
    && t[0] != '&' && t !in {">", "|", ">-", "|-"}
  }

  /** null, true, false, a decimal numeral, the text as it is, or in double quotes. */
  ghost function AtomText(a: Atom, rd: Readers): string {
    match a
    case Nothing => "null"
    case Truth(b) => if b then "true" else "false"
    case Number(i) => Numeral(i)
    case Text(t) => if SafeWord(t, rd) then t else InQuotes(Escaped(t), '"')
  }

  /** A quoted text holds no double quote and no line break. */
  ghost predicate PrintableAtom(a: Atom, rd: Readers) {
    a.Text? && !SafeWord(a.text, rd) ==> '"' !in a.text && OneLine(a.text)
  }

  ghost function StandardPrinter(rd: Readers): Printer {
    Printer(a => PrintableAtom(a, rd), a => AtomText(a, rd), rd)
  }

  lemma {:induction false} EscapedKeeps(t: string)
    requires '"' !in t && OneLine(t)
    ensures '"' !in Escaped(t) && OneLine(Escaped(t))
  {
    if t != "" {
      assert t[0] in t && forall c <- t[1..] :: c in t;
      EscapedKeeps(t[1..]);
    }
  }

  lemma QuotedShape(t: string)
    requires '"' !in t && OneLine(t)
    ensures AtomShape(InQuotes(t, '"'))
  {
    var s := InQuotes(t, '"');
    assert s[1..|s| - 1] == t && |s| >= 2 && s[|s| - 1] == '"';
    assert OneLine(s);
  }

  lemma AtomHasShape(a: Atom, rd: Readers)
    requires PrintableAtom(a, rd)
    ensures AtomShape(AtomText(a, rd))
  {
    match a
    case Number(i) => NumeralShape(i);
    case Text(t) =>
      if !SafeWord(t, rd) {
        EscapedKeeps(t);
        QuotedShape(Escaped(t));
      }
    case _ =>
  }

  /** null, the booleans, integers, plain words and quoted texts are read back. */
  lemma AtomIsRead(a: Atom, rd: Readers)
    requires PrintableAtom(a, rd)
    ensures ReadsAs(AtomText(a, rd), a, rd)
  {
    AtomHasShape(a, rd);
    WordsAreRead(AtomText(a, rd), rd);
    match a
    case Number(i) => NumeralReadsBack(i, rd);
    case Text(t) =>
      if SafeWord(t, rd) {
        PlainWordIsRead(t, rd);
      } else {
        QuotedIsRead(t, rd);
      }
    case _ =>
  }

  lemma StandardIsCorrect(rd: Readers)
    ensures Correct(StandardPrinter(rd))
  {
    forall a: Atom | PrintableAtom(a, rd) ensures ReadsAs(AtomText(a, rd), a, rd) {
      AtomIsRead(a, rd);
    }
  }

  /** A printed scalar holds a hash only if it is a text with one. */
  lemma HashOnlyInText(a: Atom, rd: Readers)
    ensures '#' in AtomText(a, rd) ==> a.Text? && '#' in a.text
  {
    match a
    case Number(i) => NumeralShape(i);
    case Text(t) =>
      if !SafeWord(t, rd) {
        HashIsKept(t);
        assert '#' in InQuotes(Escaped(t), '"') ==> '#' in Escaped(t);
      }
    case _ =>
  }

  lemma {:induction false} HashIsKept(t: string)
    ensures '#' in Escaped(t) ==> '#' in t
  {
    if t != "" {
      HashIsKept(t[1..]);
    }
  }
}
