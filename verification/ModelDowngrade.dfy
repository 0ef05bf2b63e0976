/** The model downgrade that a degradation writes into the log and a later lookup reads back out of
    its wording (cos_lib/consequence_engine.py and cos_lib/model_catalog.py). */
module ModelDowngrade {
  import opened Common

  /** `resolve` is the canonical name of a model, if the name is known, and `lower` Python's
      `str.lower`. */
  datatype Catalog = Catalog(resolve: string -> Option<string>, lower: string -> string)

  const FREE := "openrouter/free"
  const HAIKU := "claude-haiku-3.5"
  const SONNET := "claude-sonnet-4"
  const OPUS := "claude-opus-4-6"

  const GENERIC := "use " + ANY_CHEAPER
  const ANY_CHEAPER := "cheaper model + require human review"

  /** The next cheaper model of the chain. */
  function Cheaper(model: string): Option<string> {
    if model == OPUS then Some(SONNET)
    else if model == SONNET then Some(HAIKU)
    else if model == HAIKU then Some(FREE)
    else None
  }

  /** The first family named in `name`, with its model. */
  function Family(name: string): Option<(string, string)> {
    if Contains(name, "opus") then Some(("opus", OPUS))
    else if Contains(name, "sonnet") then Some(("sonnet", SONNET))
    else if Contains(name, "haiku") then Some(("haiku", HAIKU))
    else None
  }

  /** The name that is degraded and the model suggested instead. */
  function Suggestion(target: string, c: Catalog): Option<(string, string)> {
    match c.resolve(target)
    case Some(model) => if Cheaper(model).Some? then Some((target, Cheaper(model).value)) else None
    case None =>
      match Family(c.lower(target))
      case Some((family, model)) => Some((family, Cheaper(model).value))
      case None => None
  }

  function Note(from: string, to: string): string {
    "downgrade " + from + " -> " + to
  }

  function SuggestedDowngrade(target: string, c: Catalog): string {
    match Suggestion(target, c)
    case Some((from, to)) => Note(from, to)
    case None => GENERIC
  }

  /** The model tier a note is read as. */
  function TierOf(note: string): string {
    if Contains(note, "-> haiku") then "haiku"
    else if Contains(note, "-> sonnet") then "sonnet"
    else if Contains(note, "-> opus") then "opus"
    else if Contains(note, "opus") then "sonnet"
    else "haiku"
  }

  // ---- Where a part of a note can be -----------------------------------------------------------

  lemma Straddles(a: string, sep: char, b: string, part: string, i: nat)
    requires i <= |a| < i + |part| && OccursAt(a + [sep] + b, part, i)
    ensures sep in part
  {
    assert part[|a| - i] == (a + [sep] + b)[i..][|a| - i];
  }

  lemma ContainsAcross(a: string, sep: char, b: string, part: string)
    requires sep !in part
    ensures Contains(a + [sep] + b, part) <==> Contains(a, part) || Contains(b, part)
  {
    var whole := a + [sep] + b;
    if i :| 0 <= i <= |whole| && OccursAt(whole, part, i) {
      if i + |part| <= |a| {
        assert whole[i..i + |part|] == a[i..i + |part|];
        assert OccursAt(a, part, i);
      } else if i > |a| {
        assert whole[i..] == b[i - |a| - 1..];
        assert OccursAt(b, part, i - |a| - 1);
      } else {
        Straddles(a, sep, b, part, i);
      }
    }
    if i :| 0 <= i <= |a| && OccursAt(a, part, i) {
      assert whole[i..] == a[i..] + ([sep] + b);
      assert OccursAt(whole, part, i);
    }
    if i :| 0 <= i <= |b| && OccursAt(b, part, i) {
      assert whole[|a| + 1 + i..] == b[i..];
      assert OccursAt(whole, part, |a| + 1 + i);
    }
  }

  lemma LacksLetter(whole: string, part: string, c: char)
    requires c in part && c !in whole
    ensures !Contains(whole, part)
  {
    var j :| 0 <= j < |part| && part[j] == c;
    forall i | 0 <= i <= |whole| ensures !OccursAt(whole, part, i) {
      assert i + j < |whole| ==> whole[i..][j] != part[j];
    }
  }

  /** Behind the one arrow of a note stands the suggested model. */
  lemma BehindTheArrow(from: string, to: string, word: string)
    requires '>' !in from && '>' !in to
    requires Contains(Note(from, to), "-> " + word)
    ensures word <= to
  {
    var note, part := Note(from, to), "-> " + word;
    var i :| 0 <= i <= |note| && OccursAt(note, part, i);
    var front := "downgrade " + from + " -";
    assert '>' !in front;
    assert note == front + "> " + to;
    ArrowIsHere(front, to, part, i);
    assert part[3..] == word;
  }

  lemma ArrowIsHere(front: string, to: string, part: string, i: nat)
    requires '>' !in front && '>' !in to
    requires |part| >= 3 && part[1] == '>' && part[2] == ' '
    requires i <= |front + "> " + to| && OccursAt(front + "> " + to, part, i)
    ensures part[3..] <= to
  {
    var note := front + "> " + to;
    assert note[i + 1] == '>';
    assert i + 1 == |front|;
    assert note[i..][3..] == to;
  }

  lemma OpusInNote(from: string, to: string)
    requires to in {FREE, HAIKU, SONNET}
    ensures Contains(Note(from, to), "opus") <==> Contains(from, "opus")
  {
    assert Note(from, to) == "downgrade" + [' '] + (from + [' '] + ("->" + [' '] + to));
    ContainsAcross("downgrade", ' ', from + [' '] + ("->" + [' '] + to), "opus");
    ContainsAcross(from, ' ', "->" + [' '] + to, "opus");
    ContainsAcross("->", ' ', to, "opus");
    LacksLetter("downgrade", "opus", 's');
    LacksLetter("->", "opus", 's');
    LacksLetter(to, "opus", if to == FREE then 's' else 'p');
  }

  /** No tier name is what the model names begin with, so only the keyword decides. */
  lemma TierOfNote(from: string, to: string)
    requires '>' !in from && to in {FREE, HAIKU, SONNET}
    ensures TierOf(Note(from, to)) == if Contains(from, "opus") then "sonnet" else "haiku"
  {
    OpusInNote(from, to);
    NoArrowTier(from, to, "haiku");
    NoArrowTier(from, to, "sonnet");
    NoArrowTier(from, to, "opus");
    assert "-> " + "haiku" == "-> haiku" && "-> " + "sonnet" == "-> sonnet" && "-> " + "opus" == "-> opus";
  }

  lemma NoArrowTier(from: string, to: string, word: string)
    requires '>' !in from && to in {FREE, HAIKU, SONNET}
    requires word in {"haiku", "sonnet", "opus"}
    ensures !Contains(Note(from, to), "-> " + word)
  {
    assert word[0] != to[0] || word[2] != to[2];
    if Contains(Note(from, to), "-> " + word) {
      BehindTheArrow(from, to, word);
    }
  }

  // ---- Main results ------------------------------------------------------------------------------

  /** From the cheapest to the most expensive. */
  const CHAIN := [FREE, HAIKU, SONNET, OPUS]

  /** The suggestion goes one step down the chain from a known model, and from a name that is not
      known to the model below the first family named in it. */
  lemma SuggestionExactly(target: string, c: Catalog, to: string)
    ensures match c.resolve(target)
            case Some(model) =>
              Suggestion(target, c) == Some((target, to)) <==>
              exists i :: 0 <= i < 3 && CHAIN[i] == to && CHAIN[i + 1] == model
            case None =>
              Suggestion(target, c) ==
                if Contains(c.lower(target), "opus") then Some(("opus", "claude-sonnet-4"))
                else if Contains(c.lower(target), "sonnet") then Some(("sonnet", "claude-haiku-3.5"))
                else if Contains(c.lower(target), "haiku") then Some(("haiku", "openrouter/free"))
                else None
    ensures Suggestion(target, c).Some? ==>
              var (name, cheaper) := Suggestion(target, c).value;
              SuggestedDowngrade(target, c) == "downgrade " + name + " -> " + cheaper
    ensures Suggestion(target, c).None? ==>
              SuggestedDowngrade(target, c) == "use " + "cheaper model + require human review"
  {
    ChainIsDistinct();
    match c.resolve(target)
    case Some(model) => CheaperIsBefore(model, to);
    case None =>
  }

  lemma ChainIsDistinct()
    ensures FREE != HAIKU && FREE != SONNET && FREE != OPUS && HAIKU != SONNET && HAIKU != OPUS && SONNET != OPUS
  {
    assert |FREE| == 15 && |HAIKU| == 16 && |SONNET| == 15 && |OPUS| == 15;
    assert FREE[0] == 'o' && SONNET[0] == OPUS[0] == 'c' && SONNET[7] == 's' && OPUS[7] == 'o';
  }

  lemma CheaperIsBefore(model: string, to: string)
    ensures Cheaper(model) == Some(to) <==> exists i :: 0 <= i < 3 && CHAIN[i] == to && CHAIN[i + 1] == model
  {
    ChainIsDistinct();
    if Cheaper(model) == Some(to) {
      var i := if model == HAIKU then 0 else if model == SONNET then 1 else 2;
      assert CHAIN[i] == to && CHAIN[i + 1] == model;
    }
  }

  /** The tier forced on a degraded target is that of the model its note suggests exactly when the
      note goes from a name with "opus" in it to the sonnet model, or from another to the haiku one. */
  lemma ForcedTierExactly(target: string, c: Catalog)
    requires c.resolve(target).Some? ==> '>' !in target
    ensures var tier := TierOf(SuggestedDowngrade(target, c));
            match Suggestion(target, c)
            case Some((from, to)) =>
              && tier == (if Contains(from, "opus") then "sonnet" else "haiku")
              && (Contains(to, tier) <==> to == if Contains(from, "opus") then SONNET else HAIKU)
            case None => tier == "haiku"
  {
    match Suggestion(target, c)
    case Some((from, to)) =>
      TierOfNote(from, to);
      ModelTier(to);
    case None =>
      GenericTier();
  }

  lemma ModelTier(to: string)
    requires to in {FREE, HAIKU, SONNET}
    ensures Contains(to, "sonnet") <==> to == SONNET
    ensures Contains(to, "haiku") <==> to == HAIKU
  {
    if to != SONNET {
      LacksLetter(to, "sonnet", 's');
    } else {
      assert OccursAt(SONNET, "sonnet", 7);
    }
    if to != HAIKU {
      LacksLetter(to, "haiku", 'h');
    } else {
      assert OccursAt(HAIKU, "haiku", 7);
    }
  }

  lemma GenericTier()
    ensures TierOf(GENERIC) == "haiku"
  {
    assert '>' !in GENERIC;
    LacksLetter(GENERIC, "-> haiku", '>');
    LacksLetter(GENERIC, "-> sonnet", '>');
    LacksLetter(GENERIC, "-> opus", '>');
    NoOpusInGeneric();
  }

  lemma NoOpusInGeneric()
    ensures !Contains(GENERIC, "opus")
  {
    ContainsAcross("use", ' ', ANY_CHEAPER, "opus");
    LacksLetter("use", "opus", 'o');
    LacksLetter(ANY_CHEAPER, "opus", 's');
    assert "use " == "use" + [' '];
  }

  /** An opus model known under a name without "opus" is forced two tiers down, past the sonnet model
      its note suggests. */
  lemma FableIsForcedTooLow(c: Catalog)
    requires c.resolve("fable") == Some(OPUS)
    ensures Suggestion("fable", c) == Some(("fable", SONNET))
    ensures TierOf(SuggestedDowngrade("fable", c)) == "haiku"
  {
    ForcedTierExactly("fable", c);
    LacksLetter("fable", "opus", 'o');
  }
}
