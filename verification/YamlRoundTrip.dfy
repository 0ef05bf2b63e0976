/** Loading undoes printing: the fallback loader rebuilds every printed tree. */
module YamlRoundTrip {
  import opened Common
  import opened YamlText
  import opened YamlScalars
  import opened YamlLoader

  /** Trees of mappings and lists; a list holds scalars and mappings. */
  datatype Node = Single(atom: Atom) | Listing(items: Items) | Mapping(entries: Entries)

  datatype Items = NoItems | AtomItem(atom: Atom, more: Items) | EntriesItem(entries: Entries, more: Items)

  datatype Entries = End | Entry(key: string, node: Node, rest: Entries)

  // ---- Printing: two spaces a level, list items one level deeper ---------------------------------

  /** The first line moves two places to the left, behind a dash. */
  function Dashed(lines: seq<Line>, depth: nat): seq<Line> {
    if lines == [] then [] else [Line(2 * depth, "- " + lines[0].text)] + lines[1..]
  }

  ghost function ItemLines(items: Items, depth: nat, p: Printer): seq<Line>
    decreases items
  {
    match items
    case NoItems => []
    case AtomItem(a, more) => [Line(2 * depth, "- " + p.show(a))] + ItemLines(more, depth, p)
    case EntriesItem(es, more) => Dashed(Lines(es, depth + 1, p), depth) + ItemLines(more, depth, p)
  }

  ghost function NodeLines(key: string, node: Node, depth: nat, p: Printer): seq<Line>
    decreases node
  {
    match node
    case Single(a) => [Line(2 * depth, key + ": " + p.show(a))]
    case Listing(items) => [Line(2 * depth, key + ":")] + ItemLines(items, depth + 1, p)
    case Mapping(entries) => [Line(2 * depth, key + ":")] + Lines(entries, depth + 1, p)
  }

  ghost function Lines(es: Entries, depth: nat, p: Printer): seq<Line>
    decreases es
  {
    match es
    case End => []
    case Entry(key, node, rest) => NodeLines(key, node, depth, p) + Lines(rest, depth, p)
  }

  // ---- Printable trees -----------------------------------------------------------------------------

  predicate PlainKey(key: string) {
    var trimmed := key != "" && !IsSpace(key[0]) && !IsSpace(key[|key| - 1]);
    var clean := ':' !in key && '#' !in key && !IsItem(key) && OneLine(key);
    trimmed && clean
  }

  function Keys(es: Entries): set<string> {
    if es.End? then {} else {es.key} + Keys(es.rest)
  }

  predicate HasQuote(s: string) {
    '\'' in s || '"' in s
  }

  ghost predicate PrintableNode(key: string, node: Node, p: Printer)
    decreases node
  {
    match node
    case Single(a) => p.ok(a) && ('#' in p.show(a) ==> !HasQuote(key))
    case Listing(items) => PrintableItems(items, p)
    case Mapping(entries) => Printable(entries, p)
  }

  /** A mapping in a list begins with a scalar. */
  ghost predicate PrintableItems(items: Items, p: Printer)
    decreases items
  {
    match items
    case NoItems => true
    case AtomItem(a, more) => p.ok(a) && PrintableItems(more, p)
    case EntriesItem(es, more) =>
      && es.Entry? && es.node.Single? && Printable(es, p) && es.key[0] !in {'\'', '"'}
      && PrintableItems(more, p)
  }

  /** Plain keys, distinct within a mapping; one with a quote in it may not go with a hash in a text. */
  ghost predicate Printable(es: Entries, p: Printer)
    decreases es
  {
    es.Entry? ==>
      && PlainKey(es.key) && es.key !in Keys(es.rest) && PrintableNode(es.key, es.node, p)
      && Printable(es.rest, p)
  }

  // ---- Empty lists print like empty mappings -------------------------------------------------------

  function EmptiedNode(node: Node): Node
    decreases node
  {
    match node
    case Single(a) => node
    case Listing(items) => if items.NoItems? then Mapping(End) else Listing(EmptiedItems(items))
    case Mapping(entries) => Mapping(Emptied(entries))
  }

  function EmptiedItems(items: Items): Items
    decreases items
  {
    match items
    case NoItems => NoItems
    case AtomItem(a, more) => AtomItem(a, EmptiedItems(more))
    case EntriesItem(es, more) => EntriesItem(Emptied(es), EmptiedItems(more))
  }

  /** Every empty list made an empty mapping. */
  function Emptied(es: Entries): Entries
    decreases es
  {
    if es.End? then End else Entry(es.key, EmptiedNode(es.node), Emptied(es.rest))
  }

  predicate FullNode(node: Node)
    decreases node
  {
    match node
    case Single(_) => true
    case Listing(items) => items != NoItems && FullItems(items)
    case Mapping(entries) => Full(entries)
  }

  predicate FullItems(items: Items)
    decreases items
  {
    match items
    case NoItems => true
    case AtomItem(_, more) => FullItems(more)
    case EntriesItem(es, more) => Full(es) && FullItems(more)
  }

  /** No list is empty. */
  predicate Full(es: Entries)
    decreases es
  {
    es.Entry? ==> FullNode(es.node) && Full(es.rest)
  }

  lemma {:induction false} EmptiedIsFull(es: Entries, p: Printer)
    ensures Keys(Emptied(es)) == Keys(es) && Full(Emptied(es))
    ensures Printable(es, p) ==> Printable(Emptied(es), p)
    ensures Emptied(es) == es <==> Full(es)
    decreases es
  {
    if es.Entry? {
      EmptiedIsFull(es.rest, p);
      EmptiedNodeIsFull(es.key, es.node, p);
    }
  }

  lemma {:induction false} EmptiedNodeIsFull(key: string, node: Node, p: Printer)
    ensures FullNode(EmptiedNode(node))
    ensures PrintableNode(key, node, p) ==> PrintableNode(key, EmptiedNode(node), p)
    ensures EmptiedNode(node) == node <==> FullNode(node)
    decreases node
  {
    match node
    case Single(_) =>
    case Listing(items) => EmptiedItemsAreFull(items, p);
    case Mapping(entries) => EmptiedIsFull(entries, p);
  }

  lemma {:induction false} EmptiedItemsAreFull(items: Items, p: Printer)
    ensures FullItems(EmptiedItems(items)) && (EmptiedItems(items) == NoItems <==> items == NoItems)
    ensures PrintableItems(items, p) ==> PrintableItems(EmptiedItems(items), p)
    ensures EmptiedItems(items) == items <==> FullItems(items)
    decreases items
  {
    match items
    case NoItems =>
    case AtomItem(_, more) => EmptiedItemsAreFull(more, p);
    case EntriesItem(es, more) =>
      EmptiedIsFull(es, p);
      EmptiedItemsAreFull(more, p);
  }

  lemma {:induction false} EmptiedPrintsAlike(es: Entries, depth: nat, p: Printer)
    ensures Lines(Emptied(es), depth, p) == Lines(es, depth, p)
    decreases es
  {
    if es.Entry? {
      EmptiedPrintsAlike(es.rest, depth, p);
      match es.node
      case Single(_) =>
      case Listing(items) => EmptiedItemsPrintAlike(items, depth + 1, p);
      case Mapping(entries) => EmptiedPrintsAlike(entries, depth + 1, p);
    }
  }

  lemma {:induction false} EmptiedItemsPrintAlike(items: Items, depth: nat, p: Printer)
    ensures ItemLines(EmptiedItems(items), depth, p) == ItemLines(items, depth, p)
    decreases items
  {
    match items
    case NoItems =>
    case AtomItem(_, more) => EmptiedItemsPrintAlike(more, depth, p);
    case EntriesItem(es, more) =>
      EmptiedPrintsAlike(es, depth + 1, p);
      EmptiedItemsPrintAlike(more, depth, p);
  }

  // ---- What a value in a heap stands for -------------------------------------------------------------

  /** `value` is exactly the tree `node`, in containers of the heap from `low` up to `high`. */
  ghost predicate Stands(heap: Heap, value: Value, node: Node, low: nat, high: nat)
    decreases node
  {
    match node
    case Single(a) => value == Leaf(AtomValue(a))
    case Listing(items) =>
      && value.Ref? && low <= value.id < high <= |heap| && heap[value.id].List?
      && StandIn(heap, heap[value.id].items, items, low, high)
    case Mapping(entries) => StandsAsDict(heap, value, entries, low, high)
  }

  ghost predicate StandsAsDict(heap: Heap, value: Value, es: Entries, low: nat, high: nat)
    decreases es, 1
  {
    && value.Ref? && low <= value.id < high <= |heap| && heap[value.id].Dict?
    && StandFor(heap, heap[value.id].entries, es, low, high)
  }

  ghost predicate StandIn(heap: Heap, values: seq<Value>, items: Items, low: nat, high: nat)
    decreases items
  {
    match items
    case NoItems => values == []
    case AtomItem(a, more) =>
      && values != [] && values[0] == Leaf(AtomValue(a))
      && StandIn(heap, values[1..], more, low, high)
    case EntriesItem(es, more) =>
      && values != [] && StandsAsDict(heap, values[0], es, low, high)
      && StandIn(heap, values[1..], more, low, high)
  }

  ghost predicate StandFor(heap: Heap, entries: seq<(string, Value)>, es: Entries, low: nat, high: nat)
    decreases es, 0
  {
    match es
    case End => entries == []
    case Entry(key, node, rest) =>
      && entries != [] && entries[0].0 == key
      && Stands(heap, entries[0].1, node, low, high)
      && StandFor(heap, entries[1..], rest, low, high)
  }

  ghost predicate SameBetween(heap: Heap, heap': Heap, low: nat, high: nat) {
    high <= |heap| <= |heap'| && forall id :: low <= id < high ==> heap'[id] == heap[id]
  }

  lemma {:induction false} StandsStill(heap: Heap, heap': Heap, value: Value, node: Node,
                                       low: nat, high: nat, low': nat, high': nat)
    requires Stands(heap, value, node, low, high) && high <= |heap|
    requires SameBetween(heap, heap', low, high) && low' <= low && high <= high' <= |heap'|
    ensures Stands(heap', value, node, low', high')
    decreases node
  {
    match node
    case Single(_) =>
    case Listing(items) => StandInStill(heap, heap', heap[value.id].items, items, low, high, low', high');
    case Mapping(es) => StandForStill(heap, heap', heap[value.id].entries, es, low, high, low', high');
  }

  lemma {:induction false} StandInStill(heap: Heap, heap': Heap, values: seq<Value>, items: Items,
                                        low: nat, high: nat, low': nat, high': nat)
    requires StandIn(heap, values, items, low, high) && high <= |heap|
    requires SameBetween(heap, heap', low, high) && low' <= low && high <= high' <= |heap'|
    ensures StandIn(heap', values, items, low', high')
    decreases items
  {
    match items
    case NoItems =>
    case AtomItem(_, more) => StandInStill(heap, heap', values[1..], more, low, high, low', high');
    case EntriesItem(es, more) =>
      StandForStill(heap, heap', heap[values[0].id].entries, es, low, high, low', high');
      StandInStill(heap, heap', values[1..], more, low, high, low', high');
  }

  lemma {:induction false} StandForStill(heap: Heap, heap': Heap, entries: seq<(string, Value)>, es: Entries,
                                         low: nat, high: nat, low': nat, high': nat)
    requires StandFor(heap, entries, es, low, high) && high <= |heap|
    requires SameBetween(heap, heap', low, high) && low' <= low && high <= high' <= |heap'|
    ensures StandFor(heap', entries, es, low', high')
    decreases es
  {
    if es.Entry? {
      StandsStill(heap, heap', entries[0].1, es.node, low, high, low', high');
      StandForStill(heap, heap', entries[1..], es.rest, low, high, low', high');
    }
  }

  /** A value stands for one tree only, so what is loaded is fully determined. */
  lemma {:induction false} StandsIsUnique(heap: Heap, value: Value, node: Node, node': Node, low: nat, high: nat)
    requires Stands(heap, value, node, low, high) && Stands(heap, value, node', low, high)
    ensures node == node'
    decreases node
  {
    match node
    case Single(_) =>
    case Listing(items) => StandInIsUnique(heap, heap[value.id].items, items, node'.items, low, high);
    case Mapping(es) => StandForIsUnique(heap, heap[value.id].entries, es, node'.entries, low, high);
  }

  lemma {:induction false} StandInIsUnique(heap: Heap, values: seq<Value>, items: Items, items': Items, low: nat,
                                           high: nat)
    requires StandIn(heap, values, items, low, high) && StandIn(heap, values, items', low, high)
    ensures items == items'
    decreases items
  {
    match items
    case NoItems =>
    case AtomItem(_, more) => StandInIsUnique(heap, values[1..], more, items'.more, low, high);
    case EntriesItem(es, more) =>
      StandForIsUnique(heap, heap[values[0].id].entries, es, items'.entries, low, high);
      StandInIsUnique(heap, values[1..], more, items'.more, low, high);
  }

  lemma {:induction false} StandForIsUnique(heap: Heap, entries: seq<(string, Value)>, es: Entries, es': Entries,
                                            low: nat, high: nat)
    requires StandFor(heap, entries, es, low, high) && StandFor(heap, entries, es', low, high)
    ensures es == es'
    decreases es
  {
    if es.Entry? {
      StandsIsUnique(heap, entries[0].1, es.node, es'.node, low, high);
      StandForIsUnique(heap, entries[1..], es.rest, es'.rest, low, high);
    }
  }

  lemma AtomTrims(s: string)
    requires s != "" && Trimmed(s)
    ensures Trim(s) == s == Trim(" " + s)
  {
    StripKeeps(s, IsSpace);
    assert (" " + s)[1..] == s;
  }

  // ---- Small steps -----------------------------------------------------------------------------------

  lemma {:induction false} RunAppend(st: State, first: seq<Line>, second: seq<Line>, follow: Option<Line>, rd: Readers)
    ensures Run(st, first + second, follow, rd)
         == match Run(st, first, First(second, follow), rd)
            case Parsed(mid) => Run(mid, second, follow, rd)
            case error => error
    decreases |first|
  {
    if first == [] {
      assert first + second == second;
    } else {
      assert (first + second)[1..] == first[1..] + second;
      assert First(first[1..] + second, follow) == First(first[1..], First(second, follow));
      var r := Step(st, first[0], NextIsList(first[0], First(first[1..], First(second, follow))), rd);
      if r.Parsed? {
        RunAppend(r.state, first[1..], second, follow, rd);
      }
    }
  }

  lemma RunFirst(st: State, line: Line, rest: seq<Line>, follow: Option<Line>, mid: State, rd: Readers)
    requires Step(st, line, NextIsList(line, First(rest, follow)), rd) == Parsed(mid)
    ensures Run(st, [line] + rest, follow, rd) == Run(mid, rest, follow, rd)
  {
    assert ([line] + rest)[1..] == rest;
  }

  type Runner = (State, seq<Line>, Option<Line>) -> Result

  /** `run` is the loader's loop. The trigger keeps its definition out of proofs that do not need it. */
  ghost predicate IsRun(run: Runner, rd: Readers) {
    forall st, lines, follow {:trigger Run(st, lines, follow, rd)} ::
      run(st, lines, follow) == Run(st, lines, follow, rd)
  }

  lemma RunnerFirst(run: Runner, st: State, line: Line, rest: seq<Line>, follow: Option<Line>, mid: State, rd: Readers)
    requires IsRun(run, rd)
    requires Step(st, line, NextIsList(line, First(rest, follow)), rd) == Parsed(mid)
    ensures run(st, [line] + rest, follow) == run(mid, rest, follow)
  {
    RunFirst(st, line, rest, follow, mid, rd);
  }

  lemma RunnerAppend(run: Runner, st: State, first: seq<Line>, second: seq<Line>, follow: Option<Line>, rd: Readers)
    requires IsRun(run, rd)
    ensures run(st, first + second, follow)
         == match run(st, first, First(second, follow))
            case Parsed(mid) => run(mid, second, follow)
            case error => error
  {
    RunAppend(st, first, second, follow, rd);
  }

  lemma RunnerStops(run: Runner, st: State, follow: Option<Line>, rd: Readers)
    requires IsRun(run, rd)
    ensures run(st, [], follow) == Parsed(st)
  {
    assert Run(st, [], follow, rd) == Parsed(st);
  }

  lemma {:induction false} PopToTwice(stack: seq<Frame>, low: int, high: int)
    requires low <= high
    ensures PopTo(stack, low) == PopTo(PopTo(stack, high), low)
    decreases |stack|
  {
    if stack != [] && Top(stack).indent >= high {
      PopToTwice(stack[..|stack| - 1], low, high);
    }
  }

  lemma {:induction false} PopToTop(stack: seq<Frame>, indent: int)
    ensures PopTo(stack, indent) != [] ==> Top(PopTo(stack, indent)).indent < indent
  {
    if stack != [] && Top(stack).indent >= indent {
      PopToTop(stack[..|stack| - 1], indent);
    }
  }

  lemma PopOne(stack: seq<Frame>, frame: Frame, indent: int)
    ensures PopTo(stack + [frame], indent) == if frame.indent >= indent then PopTo(stack, indent) else stack + [frame]
  {
    assert (stack + [frame])[..|stack|] == stack;
  }

  lemma {:induction false} PutAppends(entries: seq<(string, Value)>, key: string, value: Value)
    requires forall i :: 0 <= i < |entries| ==> entries[i].0 != key
    ensures Put(entries, key, value) == entries + [(key, value)]
  {
    if entries != [] {
      PutAppends(entries[1..], key, value);
      assert entries == [entries[0]] + entries[1..];
    }
  }

  lemma {:induction false} ColonOf(key: string, rest: string)
    requires ':' !in key
    ensures ColonAt(key + ":" + rest) == |key|
  {
    if key != "" {
      assert (key + ":" + rest)[1..] == key[1..] + ":" + rest;
      assert key[0] in key;
      ColonOf(key[1..], rest);
    }
  }

  /** The key and the value text of a printed line. */
  lemma KeyLineParts(key: string, rest: string)
    requires PlainKey(key)
    ensures var text := key + ":" + rest;
            && HasColon(text) && !IsItem(text)
            && Trim(text[..ColonAt(text)]) == key
            && text[ColonAt(text) + 1..] == rest
  {
    var text := key + ":" + rest;
    ColonOf(key, rest);
    assert text[..|key|] == key && text[|key| + 1..] == rest;
    StripKeeps(key, IsSpace);
    if |key| == 1 {
      assert text[1] == ':';
    } else {
      assert text[..2] == key[..2];
    }
  }

  // ---- What each printed line does ---------------------------------------------------------------

  /** The dictionary `c` is what lines at this depth belong to. */
  ghost predicate Ready(st: State, depth: nat, c: nat) {
    var base := PopTo(st.stack, 2 * depth);
    var onTop := base != [] && Top(base).id == c && c < |st.heap| && st.heap[c].Dict?;
    onTop
  }

  /** The list `l` is what items at this depth belong to. */
  ghost predicate ListReady(st: State, depth: nat, l: nat) {
    var base := PopTo(st.stack, 2 * depth);
    var isParent := base != [] && Top(base).id == l && IsList(st.heap, l) && ParentStack(st, 2 * depth, true) == base;
    isParent
  }

  lemma KeyLine(st: State, key: string, rest: string, depth: nat, c: nat, flag: bool, rd: Readers)
    requires Ready(st, depth, c) && PlainKey(key)
    ensures var base, raw := PopTo(st.stack, 2 * depth), Trim(rest);
            var next := Step(st, Line(2 * depth, key + ":" + rest), flag, rd);
            && (raw == "" || raw[0] == '&' ==>
                  next == Parsed(State(Attach(st.heap + [FreshContainer(flag)], c, key, Ref(|st.heap|)),
                                       base + [Frame(2 * depth, |st.heap|)])))
            && (raw != "" && raw[0] != '&' && ReadScalar(raw, rd).One? ==>
                  next == Parsed(State(Attach(st.heap, c, key, Leaf(ReadScalar(raw, rd).scalar)), base)))
  {
    KeyLineParts(key, rest);
    MissingIsFresh(Trim(rest), flag, rd);
  }

  /** An item that is a scalar joins its list. */
  lemma AtomItemLine(st: State, a: Atom, depth: nat, l: nat, flag: bool, p: Printer)
    requires Correct(p)
    requires ListReady(st, depth, l) && p.ok(a)
    ensures Step(st, Line(2 * depth, "- " + p.show(a)), flag, p.rd)
         == Parsed(State(Append(st.heap, l, Leaf(AtomValue(a))), PopTo(st.stack, 2 * depth)))
  {
    var s := p.show(a);
    assert ReadsAs(p.show(a), a, p.rd);
    AtomTrims(s);
    assert IsItem("- " + s) && ("- " + s)[2..] == s;
    ItemLineSteps(st, s, depth, l, flag, p.rd);
    ScalarItem(st.heap, PopTo(st.stack, 2 * depth), 2 * depth, s, flag, p.rd);
  }

  // ---- What lines do that a printed tree does not hold ------------------------------------------------

  /** The members of a flow collection. */
  function Members(r: Reading): Container
    requires !r.One?
  {
    match r
    case FlowList(items) => List(seq(|items|, i requires 0 <= i < |items| => Leaf(items[i])))
    case FlowDict(entries) =>
      Dict(seq(|entries|, i requires 0 <= i < |entries| => (entries[i].0, Leaf(entries[i].1))))
  }

  /** A flow collection behind a key is the key's value and stays open for deeper lines. */
  lemma FlowUnderKeyIsOpen(st: State, key: string, s: string, depth: nat, c: nat, flag: bool, rd: Readers)
    requires Ready(st, depth, c) && PlainKey(key) && s != "" && Trimmed(s) && s[0] != '&'
    requires !ReadScalar(s, rd).One?
    ensures Step(st, Line(2 * depth, key + ":" + (" " + s)), flag, rd)
         == Parsed(WithMember(st.heap, PopTo(st.stack, 2 * depth), 2 * depth, c, key, Members(ReadScalar(s, rd))))
  {
    KeyLineParts(key, " " + s);
    FlowStep(st.heap, PopTo(st.stack, 2 * depth), 2 * depth, key, s, flag, rd);
  }

  /** The dictionary `c` has `members` for `key`, which are open. */
  function WithMember(heap: Heap, stack: seq<Frame>, indent: nat, c: nat, key: string, members: Container): State
    requires c < |heap| && heap[c].Dict?
  {
    State(heap[c := Dict(Put(heap[c].entries, key, Ref(|heap|)))] + [members], stack + [Frame(indent, |heap|)])
  }

  lemma FlowStep(heap: Heap, stack: seq<Frame>, indent: nat, key: string, s: string, flag: bool, rd: Readers)
    requires stack != [] && Top(stack).id < |heap| && heap[Top(stack).id].Dict?
    requires PlainKey(key) && s != "" && Trimmed(s) && s[0] != '&' && !ReadScalar(s, rd).One?
    requires HasColon(key + ":" + (" " + s))
    ensures KeyStep(heap, stack, indent, key + ":" + (" " + s), flag, rd)
         == WithMember(heap, stack, indent, Top(stack).id, key, Members(ReadScalar(s, rd)))
  {
    var members, c := Members(ReadScalar(s, rd)), Top(stack).id;
    KeyLineParts(key, " " + s);
    AtomTrims(s);
    assert Held(ReadScalar(s, rd)) == Some(members);
    var entries := Dict(Put(heap[c].entries, key, Ref(|heap|)));
    assert (heap + [members])[c := entries] == heap[c := entries] + [members];
  }

  /** One that is an item joins the list and is closed. */
  lemma FlowItemIsClosed(st: State, s: string, depth: nat, l: nat, flag: bool, rd: Readers)
    requires ListReady(st, depth, l) && s != "" && Trimmed(s) && !HasColon(s) && !ReadScalar(s, rd).One?
    ensures Step(st, Line(2 * depth, "- " + s), flag, rd)
         == Parsed(State(st.heap[l := List(st.heap[l].items + [Ref(|st.heap|)])] + [Members(ReadScalar(s, rd))],
                         PopTo(st.stack, 2 * depth)))
  {
    AtomTrims(s);
    assert IsItem("- " + s) && ("- " + s)[2..] == s;
    ItemLineSteps(st, s, depth, l, flag, rd);
    assert Held(ReadScalar(s, rd)) == Some(Members(ReadScalar(s, rd)));
  }

  /** One behind the key of an item stays open one deeper than the item's own mapping. */
  lemma FlowInItemIsOpen(st: State, key: string, s: string, depth: nat, l: nat, flag: bool, rd: Readers)
    requires ListReady(st, depth, l) && PlainKey(key) && key[0] !in {'\'', '"'} && s != "" && Trimmed(s)
    requires !ReadScalar(" " + s, rd).One?
    ensures Step(st, Line(2 * depth, "- " + (key + ":" + (" " + s))), flag, rd)
         == Parsed(WithFlow(st.heap, PopTo(st.stack, 2 * depth), 2 * depth, l, key, Members(ReadScalar(" " + s, rd))))
  {
    KeyedTrims(key, s);
    ItemLineSteps(st, key + ":" + (" " + s), depth, l, flag, rd);
    KeyedFlow(st.heap, PopTo(st.stack, 2 * depth), 2 * depth, key, s, flag, rd);
  }

  /** The list `l` has gained a mapping of `key` to `members`; both are open. */
  function WithFlow(heap: Heap, stack: seq<Frame>, indent: nat, l: nat, key: string, members: Container): State
    requires IsList(heap, l)
  {
    State(heap[l := List(heap[l].items + [Ref(|heap|)])] + [Dict([(key, Ref(|heap| + 1))]), members],
          stack + [Frame(indent, |heap|), Frame(indent + 1, |heap| + 1)])
  }

  lemma KeyedFlow(heap: Heap, stack: seq<Frame>, indent: nat, key: string, s: string, flag: bool, rd: Readers)
    requires stack != [] && IsList(heap, Top(stack).id)
    requires PlainKey(key) && key[0] !in {'\'', '"'} && s != "" && Trimmed(s) && !ReadScalar(" " + s, rd).One?
    ensures ItemStep(heap, stack, indent, key + ":" + (" " + s), flag, rd)
         == WithFlow(heap, stack, indent, Top(stack).id, key, Members(ReadScalar(" " + s, rd)))
  {
    var item := key + ":" + (" " + s);
    KeyLineParts(key, " " + s);
    AtomTrims(s);
    assert item[0] == key[0];
    assert Held(ReadScalar(" " + s, rd)) == Some(Members(ReadScalar(" " + s, rd)));
  }

  /** A key under a list becomes a mapping of its own, which is not opened. */
  lemma KeyUnderListIsAppended(st: State, key: string, s: string, depth: nat, base: seq<Frame>, flag: bool, rd: Readers)
    requires base == PopTo(st.stack, 2 * depth) && base != [] && IsList(st.heap, Top(base).id)
    requires PlainKey(key) && s != "" && Trimmed(s) && s[0] != '&' && ReadScalar(s, rd).One?
    ensures Step(st, Line(2 * depth, key + ":" + (" " + s)), flag, rd)
         == Parsed(State(st.heap[Top(base).id := List(st.heap[Top(base).id].items + [Ref(|st.heap|)])]
                         + [Dict([(key, Leaf(ReadScalar(s, rd).scalar))])], base))
  {
    KeyLineParts(key, " " + s);
    UnderListStep(st.heap, base, 2 * depth, key, s, flag, rd);
  }

  lemma UnderListStep(heap: Heap, stack: seq<Frame>, indent: nat, key: string, s: string, flag: bool, rd: Readers)
    requires stack != [] && IsList(heap, Top(stack).id)
    requires PlainKey(key) && s != "" && Trimmed(s) && s[0] != '&' && ReadScalar(s, rd).One?
    requires HasColon(key + ":" + (" " + s))
    ensures KeyStep(heap, stack, indent, key + ":" + (" " + s), flag, rd)
         == State(heap[Top(stack).id := List(heap[Top(stack).id].items + [Ref(|heap|)])]
                  + [Dict([(key, Leaf(ReadScalar(s, rd).scalar))])], stack)
  {
    KeyLineParts(key, " " + s);
    AtomTrims(s);
  }

  /** A key that is there already keeps its place and gets the new value. */
  lemma {:induction false} PutReplaces(entries: seq<(string, Value)>, i: nat, value: Value)
    requires i < |entries| && forall j :: 0 <= j < i ==> entries[j].0 != entries[i].0
    ensures Put(entries, entries[i].0, value) == entries[i := (entries[i].0, value)]
  {
    if i > 0 {
      PutReplaces(entries[1..], i - 1, value);
      assert entries == [entries[0]] + entries[1..];
    }
  }

  lemma ScalarItem(heap: Heap, stack: seq<Frame>, indent: nat, s: string, flag: bool, rd: Readers)
    requires stack != [] && IsList(heap, Top(stack).id) && AtomShape(s) && ReadScalar(s, rd).One?
    ensures ItemStep(heap, stack, indent, s, flag, rd)
         == State(Append(heap, Top(stack).id, Leaf(ReadScalar(s, rd).scalar)), stack)
  {
    if HasColon(s) {
      assert s[ColonAt(s)] in s;
    }
  }

  lemma KeyedItem(heap: Heap, stack: seq<Frame>, indent: nat, key: string, s: string, flag: bool, rd: Readers)
    requires stack != [] && IsList(heap, Top(stack).id)
    requires PlainKey(key) && key[0] !in {'\'', '"'} && s != "" && Trimmed(s) && ReadScalar(" " + s, rd).One?
    ensures ItemStep(heap, stack, indent, key + ":" + (" " + s), flag, rd)
         == State(Append(heap, Top(stack).id, Ref(|heap|)) + [Dict([(key, Leaf(ReadScalar(" " + s, rd).scalar))])],
                  stack + [Frame(indent, |heap|)])
  {
    var item := key + ":" + (" " + s);
    KeyLineParts(key, " " + s);
    AtomTrims(s);
    assert item[0] == key[0];
  }

  lemma KeyedTrims(key: string, s: string)
    requires PlainKey(key) && s != "" && Trimmed(s)
    ensures var item := key + ":" + (" " + s);
            Trim(item) == item && IsItem("- " + item) && ("- " + item)[2..] == item
  {
    var item := key + ":" + (" " + s);
    assert item[0] == key[0] && item[|item| - 1] == s[|s| - 1];
    StripKeeps(item, IsSpace);
  }

  lemma ItemLineSteps(st: State, item: string, depth: nat, l: nat, flag: bool, rd: Readers)
    requires ListReady(st, depth, l) && Trim(item) == item && IsItem("- " + item) && ("- " + item)[2..] == item
    ensures Step(st, Line(2 * depth, "- " + item), flag, rd)
         == Parsed(ItemStep(st.heap, PopTo(st.stack, 2 * depth), 2 * depth, item, flag, rd))
  {
  }

  /** An item that is a mapping opens it with its first entry. */
  lemma EntryItemLine(st: State, key: string, a: Atom, depth: nat, l: nat, flag: bool, p: Printer)
    requires Correct(p)
    requires ListReady(st, depth, l) && PlainKey(key) && key[0] !in {'\'', '"'} && p.ok(a)
    ensures Step(st, Line(2 * depth, "- " + (key + ": " + p.show(a))), flag, p.rd)
         == Parsed(State(Append(st.heap, l, Ref(|st.heap|)) + [Dict([(key, Leaf(AtomValue(a)))])],
                         PopTo(st.stack, 2 * depth) + [Frame(2 * depth, |st.heap|)]))
  {
    var s := p.show(a);
    assert ReadsAs(p.show(a), a, p.rd);
    assert key + ": " + s == key + ":" + (" " + s);
    KeyedTrims(key, s);
    ItemLineSteps(st, key + ":" + (" " + s), depth, l, flag, p.rd);
    KeyedItem(st.heap, PopTo(st.stack, 2 * depth), 2 * depth, key, s, flag, p.rd);
  }

  // ---- Lists ------------------------------------------------------------------------------------------

  /** An item at this depth or deeper would count as a child. */
  predicate NoItem(line: Option<Line>, depth: nat) {
    line.Some? && IsItem(line.value.text) ==> line.value.indent < 2 * depth
  }

  lemma NoItemDeeper(line: Option<Line>, depth: nat)
    requires NoItem(line, depth)
    ensures NoItem(line, depth + 1)
  {
  }

  ghost predicate FreshKeys(entries: seq<(string, Value)>, es: Entries) {
    forall i :: 0 <= i < |entries| ==> entries[i].0 !in Keys(es)
  }

  /** From `st` to `out` only the container `c` has changed, into `container`, and frames at this depth
      or deeper. */
  ghost predicate Changed(st: State, out: State, c: nat, container: Container, depth: nat) {
    var elsewhere := |st.heap| <= |out.heap|
                     && forall id :: 0 <= id < |st.heap| && id != c ==> out.heap[id] == st.heap[id];
    var here := c < |st.heap| <= |out.heap| && out.heap[c] == container;
    var popped := PopTo(out.stack, 2 * depth) == PopTo(st.stack, 2 * depth);
    elsewhere && here && popped
  }

  /** The dictionary `c` has gained `added`, which stands for `es` in containers made since. */
  ghost predicate Extended(st: State, out: State, added: seq<(string, Value)>, es: Entries, depth: nat, c: nat) {
    var changed := c < |st.heap| && st.heap[c].Dict? && Changed(st, out, c, Dict(st.heap[c].entries + added), depth);
    changed && StandFor(out.heap, added, es, |st.heap|, |out.heap|)
  }

  /** The same for the list `l` and the items `items`. */
  ghost predicate ListExtended(st: State, out: State, added: seq<Value>, items: Items, depth: nat, l: nat) {
    var changed := l < |st.heap| && st.heap[l].List? && Changed(st, out, l, List(st.heap[l].items + added), depth);
    changed && StandIn(out.heap, added, items, |st.heap|, |out.heap|)
  }

  lemma StillListReady(st: State, out: State, depth: nat, l: nat)
    requires ListReady(st, depth, l) && IsList(out.heap, l)
    requires out.stack == PopTo(st.stack, 2 * depth)
    ensures ListReady(out, depth, l) && PopTo(out.stack, 2 * depth) == out.stack
  {
    PopToTop(st.stack, 2 * depth);
    PopToTwice(st.stack, 2 * depth, 2 * depth);
  }

  /** After an item that is a mapping, the list is ready for the next item. */
  lemma ListReadyAgain(st: State, out: State, depth: nat, l: nat, n: nat)
    requires ListReady(st, depth, l) && IsList(out.heap, l) && n < |out.heap| && out.heap[n].Dict?
    requires PopTo(out.stack, 2 * (depth + 1)) == PopTo(st.stack, 2 * depth) + [Frame(2 * depth, n)]
    ensures ListReady(out, depth, l) && PopTo(out.stack, 2 * depth) == PopTo(st.stack, 2 * depth)
  {
    var base, frame := PopTo(st.stack, 2 * depth), Frame(2 * depth, n);
    PopToTop(st.stack, 2 * depth);
    PopToTwice(st.stack, 2 * depth, 2 * depth);
    PopToTwice(out.stack, 2 * depth, 2 * (depth + 1));
    PopToTwice(out.stack, 2 * depth + 1, 2 * (depth + 1));
    PopOne(base, frame, 2 * depth);
    PopOne(base, frame, 2 * depth + 1);
    assert (base + [frame])[..|base|] == base;
    assert PopSiblings(base + [frame], out.heap, 2 * depth) == PopSiblings(base, out.heap, 2 * depth) == base;
  }

  /** One item, `value`, has joined the list before the others. */
  lemma ItemAdded(st: State, mid: State, out: State, value: Value, added: seq<Value>, items: Items, depth: nat, l: nat)
    requires l < |st.heap| && st.heap[l].List? && Changed(st, mid, l, List(st.heap[l].items + [value]), depth)
    requires items.AtomItem? || items.EntriesItem?
    requires items.AtomItem? ==> value == Leaf(AtomValue(items.atom))
    requires items.EntriesItem? ==> StandsAsDict(mid.heap, value, items.entries, |st.heap|, |mid.heap|)
    requires ListExtended(mid, out, added, items.more, depth, l)
    ensures ListExtended(st, out, [value] + added, items, depth, l)
  {
    var before := st.heap[l].items;
    assert before + [value] + added == before + ([value] + added);
    assert ([value] + added)[1..] == added;
    StandInStill(out.heap, out.heap, added, items.more, |mid.heap|, |out.heap|, |st.heap|, |out.heap|);
    if items.EntriesItem? {
      StandForStill(mid.heap, out.heap, mid.heap[value.id].entries, items.entries,
                    |st.heap|, |mid.heap|, |st.heap|, |out.heap|);
    }
  }

  lemma {:induction false} ParseItems(st: State, items: Items, depth: nat, l: nat, follow: Option<Line>, p: Printer,
                                      run: Runner)
    returns (out: State, added: seq<Value>)
    requires IsRun(run, p.rd)
    requires Correct(p)
    requires ListReady(st, depth, l) && PrintableItems(items, p) && FullItems(items) && NoItem(follow, depth)
    ensures run(st, ItemLines(items, depth, p), follow) == Parsed(out)
    ensures ListExtended(st, out, added, items, depth, l)
    decreases items, 0
  {
    match items
    case NoItems =>
      out, added := st, [];
      RunnerStops(run, st, follow, p.rd);
      assert st.heap[l].items + [] == st.heap[l].items;
    case AtomItem(a, more) =>
      var mid := ParseAtomItem(st, a, ItemLines(more, depth, p), depth, l, follow, p, run);
      out, added := ParseItems(mid, more, depth, l, follow, p, run);
      ItemAdded(st, mid, out, Leaf(AtomValue(a)), added, items, depth, l);
      added := [Leaf(AtomValue(a))] + added;
    case EntriesItem(es, more) =>
      var rest := ItemLines(more, depth, p);
      FirstItem(more, depth, follow, p);
      var mid := ParseEntriesItem(st, es, depth, l, First(rest, follow), p, run);
      RunnerAppend(run, st, Dashed(Lines(es, depth + 1, p), depth), rest, follow, p.rd);
      out, added := ParseItems(mid, more, depth, l, follow, p, run);
      ItemAdded(st, mid, out, Ref(|st.heap|), added, items, depth, l);
      added := [Ref(|st.heap|)] + added;
  }

  lemma ParseAtomItem(st: State, a: Atom, rest: seq<Line>, depth: nat, l: nat, follow: Option<Line>, p: Printer,
                      run: Runner)
    returns (mid: State)
    requires IsRun(run, p.rd)
    requires Correct(p)
    requires ListReady(st, depth, l) && p.ok(a)
    ensures run(st, [Line(2 * depth, "- " + p.show(a))] + rest, follow) == run(mid, rest, follow)
    ensures Changed(st, mid, l, List(st.heap[l].items + [Leaf(AtomValue(a))]), depth)
    ensures ListReady(mid, depth, l)
  {
    var line := Line(2 * depth, "- " + p.show(a));
    mid := State(Append(st.heap, l, Leaf(AtomValue(a))), PopTo(st.stack, 2 * depth));
    AtomItemLine(st, a, depth, l, NextIsList(line, First(rest, follow)), p);
    RunnerFirst(run, st, line, rest, follow, mid, p.rd);
    StillListReady(st, mid, depth, l);
  }

  lemma FirstItem(items: Items, depth: nat, follow: Option<Line>, p: Printer)
    requires PrintableItems(items, p) && NoItem(follow, depth)
    ensures NoItem(First(ItemLines(items, depth, p), follow), depth + 1)
  {
  }

  /** The first entry opens the mapping, and the others follow at the next depth. */
  lemma {:induction false} ParseEntriesItem(st: State, es: Entries, depth: nat, l: nat, follow: Option<Line>,
                                            p: Printer, run: Runner)
    returns (out: State)
    requires IsRun(run, p.rd)
    requires Correct(p)
    requires ListReady(st, depth, l)
    requires es.Entry? && es.node.Single? && Printable(es, p) && Full(es) && es.key[0] !in {'\'', '"'}
    requires NoItem(follow, depth + 1)
    ensures run(st, Dashed(Lines(es, depth + 1, p), depth), follow) == Parsed(out)
    ensures ListReady(out, depth, l)
    ensures Changed(st, out, l, List(st.heap[l].items + [Ref(|st.heap|)]), depth)
    ensures StandsAsDict(out.heap, Ref(|st.heap|), es, |st.heap|, |out.heap|)
    decreases es, 2
  {
    var n := |st.heap|;
    var mid := OpenItem(st, es, depth, l, follow, p, run);
    var added;
    out, added := ParseEntries(mid, es.rest, depth + 1, n, follow, p, run);
    ItemIsDone(st, mid, out, added, es, depth, l);
  }

  lemma ItemIsDone(st: State, mid: State, out: State, added: seq<(string, Value)>, es: Entries, depth: nat, l: nat)
    requires ListReady(st, depth, l) && es.Entry? && es.node.Single?
    requires mid.heap == Append(st.heap, l, Ref(|st.heap|)) + [Dict([(es.key, Leaf(AtomValue(es.node.atom)))])]
    requires PopTo(mid.stack, 2 * (depth + 1)) == PopTo(st.stack, 2 * depth) + [Frame(2 * depth, |st.heap|)]
    requires Extended(mid, out, added, es.rest, depth + 1, |st.heap|)
    ensures ListReady(out, depth, l)
    ensures Changed(st, out, l, List(st.heap[l].items + [Ref(|st.heap|)]), depth)
    ensures StandsAsDict(out.heap, Ref(|st.heap|), es, |st.heap|, |out.heap|)
  {
    ListReadyAgain(st, out, depth, l, |st.heap|);
    FirstEntryStands(mid, out, (es.key, Leaf(AtomValue(es.node.atom))), added, es, depth, |st.heap|);
  }

  lemma OpenItem(st: State, es: Entries, depth: nat, l: nat, follow: Option<Line>, p: Printer,
                 run: Runner)
    returns (mid: State)
    requires IsRun(run, p.rd)
    requires Correct(p)
    requires ListReady(st, depth, l)
    requires es.Entry? && es.node.Single? && Printable(es, p) && es.key[0] !in {'\'', '"'}
    ensures run(st, Dashed(Lines(es, depth + 1, p), depth), follow)
         == run(mid, Lines(es.rest, depth + 1, p), follow)
    ensures mid.heap == Append(st.heap, l, Ref(|st.heap|)) + [Dict([(es.key, Leaf(AtomValue(es.node.atom)))])]
    ensures PopTo(mid.stack, 2 * (depth + 1)) == PopTo(st.stack, 2 * depth) + [Frame(2 * depth, |st.heap|)]
    ensures Ready(mid, depth + 1, |st.heap|) && FreshKeys(mid.heap[|st.heap|].entries, es.rest)
  {
    var key, a, n, base := es.key, es.node.atom, |st.heap|, PopTo(st.stack, 2 * depth);
    var rest := Lines(es.rest, depth + 1, p);
    var line := Line(2 * depth, "- " + (key + ": " + p.show(a)));
    DashedFirst(key, a, rest, depth, p);
    assert Lines(es, depth + 1, p) == [Line(2 * (depth + 1), key + ": " + p.show(a))] + rest;
    mid := State(Append(st.heap, l, Ref(n)) + [Dict([(key, Leaf(AtomValue(a)))])], base + [Frame(2 * depth, n)]);
    EntryItemLine(st, key, a, depth, l, NextIsList(line, First(rest, follow)), p);
    RunnerFirst(run, st, line, rest, follow, mid, p.rd);
    PopOne(base, Frame(2 * depth, n), 2 * (depth + 1));
  }

  lemma DashedFirst(key: string, a: Atom, rest: seq<Line>, depth: nat, p: Printer)
    ensures Dashed([Line(2 * (depth + 1), key + ": " + p.show(a))] + rest, depth)
         == [Line(2 * depth, "- " + (key + ": " + p.show(a)))] + rest
  {
  }

  lemma FirstEntryStands(mid: State, out: State, first: (string, Value), added: seq<(string, Value)>, es: Entries,
                         depth: nat, n: nat)
    requires es.Entry? && es.node.Single? && first == (es.key, Leaf(AtomValue(es.node.atom)))
    requires n + 1 == |mid.heap| && mid.heap[n] == Dict([first])
    requires Extended(mid, out, added, es.rest, depth + 1, n)
    ensures StandsAsDict(out.heap, Ref(n), es, n, |out.heap|)
  {
    assert ([first] + added)[1..] == added;
    StandForStill(out.heap, out.heap, added, es.rest, |mid.heap|, |out.heap|, n, |out.heap|);
  }

  // ---- Whole mappings ------------------------------------------------------------------------------

  /** The dictionary `c` has one more entry, whose value stands for `node` in containers made since. */
  ghost predicate Added(st: State, out: State, key: string, value: Value, node: Node, depth: nat, c: nat) {
    var changed := c < |st.heap| && st.heap[c].Dict?
                   && Changed(st, out, c, Dict(st.heap[c].entries + [(key, value)]), depth);
    changed && Stands(out.heap, value, node, |st.heap|, |out.heap|)
  }

  lemma AddedThenExtended(st: State, mid: State, out: State, key: string, value: Value, node: Node,
                          added: seq<(string, Value)>, rest: Entries, depth: nat, c: nat)
    requires Added(st, mid, key, value, node, depth, c) && Extended(mid, out, added, rest, depth, c)
    ensures Extended(st, out, [(key, value)] + added, Entry(key, node, rest), depth, c)
  {
    var before := st.heap[c].entries;
    assert before + [(key, value)] + added == before + ([(key, value)] + added);
    assert ([(key, value)] + added)[1..] == added;
    StandsStill(mid.heap, out.heap, value, node, |st.heap|, |mid.heap|, |st.heap|, |out.heap|);
    StandForStill(out.heap, out.heap, added, rest, |mid.heap|, |out.heap|, |st.heap|, |out.heap|);
  }

  lemma {:induction false} ParseNode(st: State, key: string, node: Node, depth: nat, c: nat, follow: Option<Line>,
                                     p: Printer, run: Runner)
    returns (out: State, value: Value)
    requires IsRun(run, p.rd)
    requires Correct(p)
    requires PlainKey(key) && PrintableNode(key, node, p) && FullNode(node)
    requires Ready(st, depth, c) && NoItem(follow, depth)
    requires forall i :: 0 <= i < |st.heap[c].entries| ==> st.heap[c].entries[i].0 != key
    ensures run(st, NodeLines(key, node, depth, p), follow) == Parsed(out)
    ensures Added(st, out, key, value, node, depth, c)
    decreases node, 3
  {
    match node
    case Single(a) => out, value := ParseSingle(st, key, a, depth, c, follow, p, run);
    case Listing(items) => out, value := ParseListing(st, key, items, depth, c, follow, p, run);
    case Mapping(sub) => out, value := ParseMapping(st, key, sub, depth, c, follow, p, run);
  }

  lemma {:induction false} ParseListing(st: State, key: string, items: Items, depth: nat, c: nat,
                                        follow: Option<Line>, p: Printer, run: Runner)
    returns (out: State, value: Value)
    requires IsRun(run, p.rd)
    requires Correct(p)
    requires PlainKey(key) && PrintableItems(items, p) && FullItems(items) && items != NoItems
    requires Ready(st, depth, c) && NoItem(follow, depth)
    requires forall i :: 0 <= i < |st.heap[c].entries| ==> st.heap[c].entries[i].0 != key
    ensures run(st, NodeLines(key, Listing(items), depth, p), follow) == Parsed(out)
    ensures Added(st, out, key, value, Listing(items), depth, c)
    decreases items, 1
  {
    NoItemDeeper(follow, depth);
    var mid := OpenList(st, key, items, depth, c, follow, p, run);
    var added;
    out, added := ParseItems(mid, items, depth + 1, |st.heap|, follow, p, run);
    ListClosed(st, mid, out, key, added, items, depth, c);
    value := Ref(|st.heap|);
  }

  lemma {:induction false} ParseMapping(st: State, key: string, sub: Entries, depth: nat, c: nat,
                                        follow: Option<Line>, p: Printer, run: Runner)
    returns (out: State, value: Value)
    requires IsRun(run, p.rd)
    requires Correct(p)
    requires PlainKey(key) && Printable(sub, p) && Full(sub)
    requires Ready(st, depth, c) && NoItem(follow, depth)
    requires forall i :: 0 <= i < |st.heap[c].entries| ==> st.heap[c].entries[i].0 != key
    ensures run(st, NodeLines(key, Mapping(sub), depth, p), follow) == Parsed(out)
    ensures Added(st, out, key, value, Mapping(sub), depth, c)
    decreases sub, 5
  {
    NoItemDeeper(follow, depth);
    var mid := OpenMapping(st, key, sub, depth, c, follow, p, run);
    var added;
    out, added := ParseEntries(mid, sub, depth + 1, |st.heap|, follow, p, run);
    MappingClosed(st, mid, out, key, added, sub, depth, c);
    value := Ref(|st.heap|);
  }

  /** The line `key:` before `rest`. */
  lemma OpenBefore(st: State, key: string, rest: seq<Line>, depth: nat, c: nat, follow: Option<Line>, flag: bool,
                   rd: Readers, run: Runner) returns (mid: State)
    requires IsRun(run, rd)
    requires PlainKey(key) && Ready(st, depth, c)
    requires forall i :: 0 <= i < |st.heap[c].entries| ==> st.heap[c].entries[i].0 != key
    requires flag == NextIsList(Line(2 * depth, key + ":"), First(rest, follow))
    ensures run(st, [Line(2 * depth, key + ":")] + rest, follow) == run(mid, rest, follow)
    ensures var id := |st.heap|;
            && mid.heap == st.heap[c := Dict(st.heap[c].entries + [(key, Ref(id))])] + [FreshContainer(flag)]
            && mid.stack == PopTo(st.stack, 2 * depth) + [Frame(2 * depth, id)]
            && PopTo(mid.stack, 2 * depth) == PopTo(st.stack, 2 * depth)
            && |mid.heap| == id + 1 && mid.heap[id] == FreshContainer(flag)
  {
    mid := OpenNode(st, key, depth, c, flag, rd);
    RunnerFirst(run, st, Line(2 * depth, key + ":"), rest, follow, mid, rd);
  }

  lemma OpenList(st: State, key: string, items: Items, depth: nat, c: nat, follow: Option<Line>, p: Printer,
                 run: Runner)
    returns (mid: State)
    requires IsRun(run, p.rd)
    requires PlainKey(key) && PrintableItems(items, p) && items != NoItems && Ready(st, depth, c)
    requires forall i :: 0 <= i < |st.heap[c].entries| ==> st.heap[c].entries[i].0 != key
    ensures run(st, NodeLines(key, Listing(items), depth, p), follow)
         == run(mid, ItemLines(items, depth + 1, p), follow)
    ensures IsOpened(st, mid, key, List([]), depth, c) && ListReady(mid, depth + 1, |st.heap|)
  {
    ItemsComeNext(items, depth, p);
    mid := OpenBefore(st, key, ItemLines(items, depth + 1, p), depth, c, follow, true, p.rd, run);
    ListIsReady(st, mid, depth);
  }

  lemma OpenMapping(st: State, key: string, sub: Entries, depth: nat, c: nat, follow: Option<Line>, p: Printer,
                    run: Runner)
    returns (mid: State)
    requires IsRun(run, p.rd)
    requires PlainKey(key) && Printable(sub, p) && Ready(st, depth, c) && NoItem(follow, depth)
    requires forall i :: 0 <= i < |st.heap[c].entries| ==> st.heap[c].entries[i].0 != key
    ensures run(st, NodeLines(key, Mapping(sub), depth, p), follow)
         == run(mid, Lines(sub, depth + 1, p), follow)
    ensures IsOpened(st, mid, key, Dict([]), depth, c) && Ready(mid, depth + 1, |st.heap|)
    ensures FreshKeys(mid.heap[|st.heap|].entries, sub)
  {
    FirstIsNoItem(sub, depth + 1, depth, follow, p);
    mid := OpenBefore(st, key, Lines(sub, depth + 1, p), depth, c, follow, false, p.rd, run);
    MidIsReady(st, mid, depth);
  }

  lemma ItemsComeNext(items: Items, depth: nat, p: Printer)
    requires items != NoItems && PrintableItems(items, p)
    ensures var lines := ItemLines(items, depth + 1, p);
            lines != [] && lines[0].indent == 2 * (depth + 1) && IsItem(lines[0].text)
  {
    if items.EntriesItem? {
      var es := items.entries;
      DashedFirst(es.key, es.node.atom, Lines(es.rest, depth + 2, p), depth + 1, p);
      assert Lines(es, depth + 2, p) == NodeLines(es.key, es.node, depth + 2, p) + Lines(es.rest, depth + 2, p);
    }
  }

  lemma MidIsReady(st: State, mid: State, depth: nat)
    requires |mid.heap| == |st.heap| + 1 && mid.heap[|st.heap|] == Dict([])
    requires mid.stack == PopTo(st.stack, 2 * depth) + [Frame(2 * depth, |st.heap|)]
    ensures PopTo(mid.stack, 2 * (depth + 1)) == mid.stack
    ensures Ready(mid, depth + 1, |st.heap|)
  {
    PopOne(PopTo(st.stack, 2 * depth), Frame(2 * depth, |st.heap|), 2 * (depth + 1));
  }

  lemma ListIsReady(st: State, mid: State, depth: nat)
    requires |mid.heap| == |st.heap| + 1 && mid.heap[|st.heap|] == List([])
    requires mid.stack == PopTo(st.stack, 2 * depth) + [Frame(2 * depth, |st.heap|)]
    ensures PopTo(mid.stack, 2 * (depth + 1)) == mid.stack
    ensures ListReady(mid, depth + 1, |st.heap|)
  {
    PopOne(PopTo(st.stack, 2 * depth), Frame(2 * depth, |st.heap|), 2 * (depth + 1));
  }

  /** In `mid` the dictionary `c` has the new entry `key`, an empty container that is on top. */
  ghost predicate IsOpened(st: State, mid: State, key: string, container: Container, depth: nat, c: nat) {
    var entry := c < |st.heap| && st.heap[c].Dict? && |mid.heap| == |st.heap| + 1
                 && mid.heap[c] == Dict(st.heap[c].entries + [(key, Ref(|st.heap|))])
                 && mid.heap[|st.heap|] == container;
    var elsewhere := |st.heap| <= |mid.heap|
                     && forall id :: 0 <= id < |st.heap| && id != c ==> mid.heap[id] == st.heap[id];
    var popped := PopTo(mid.stack, 2 * depth) == PopTo(st.stack, 2 * depth)
                  && PopTo(mid.stack, 2 * (depth + 1)) == mid.stack;
    entry && elsewhere && popped
  }

  /** The container opened for a mapping now stands for it. */
  lemma MappingClosed(st: State, mid: State, out: State, key: string, added: seq<(string, Value)>, sub: Entries,
                      depth: nat, c: nat)
    requires IsOpened(st, mid, key, Dict([]), depth, c)
    requires Extended(mid, out, added, sub, depth + 1, |st.heap|)
    ensures Added(st, out, key, Ref(|st.heap|), Mapping(sub), depth, c)
  {
    assert [] + added == added;
    StandForStill(out.heap, out.heap, added, sub, |mid.heap|, |out.heap|, |st.heap|, |out.heap|);
    PopToTwice(out.stack, 2 * depth, 2 * (depth + 1));
  }

  /** And the one opened for a list. */
  lemma ListClosed(st: State, mid: State, out: State, key: string, added: seq<Value>, items: Items, depth: nat, c: nat)
    requires IsOpened(st, mid, key, List([]), depth, c)
    requires ListExtended(mid, out, added, items, depth + 1, |st.heap|)
    ensures Added(st, out, key, Ref(|st.heap|), Listing(items), depth, c)
  {
    assert [] + added == added;
    StandInStill(out.heap, out.heap, added, items, |mid.heap|, |out.heap|, |st.heap|, |out.heap|);
    PopToTwice(out.stack, 2 * depth, 2 * (depth + 1));
  }

  lemma ParseSingle(st: State, key: string, a: Atom, depth: nat, c: nat, follow: Option<Line>, p: Printer, run: Runner)
    returns (out: State, value: Value)
    requires IsRun(run, p.rd)
    requires Correct(p)
    requires PlainKey(key) && p.ok(a) && Ready(st, depth, c)
    requires forall j :: 0 <= j < |st.heap[c].entries| ==> st.heap[c].entries[j].0 != key
    ensures run(st, NodeLines(key, Single(a), depth, p), follow) == Parsed(out)
    ensures Added(st, out, key, value, Single(a), depth, c)
  {
    var s := p.show(a);
    value := Leaf(AtomValue(a));
    var line := Line(2 * depth, key + ": " + s);
    assert ReadsAs(p.show(a), a, p.rd);
    AtomTrims(s);
    assert key + ":" + (" " + s) == key + ": " + s;
    KeyLine(st, key, " " + s, depth, c, NextIsList(line, First([], follow)), p.rd);
    PutAppends(st.heap[c].entries, key, value);
    PopToTwice(st.stack, 2 * depth, 2 * depth);
    out := State(Attach(st.heap, c, key, value), PopTo(st.stack, 2 * depth));
    RunnerFirst(run, st, line, [], follow, out, p.rd);
    RunnerStops(run, out, follow, p.rd);
    assert NodeLines(key, Single(a), depth, p) == [line] == [line] + [];
  }

  /** After the line `key:` the new container is the last entry of `c` and on top of the stack. */
  lemma OpenNode(st: State, key: string, depth: nat, c: nat, flag: bool, rd: Readers) returns (mid: State)
    requires PlainKey(key) && Ready(st, depth, c)
    requires forall i :: 0 <= i < |st.heap[c].entries| ==> st.heap[c].entries[i].0 != key
    ensures Step(st, Line(2 * depth, key + ":"), flag, rd) == Parsed(mid)
    ensures var id := |st.heap|;
            && mid.heap == st.heap[c := Dict(st.heap[c].entries + [(key, Ref(id))])] + [FreshContainer(flag)]
            && mid.stack == PopTo(st.stack, 2 * depth) + [Frame(2 * depth, id)]
            && PopTo(mid.stack, 2 * depth) == PopTo(st.stack, 2 * depth)
            && |mid.heap| == id + 1 && mid.heap[id] == FreshContainer(flag)
  {
    var base, id := PopTo(st.stack, 2 * depth), |st.heap|;
    assert key + ":" + "" == key + ":";
    KeyLine(st, key, "", depth, c, flag, rd);
    PutAppends(st.heap[c].entries, key, Ref(id));
    PopOne(base, Frame(2 * depth, id), 2 * depth);
    PopToTwice(st.stack, 2 * depth, 2 * depth);
    mid := State(Attach(st.heap + [FreshContainer(flag)], c, key, Ref(id)), base + [Frame(2 * depth, id)]);
  }

  lemma FirstIsNoItem(es: Entries, depth: nat, limit: nat, follow: Option<Line>, p: Printer)
    requires Printable(es, p) && NoItem(follow, limit)
    ensures NoItem(First(Lines(es, depth, p), follow), limit)
    ensures es.Entry? ==> Lines(es, depth, p) != []
  {
    if es.Entry? {
      assert NodeLines(es.key, es.node, depth, p) != [];
      match es.node
      case Single(a) =>
        KeyLineParts(es.key, " " + p.show(a));
        assert es.key + ":" + (" " + p.show(a)) == es.key + ": " + p.show(a);
      case _ =>
        KeyLineParts(es.key, "");
        assert es.key + ":" + "" == es.key + ":";
    }
  }

  lemma StillFresh(before: seq<(string, Value)>, value: Value, es: Entries)
    requires es.Entry? && es.key !in Keys(es.rest) && FreshKeys(before, es)
    ensures FreshKeys(before + [(es.key, value)], es.rest)
    ensures forall i :: 0 <= i < |before| ==> before[i].0 != es.key
  {
  }

  lemma {:induction false} ParseEntries(st: State, es: Entries, depth: nat, c: nat, follow: Option<Line>, p: Printer,
                                        run: Runner)
    returns (out: State, added: seq<(string, Value)>)
    requires IsRun(run, p.rd)
    requires Correct(p)
    requires Printable(es, p) && Full(es) && Ready(st, depth, c)
    requires FreshKeys(st.heap[c].entries, es) && NoItem(follow, depth)
    ensures run(st, Lines(es, depth, p), follow) == Parsed(out)
    ensures Extended(st, out, added, es, depth, c)
    decreases es, 4
  {
    match es
    case End =>
      out, added := st, [];
      RunnerStops(run, st, follow, p.rd);
      assert st.heap[c].entries + [] == st.heap[c].entries;
    case Entry(key, node, rest) =>
      FirstIsNoItem(rest, depth, depth, follow, p);
      StillFresh(st.heap[c].entries, Leaf(Null), es);
      var mid, value := ParseNode(st, key, node, depth, c, First(Lines(rest, depth, p), follow), p, run);
      StillFresh(st.heap[c].entries, value, es);
      out, added := ParseEntries(mid, rest, depth, c, follow, p, run);
      RunnerAppend(run, st, NodeLines(key, node, depth, p), Lines(rest, depth, p), follow, p.rd);
      AddedThenExtended(st, mid, out, key, value, node, added, rest, depth, c);
      added := [(key, value)] + added;
  }

  // ---- Main results ----------------------------------------------------------------------------------

  lemma FullTreeLoads(es: Entries, p: Printer)
    requires Correct(p)
    requires Printable(es, p) && Full(es) && es != End
    ensures var doc := Load(Lines(es, 0, p), p.rd);
            doc.Loaded? && Stands(doc.heap, Ref(0), Mapping(es), 0, |doc.heap|)
  {
    var lines := Lines(es, 0, p);
    FirstIsNoItem(es, 0, 0, None, p);
    assert First(lines, None) == Some(lines[0]);
    var st := Start(lines);
    assert [Frame(-1, 0)][..0] == [];
    assert PopTo(st.stack, 0) == st.stack;
    var run: Runner := (st, lines, follow) => Run(st, lines, follow, p.rd);
    var out, added := ParseEntries(st, es, 0, 0, None, p, run);
    assert [] + added == added;
    StandForStill(out.heap, out.heap, added, es, 1, |out.heap|, 0, |out.heap|);
  }

  /** For every non-empty printable tree the loader builds that tree, keys in order, but for empty
      lists, which come back as empty mappings. So it gives the tree itself back exactly when no list
      in it is empty. */
  lemma LoadUndoesPrint(es: Entries, p: Printer)
    requires Correct(p)
    requires Printable(es, p) && es != End
    ensures var doc := Load(Lines(es, 0, p), p.rd);
            && doc.Loaded?
            && Stands(doc.heap, Ref(0), Mapping(Emptied(es)), 0, |doc.heap|)
            && (Stands(doc.heap, Ref(0), Mapping(es), 0, |doc.heap|) <==> Full(es))
  {
    EmptiedIsFull(es, p);
    EmptiedPrintsAlike(es, 0, p);
    FullTreeLoads(Emptied(es), p);
    var doc := Load(Lines(es, 0, p), p.rd);
    if Stands(doc.heap, Ref(0), Mapping(es), 0, |doc.heap|) {
      StandsIsUnique(doc.heap, Ref(0), Mapping(es), Mapping(Emptied(es)), 0, |doc.heap|);
    }
  }

  // ---- From the text on -----------------------------------------------------------------------------

  /** The text of a line that is printed. */
  ghost predicate PrintedLine(line: Line) {
    Neat(line.text) && OneLine(line.text)
  }

  ghost predicate AllPrinted(lines: seq<Line>) {
    forall line :: line in lines ==> PrintedLine(line)
  }

  lemma OneLineJoin(s: string, t: string)
    requires OneLine(s) && OneLine(t)
    ensures OneLine(s + t)
  {
  }

  lemma OneColon(key: string, s: string)
    requires ':' !in key && ':' !in s
    ensures forall i :: 0 <= i < |key + ":" + s| && i != |key| ==> (key + ":" + s)[i] != ':'
  {
    var text := key + ":" + s;
    forall i | 0 <= i < |text| && i != |key| ensures text[i] != ':' {
      assert if i < |key| then text[i] == key[i] && key[i] in key
             else text[i] == s[i - |key| - 1] && s[i - |key| - 1] in s;
    }
  }

  /** A printed scalar behind a key or a dash opens no block. */
  lemma NoBlockOpened(key: string, s: string)
    requires ':' !in key && AtomShape(s)
    ensures !OpensBlock(key + ":" + (" " + s))
  {
    var text := key + ":" + (" " + s);
    if ':' in s {
      assert text[|text| - 1] == s[|s| - 1] == '"';
    } else {
      forall b | b in {">", "|", ">-", "|-"} ensures !EndsWith(text, ": " + b) {
        NotThatBlock(key, s, b);
      }
      assert ": " + ">" == ": >" && ": " + "|" == ": |" && ": " + ">-" == ": >-" && ": " + "|-" == ": |-";
    }
  }

  lemma NotThatBlock(key: string, s: string, b: string)
    requires ':' !in key && ':' !in s && s != b
    ensures !EndsWith(key + ":" + (" " + s), ": " + b)
  {
    var text, suffix := key + ":" + (" " + s), ": " + b;
    assert ':' !in " " + s;
    OneColon(key, " " + s);
    assert (": " + s)[2..] == s && suffix[2..] == b && suffix[0] == ':';
    if |suffix| <= |text| {
      var at := |text| - |suffix|;
      assert text[at..][0] == text[at];
      assert at == |key| ==> text[at..] == ": " + s;
    }
  }

  lemma ScalarIsUncut(front: string, s: string)
    requires AtomShape(s) && '#' !in front && ('#' in s ==> Unquoted(front))
    ensures Uncut(front + s)
  {
    if '#' in s {
      SkipSegment(front, s);
      SkipSegment(s, "");
      assert s + "" == s;
    } else {
      NoComment(front + s, 0, false, false);
    }
  }

  lemma KeyedScalarIsNeat(key: string, s: string)
    requires PlainKey(key) && AtomShape(s) && ('#' in s ==> !HasQuote(key))
    ensures Neat(key + ":" + (" " + s))
  {
    var text := key + ":" + (" " + s);
    if '#' in s {
      KeyIsUnquoted(key);
    }
    assert '#' !in key + ": ";
    ScalarIsUncut(key + ": ", s);
    assert key + ": " + s == text;
    KeyLineParts(key, " " + s);
    NoBlockOpened(key, s);
    assert text[0] == key[0] && text[|text| - 1] == s[|s| - 1];
  }

  lemma KeyedLineIsPrinted(key: string, s: string, indent: nat)
    requires PlainKey(key) && AtomShape(s) && ('#' in s ==> !HasQuote(key))
    ensures PrintedLine(Line(indent, key + ":" + (" " + s)))
  {
    KeyedScalarIsNeat(key, s);
    OneLineJoin(" ", s);
    OneLineJoin(key, ":");
    OneLineJoin(key + ":", " " + s);
  }

  lemma SingleLineIsPrinted(key: string, a: Atom, indent: nat, p: Printer)
    requires Correct(p)
    requires PlainKey(key) && PrintableNode(key, Single(a), p)
    ensures PrintedLine(Line(indent, key + ": " + p.show(a)))
  {
    assert ReadsAs(p.show(a), a, p.rd);
    KeyedLineIsPrinted(key, p.show(a), indent);
    ColonThenSpace(key, p.show(a));
  }

  lemma ColonThenSpace(key: string, s: string)
    ensures key + ": " + s == key + ":" + (" " + s)
  {
  }

  lemma KeyIsUnquoted(key: string)
    requires '#' !in key && !HasQuote(key)
    ensures Unquoted(key + ": ")
  {
    forall i | 0 <= i < |key| ensures key[i] !in {'\'', '"', '#'} {
      assert key[i] in key;
    }
  }

  lemma KeyAloneIsPrinted(key: string, indent: nat)
    requires PlainKey(key)
    ensures PrintedLine(Line(indent, key + ":"))
  {
    var text := key + ":";
    KeyLineParts(key, "");
    assert key + ":" + "" == text;
    assert '#' !in text;
    NoComment(text, 0, false, false);
    OneLineJoin(key, ":");
    assert text[|text| - 1] == ':';
  }

  lemma DashedIsPrinted(text: string, indent: nat)
    requires text != "" && Trimmed(text) && OneLine(text) && Uncut(text) && !OpensBlock("- " + text)
    ensures PrintedLine(Line(indent, "- " + text))
  {
    SkipSegment("- ", text);
    OneLineJoin("- ", text);
    var s := "- " + text;
    assert s[|s| - 1] == text[|text| - 1];
  }

  lemma ScalarOpensNoBlock(s: string)
    requires AtomShape(s)
    ensures !OpensBlock("- " + s)
  {
    if ':' in s {
      assert ("- " + s)[|s| + 1] == '"';
    } else {
      assert ':' !in "- " + s;
      EndsInNoBlock("- " + s);
    }
  }

  lemma AtomItemIsPrinted(a: Atom, indent: nat, p: Printer)
    requires Correct(p)
    requires p.ok(a)
    ensures PrintedLine(Line(indent, "- " + p.show(a)))
  {
    var s := p.show(a);
    assert ReadsAs(p.show(a), a, p.rd);
    ScalarIsUncut("", s);
    assert "" + s == s;
    ScalarOpensNoBlock(s);
    DashedIsPrinted(s, indent);
  }

  lemma KeyedOpensNoBlock(key: string, s: string)
    requires ':' !in key && AtomShape(s)
    ensures !OpensBlock("- " + (key + ":" + (" " + s)))
  {
    assert "- " + (key + ":" + (" " + s)) == ("- " + key) + ":" + (" " + s);
    assert ':' !in "- " + key;
    NoBlockOpened("- " + key, s);
  }

  lemma KeyedItemIsPrinted(key: string, s: string, indent: nat)
    requires PlainKey(key) && AtomShape(s) && ('#' in s ==> !HasQuote(key))
    ensures PrintedLine(Line(indent, "- " + (key + ":" + (" " + s))))
  {
    KeyedLineIsPrinted(key, s, indent);
    KeyedOpensNoBlock(key, s);
    DashedIsPrinted(key + ":" + (" " + s), indent);
  }

  lemma EntryItemIsPrinted(key: string, a: Atom, indent: nat, p: Printer)
    requires Correct(p)
    requires PlainKey(key) && PrintableNode(key, Single(a), p)
    ensures PrintedLine(Line(indent, "- " + (key + ": " + p.show(a))))
  {
    assert ReadsAs(p.show(a), a, p.rd);
    KeyedItemIsPrinted(key, p.show(a), indent);
    ColonThenSpace(key, p.show(a));
  }

  lemma JoinIsPrinted(xs: seq<Line>, ys: seq<Line>)
    requires AllPrinted(xs) && AllPrinted(ys)
    ensures AllPrinted(xs + ys)
  {
  }

  lemma EntriesItemIsPrinted(es: Entries, depth: nat, p: Printer)
    requires Correct(p)
    requires es.Entry? && es.node.Single? && PlainKey(es.key) && PrintableNode(es.key, es.node, p)
    requires AllPrinted(Lines(es.rest, depth + 1, p))
    ensures AllPrinted(Dashed(Lines(es, depth + 1, p), depth))
  {
    var rest := Lines(es.rest, depth + 1, p);
    EntryItemIsPrinted(es.key, es.node.atom, 2 * depth, p);
    DashedFirst(es.key, es.node.atom, rest, depth, p);
    assert Lines(es, depth + 1, p) == NodeLines(es.key, es.node, depth + 1, p) + rest;
  }

  lemma {:induction false} ItemsArePrinted(items: Items, depth: nat, p: Printer)
    requires Correct(p)
    requires PrintableItems(items, p)
    ensures AllPrinted(ItemLines(items, depth, p))
    decreases items
  {
    match items
    case NoItems =>
    case AtomItem(a, more) =>
      AtomItemIsPrinted(a, 2 * depth, p);
      ItemsArePrinted(more, depth, p);
      JoinIsPrinted([Line(2 * depth, "- " + p.show(a))], ItemLines(more, depth, p));
    case EntriesItem(es, more) =>
      LinesArePrinted(es.rest, depth + 1, p);
      EntriesItemIsPrinted(es, depth, p);
      ItemsArePrinted(more, depth, p);
      JoinIsPrinted(Dashed(Lines(es, depth + 1, p), depth), ItemLines(more, depth, p));
  }

  lemma {:induction false} NodeIsPrinted(key: string, node: Node, depth: nat, p: Printer)
    requires Correct(p)
    requires PlainKey(key) && PrintableNode(key, node, p)
    ensures AllPrinted(NodeLines(key, node, depth, p))
    decreases node
  {
    match node
    case Single(a) => SingleLineIsPrinted(key, a, 2 * depth, p);
    case Listing(items) =>
      KeyAloneIsPrinted(key, 2 * depth);
      ItemsArePrinted(items, depth + 1, p);
    case Mapping(sub) =>
      KeyAloneIsPrinted(key, 2 * depth);
      LinesArePrinted(sub, depth + 1, p);
  }

  lemma {:induction false} LinesArePrinted(es: Entries, depth: nat, p: Printer)
    requires Correct(p)
    requires Printable(es, p)
    ensures AllPrinted(Lines(es, depth, p))
    decreases es
  {
    if es.Entry? {
      NodeIsPrinted(es.key, es.node, depth, p);
      LinesArePrinted(es.rest, depth, p);
    }
  }

  /** The printed text of a tree, every line ended by a newline. */
  ghost function Print(es: Entries, p: Printer): string {
    Unlines(Rendered(Lines(es, 0, p)))
  }

  lemma RenderedIsOneLine(lines: seq<Line>)
    requires AllPrinted(lines)
    ensures forall raw <- Rendered(lines) :: OneLine(raw)
    ensures AllNeat(lines)
  {
    forall raw <- Rendered(lines) ensures OneLine(raw) {
      var i :| 0 <= i < |lines| && raw == Spaces(lines[i].indent) + lines[i].text;
      assert lines[i] in lines;
      OneLineJoin(Spaces(lines[i].indent), lines[i].text);
    }
  }

  lemma FirstRaw(es: Entries, p: Printer)
    requires es.Entry? && PlainKey(es.key)
    ensures Lines(es, 0, p) != []
    ensures var raw := Rendered(Lines(es, 0, p))[0]; raw != "" && raw[0] == es.key[0] && ':' in raw
  {
    FirstText(es.key, es.node, p);
    assert Lines(es, 0, p)[0] == NodeLines(es.key, es.node, 0, p)[0];
  }

  lemma FirstText(key: string, node: Node, p: Printer)
    requires key != ""
    ensures var lines := NodeLines(key, node, 0, p);
            && lines != [] && lines[0].indent == 0
            && lines[0].text != "" && lines[0].text[0] == key[0] && ':' in lines[0].text
  {
    assert NodeLines(key, node, 0, p)[0].text[|key|] == ':';
  }

  /** A printed text begins with its first key and ends with a newline. */
  lemma PrintedEnds(es: Entries, p: Printer)
    requires es.Entry? && PlainKey(es.key)
    ensures var text := Print(es, p);
            text != "" && text[0] == es.key[0] && ':' in text && text[|text| - 1] == '\n'
  {
    var raws := Rendered(Lines(es, 0, p));
    FirstRaw(es, p);
    assert Print(es, p) == raws[0] + "\n" + Unlines(raws[1..]);
    UnlinesEnds(raws);
  }

  lemma {:induction false} UnlinesEnds(raws: seq<string>)
    ensures raws != [] ==> Unlines(raws) != "" && Unlines(raws)[|Unlines(raws)| - 1] == '\n'
  {
    if raws != [] {
      UnlinesEnds(raws[1..]);
      assert raws[1..] == [] ==> Unlines(raws) == raws[0] + "\n";
    }
  }

  /** How a JSON text with a colon begins and ends, but for white space: it is an object, an array or
      a string (section 2 of RFC 8259). */
  ghost predicate LooksLikeJson(text: string) {
    var t := Trim(text);
    && t != ""
    && (t[0], t[|t| - 1]) in {('{', '}'), ('[', ']'), ('"', '"')}
  }

  ghost predicate ReadsOnlyJson(rd: Readers) {
    forall t: string :: rd.isJson(t) && ':' in t ==> LooksLikeJson(t)
  }

  lemma FirstStays(s: string)
    requires s != "" && !IsSpace(s[0])
    ensures Trim(s) != "" && Trim(s)[0] == s[0]
  {
    assert StripLeft(s, IsSpace) == s;
    RightKeepsFirst(s);
  }

  lemma {:induction false} RightKeepsFirst(s: string)
    requires s != "" && !IsSpace(s[0])
    ensures StripRight(s, IsSpace) != "" && StripRight(s, IsSpace)[0] == s[0]
  {
    if IsSpace(s[|s| - 1]) {
      RightKeepsFirst(s[..|s| - 1]);
    }
  }

  /** The text of a tree whose first key begins neither with a byte order mark nor, if the text ends
      accordingly, like JSON. */
  ghost predicate PrintableText(es: Entries, p: Printer) {
    && Printable(es, p) && es.Entry? && es.key[0] != BOM
    && (es.key[0] in {'{', '[', '"'} ==> !LooksLikeJson(Print(es, p)))
  }

  lemma PrintedIsBare(es: Entries, p: Printer)
    requires Correct(p)
    requires PrintableText(es, p) && ReadsOnlyJson(p.rd)
    ensures Strip(Print(es, p), c => c == BOM) == Print(es, p)
    ensures Trim(Print(es, p)) != "" && !p.rd.isJson(Print(es, p))
  {
    PrintedEnds(es, p);
    StripKeeps(Print(es, p), c => c == BOM);
    FirstStays(Print(es, p));
  }

  /** From the text on: splitting and preprocessing give the printed lines back, and loading them
      gives back the tree. */
  lemma LoadUndoesPrintedText(es: Entries, p: Printer)
    requires Correct(p)
    requires PrintableText(es, p) && ReadsOnlyJson(p.rd)
    ensures LoadText(Print(es, p), p.rd) == Load(Lines(es, 0, p), p.rd)
    ensures var doc := LoadText(Print(es, p), p.rd);
            && doc.Loaded?
            && Stands(doc.heap, Ref(0), Mapping(Emptied(es)), 0, |doc.heap|)
            && (Stands(doc.heap, Ref(0), Mapping(es), 0, |doc.heap|) <==> Full(es))
  {
    PrintedIsBare(es, p);
    LinesArePrinted(es, 0, p);
    RenderedIsOneLine(Lines(es, 0, p));
    SplitUndoesUnlines(Rendered(Lines(es, 0, p)));
    NeatLinesAreKept(Lines(es, 0, p), p.rd);
    LoadUndoesPrint(es, p);
  }

  /** The same for the standard printer: null, true and false, decimal numerals, words as they are, and
      other texts in double quotes come back as the values they were. */
  lemma StandardTextLoads(es: Entries, rd: Readers)
    requires PrintableText(es, StandardPrinter(rd)) && ReadsOnlyJson(rd)
    ensures var doc := LoadText(Print(es, StandardPrinter(rd)), rd);
            && doc.Loaded?
            && Stands(doc.heap, Ref(0), Mapping(Emptied(es)), 0, |doc.heap|)
  {
    StandardIsCorrect(rd);
    LoadUndoesPrintedText(es, StandardPrinter(rd));
  }

  /** Comments behind the lines and ignored lines between them do not change what is loaded. */
  lemma CommentedTextLoadsAlike(es: Entries, raws: seq<string>, p: Printer)
    requires Correct(p)
    requires Printable(es, p) && Dressed(raws, Lines(es, 0, p))
    ensures Load(Preprocessed(raws, p.rd), p.rd) == Load(Lines(es, 0, p), p.rd)
  {
    LinesArePrinted(es, 0, p);
    RenderedIsOneLine(Lines(es, 0, p));
    CommentsAreIgnored(raws, Lines(es, 0, p), p.rd);
  }

  /** A byte order mark at the front of the first key is lost. */
  lemma LeadingMarkIsLost(key: string, node: Node, rest: Entries, p: Printer)
    ensures LoadText(Print(Entry([BOM] + key, node, rest), p), p.rd) == LoadText(Print(Entry(key, node, rest), p), p.rd)
  {
    var plain, marked := Lines(Entry(key, node, rest), 0, p), Lines(Entry([BOM] + key, node, rest), 0, p);
    MarkedNode(key, node, p);
    assert marked[0] == Line(0, [BOM] + plain[0].text) && marked[1..] == plain[1..];
    MarkedPrint(plain, marked);
    MarkIsStripped(Unlines(Rendered(plain)), p.rd);
  }

  lemma MarkIsStripped(text: string, rd: Readers)
    ensures LoadText([BOM] + text, rd) == LoadText(text, rd)
  {
    assert ([BOM] + text)[1..] == text;
  }

  lemma MarkedPrint(plain: seq<Line>, marked: seq<Line>)
    requires plain != [] && marked != [] && plain[0].indent == 0
    requires marked[0] == Line(0, [BOM] + plain[0].text) && marked[1..] == plain[1..]
    ensures Unlines(Rendered(marked)) == [BOM] + Unlines(Rendered(plain))
  {
    var rest := Rendered(plain[1..]);
    RenderedFirst(plain);
    RenderedFirst(marked);
    assert ([plain[0].text] + rest)[1..] == rest && ([[BOM] + plain[0].text] + rest)[1..] == rest;
  }

  lemma RenderedFirst(lines: seq<Line>)
    requires lines != [] && lines[0].indent == 0
    ensures Rendered(lines) == [lines[0].text] + Rendered(lines[1..])
  {
    assert Spaces(0) + lines[0].text == lines[0].text;
    forall i | 0 < i < |lines| ensures Rendered(lines)[i] == Rendered(lines[1..])[i - 1] {
      assert lines[i] == lines[1..][i - 1];
    }
  }

  lemma MarkedNode(key: string, node: Node, p: Printer)
    ensures var plain, marked := NodeLines(key, node, 0, p), NodeLines([BOM] + key, node, 0, p);
            && plain != [] && marked != [] && marked[0] == Line(0, [BOM] + plain[0].text) && plain[0].indent == 0
            && marked[1..] == plain[1..]
  {
    match node
    case Single(a) => assert [BOM] + key + ": " + p.show(a) == [BOM] + (key + ": " + p.show(a));
    case _ => assert [BOM] + key + ":" == [BOM] + (key + ":");
  }

  // ---- Why a mapping in a list must begin with a scalar -----------------------------------------------

  /** A list with a mapping with a mapping, which is open. */
  function Opened(inner: seq<(string, Value)>): State {
    State([List([Ref(1)]), Dict([("k", Ref(2))]), Dict(inner)], [Frame(-1, 0), Frame(0, 1), Frame(1, 2)])
  }

  lemma ItemOpensTwo(rd: Readers)
    ensures Step(Start([Line(0, "- k:")]), Line(0, "- k:"), false, rd) == Parsed(Opened([]))
  {
    var stack := [Frame(-1, 0)];
    assert "- k:"[2..] == "k:" && "k:"[..1] == "k" && "k:"[2..] == "" && "k:"[1..] == ":";
    StripKeeps("k:", IsSpace);
    StripKeeps("k", IsSpace);
    StripKeeps("", IsSpace);
    assert ColonAt("k:") == 1;
    MissingIsFresh("", false, rd);
    assert PopTo(stack, 1) == stack && PopSiblings(stack, [List([])], 0) == stack;
    var heap: Heap := [List([])];
    assert heap[0].items + [Ref(1)] == [Ref(1)] && Append(heap, 0, Ref(1)) == [List([Ref(1)])];
    assert [List([Ref(1)])] + [Dict([("k", Ref(2))]), Dict([])] == Opened([]).heap;
    assert ItemStep(heap, stack, 0, "k:", false, rd) == Opened([]);
  }

  /** Whether it is indented by two or by four, a key joins the innermost mapping. */
  lemma KeyJoinsInner(inner: seq<(string, Value)>, key: string, i: int, depth: nat, flag: bool, rd: Readers)
    requires PlainKey(key) && depth in {1, 2} && forall k :: 0 <= k < |inner| ==> inner[k].0 != key
    ensures Step(Opened(inner), Line(2 * depth, key + ": " + Numeral(i)), flag, rd)
         == Parsed(Opened(inner + [(key, Leaf(Integer(i)))]))
  {
    var st, s := Opened(inner), Numeral(i);
    AtomIsRead(Number(i), rd);
    AtomTrims(s);
    assert key + ":" + (" " + s) == key + ": " + s;
    assert PopTo(st.stack, 2 * depth) == st.stack;
    KeyLine(st, key, " " + s, depth, 2, flag, rd);
    PutAppends(inner, key, Leaf(Integer(i)));
    assert st.heap[2 := Dict(inner + [(key, Leaf(Integer(i)))])] == Opened(inner + [(key, Leaf(Integer(i)))]).heap;
  }

  lemma RunThree(st: State, a: Line, b: Line, c: Line, one: State, two: State, three: State, rd: Readers)
    requires Step(st, a, NextIsList(a, Some(b)), rd) == Parsed(one)
    requires Step(one, b, NextIsList(b, Some(c)), rd) == Parsed(two)
    requires Step(two, c, NextIsList(c, None), rd) == Parsed(three)
    ensures Run(st, [a, b, c], None, rd) == Parsed(three)
  {
    RunFirst(st, a, [b, c], None, one, rd);
    RunFirst(one, b, [c], None, two, rd);
    RunFirst(two, c, [], None, three, rd);
    assert [a] + [b, c] == [a, b, c] && [b] + [c] == [b, c] && [c] + [] == [c];
  }

  const A: (string, Value) := ("a", Leaf(Integer(1)))
  const B: (string, Value) := ("b", Leaf(Integer(2)))

  lemma FirstKeyJoins(flag: bool, rd: Readers)
    ensures Step(Opened([]), Line(4, "a: " + Numeral(1)), flag, rd) == Parsed(Opened([A]))
  {
    SmallKeys();
    KeyJoinsInner([], "a", 1, 2, flag, rd);
    assert "a" + ": " + Numeral(1) == "a: " + Numeral(1) && [] + [A] == [A];
  }

  lemma SecondKeyJoins(flag: bool, rd: Readers)
    ensures Step(Opened([A]), Line(2, "b: " + Numeral(2)), flag, rd) == Parsed(Opened([A, B]))
  {
    SmallKeys();
    KeyJoinsInner([A], "b", 2, 1, flag, rd);
    assert "b" + ": " + Numeral(2) == "b: " + Numeral(2) && [A] + [B] == [A, B];
  }

  lemma SmallKeys()
    ensures PlainKey("a") && PlainKey("b")
  {
  }

  /** When the first value of an item is a mapping, the item's next key lands in that mapping: the item
      keeps its one key, and the mapping has two. */
  lemma NextKeyIsSwallowed(rd: Readers)
    ensures Load([Line(0, "- k:"), Line(4, "a: " + Numeral(1)), Line(2, "b: " + Numeral(2))], rd)
         == Loaded([List([Ref(1)]), Dict([("k", Ref(2))]), Dict([A, B])])
  {
    var first, second, third := Line(0, "- k:"), Line(4, "a: " + Numeral(1)), Line(2, "b: " + Numeral(2));
    ItemOpensTwo(rd);
    FirstKeyJoins(NextIsList(second, Some(third)), rd);
    SecondKeyJoins(NextIsList(third, None), rd);
    assert !NextIsList(first, Some(second)) && Start([first, second, third]) == Start([first]);
    RunThree(Start([first]), first, second, third, Opened([]), Opened([A]), Opened([A, B]), rd);
  }
}
