/** The indentation-stack parser of the fallback YAML loader (yaml.py). Containers live in a heap and
    are mutated through references to them, as the nested lists and dictionaries of the source are. */
module YamlLoader {
  import opened Common
  import opened YamlText

  datatype Value = Leaf(scalar: Scalar) | Ref(id: nat)

  /** A dictionary in key order, or a list. */
  datatype Container = Dict(entries: seq<(string, Value)>) | List(items: seq<Value>)

  type Heap = seq<Container>

  /** An open container and the indentation it was opened at. */
  datatype Frame = Frame(indent: int, id: nat)

  datatype State = State(heap: Heap, stack: seq<Frame>)

  datatype Result = Parsed(state: State) | BadIndentation | ItemUnderNonList

  // ---- The stack -----------------------------------------------------------------------------

  function Top(stack: seq<Frame>): Frame
    requires stack != []
  {
    stack[|stack| - 1]
  }

  /** Pop while the top was opened at `indent` or deeper. */
  function PopTo(stack: seq<Frame>, indent: int): seq<Frame> {
    if stack != [] && Top(stack).indent >= indent then PopTo(stack[..|stack| - 1], indent) else stack
  }

  predicate IsList(heap: Heap, id: nat) {
    id < |heap| && heap[id].List?
  }

  /** Pop frames opened at exactly `indent` that are not lists. */
  function PopSiblings(stack: seq<Frame>, heap: Heap, indent: int): seq<Frame> {
    if stack != [] && Top(stack).indent == indent && !IsList(heap, Top(stack).id)
    then PopSiblings(stack[..|stack| - 1], heap, indent)
    else stack
  }

  /** `parent_for`: the stack whose top is the parent of a line. */
  function ParentStack(st: State, indent: nat, item: bool): seq<Frame> {
    if item then PopSiblings(PopTo(st.stack, indent + 1), st.heap, indent) else PopTo(st.stack, indent)
  }

  // ---- One line ------------------------------------------------------------------------------------

  function FreshContainer(list: bool): Container {
    if list then List([]) else Dict([])
  }

  function Put(entries: seq<(string, Value)>, key: string, value: Value): seq<(string, Value)> {
    if entries == [] then [(key, value)]
    else if entries[0].0 == key then [(key, value)] + entries[1..]
    else [entries[0]] + Put(entries[1..], key, value)
  }

  /** `dict[key] = value` or `list.append({key: value})`, by what the parent is. */
  function Attach(heap: Heap, parent: nat, key: string, value: Value): Heap
    requires parent < |heap|
  {
    match heap[parent]
    case Dict(entries) => heap[parent := Dict(Put(entries, key, value))]
    case List(items) => heap[parent := List(items + [Ref(|heap|)])] + [Dict([(key, value)])]
  }

  function Append(heap: Heap, parent: nat, value: Value): Heap
    requires IsList(heap, parent)
  {
    heap[parent := List(heap[parent].items + [value])]
  }

  function NextIsList(line: Line, next: Option<Line>): bool {
    next.Some? && next.value.indent >= line.indent && IsItem(next.value.text)
  }

  /** The container that a reading is, if it is one. */
  function Held(r: Reading): Option<Container> {
    match r
    case One(_) => None
    case FlowList(items) => Some(List(seq(|items|, i requires 0 <= i < |items| => Leaf(items[i]))))
    case FlowDict(entries) =>
      Some(Dict(seq(|entries|, i requires 0 <= i < |entries| => (entries[i].0, Leaf(entries[i].1)))))
  }

  /** The value behind a colon; without one, a container for the lines that follow. */
  function ValueOf(raw: string, missing: bool, nextIsList: bool, rd: Readers): Reading {
    if !missing then ReadScalar(raw, rd) else if nextIsList then FlowList([]) else FlowDict([])
  }

  lemma MissingIsFresh(raw: string, nextIsList: bool, rd: Readers)
    ensures Held(ValueOf(raw, true, nextIsList, rd)) == Some(FreshContainer(nextIsList))
  {
    var child := Held(ValueOf(raw, true, nextIsList, rd)).value;
    if nextIsList {
      assert child.items == [];
    } else {
      assert child.entries == [];
    }
  }

  function ItemStep(heap: Heap, stack: seq<Frame>, indent: nat, item: string, nextIsList: bool, rd: Readers): State
    requires stack != [] && IsList(heap, Top(stack).id)
  {
    var parent := Top(stack).id;
    if item == "" then
      State(Append(heap, parent, Ref(|heap|)) + [FreshContainer(nextIsList)], stack + [Frame(indent, |heap|)])
    else if HasColon(item) && item[0] != '"' && item[0] != '\'' then
      var key, raw := Trim(item[..ColonAt(item)]), item[ColonAt(item) + 1..];
      var value := ValueOf(raw, Trim(raw) == "", nextIsList, rd);
      match Held(value)
      case None =>
        State(Append(heap, parent, Ref(|heap|)) + [Dict([(key, Leaf(value.scalar))])], stack + [Frame(indent, |heap|)])
      case Some(child) =>
        State(Append(heap, parent, Ref(|heap|)) + [Dict([(key, Ref(|heap| + 1))]), child],
              stack + [Frame(indent, |heap|), Frame(indent + 1, |heap| + 1)])
    else
      var value := ReadScalar(item, rd);
      match Held(value)
      case None => State(Append(heap, parent, Leaf(value.scalar)), stack)
      case Some(child) => State(Append(heap, parent, Ref(|heap|)) + [child], stack)
  }

  function KeyStep(heap: Heap, stack: seq<Frame>, indent: nat, text: string, nextIsList: bool, rd: Readers): State
    requires stack != [] && Top(stack).id < |heap| && HasColon(text)
  {
    var parent, key, raw := Top(stack).id, Trim(text[..ColonAt(text)]), Trim(text[ColonAt(text) + 1..]);
    var value := ValueOf(raw, raw == "" || raw[0] == '&', nextIsList, rd);
    match Held(value)
    case None => State(Attach(heap, parent, key, Leaf(value.scalar)), stack)
    case Some(child) => State(Attach(heap + [child], parent, key, Ref(|heap|)), stack + [Frame(indent, |heap|)])
  }

  ghost predicate Valid(st: State) {
    && |st.stack| > 0 && st.stack[0].indent == -1
    && (forall i :: 1 <= i < |st.stack| ==> st.stack[i].indent >= 0)
    && (forall i :: 0 <= i < |st.stack| ==> st.stack[i].id < |st.heap|)
  }

  lemma {:induction false} PopToKeepsRoot(stack: seq<Frame>, indent: nat)
    requires stack != [] && stack[0].indent == -1
    ensures PopTo(stack, indent) != [] && PopTo(stack, indent) <= stack
  {
    if Top(stack).indent >= indent {
      PopToKeepsRoot(stack[..|stack| - 1], indent);
    }
  }

  lemma {:induction false} PopSiblingsKeepsRoot(stack: seq<Frame>, heap: Heap, indent: nat)
    requires stack != [] && stack[0].indent == -1
    ensures PopSiblings(stack, heap, indent) != [] && PopSiblings(stack, heap, indent) <= stack
  {
    if Top(stack).indent == indent && !IsList(heap, Top(stack).id) {
      PopSiblingsKeepsRoot(stack[..|stack| - 1], heap, indent);
    }
  }

  /** The root frame is never popped. */
  lemma ParentExists(st: State, indent: nat, item: bool)
    requires Valid(st)
    ensures var stack := ParentStack(st, indent, item);
            stack != [] && stack <= st.stack && Valid(State(st.heap, stack))
  {
    if item {
      PopToKeepsRoot(st.stack, indent + 1);
      PopSiblingsKeepsRoot(PopTo(st.stack, indent + 1), st.heap, indent);
    } else {
      PopToKeepsRoot(st.stack, indent);
    }
  }

  function Step(st: State, line: Line, nextIsList: bool, rd: Readers): Result {
    var item := IsItem(line.text);
    var stack := ParentStack(st, line.indent, item);
    if stack == [] then BadIndentation
    else if item then
      if IsList(st.heap, Top(stack).id)
      then Parsed(ItemStep(st.heap, stack, line.indent, Trim(line.text[2..]), nextIsList, rd))
      else ItemUnderNonList
    else if !HasColon(line.text) || Top(stack).id >= |st.heap| then Parsed(State(st.heap, stack))
    else Parsed(KeyStep(st.heap, stack, line.indent, line.text, nextIsList, rd))
  }

  function First(lines: seq<Line>, follow: Option<Line>): Option<Line> {
    if lines == [] then follow else Some(lines[0])
  }

  /** All lines in turn; `follow` is the line after the last one. */
  function Run(st: State, lines: seq<Line>, follow: Option<Line>, rd: Readers): Result
    decreases |lines|
  {
    if lines == [] then Parsed(st)
    else
      match Step(st, lines[0], NextIsList(lines[0], First(lines[1..], follow)), rd)
      case Parsed(next) => Run(next, lines[1..], follow, rd)
      case error => error
  }

  function Start(lines: seq<Line>): State
    requires lines != []
  {
    State([FreshContainer(IsItem(lines[0].text))], [Frame(-1, 0)])
  }

  datatype Document = Empty | FromJson(text: string) | Loaded(heap: Heap) | Failed(error: Result)

  function Load(lines: seq<Line>, rd: Readers): Document {
    if lines == [] then Empty
    else
      match Run(Start(lines), lines, None, rd)
      case Parsed(st) => Loaded(st.heap)
      case error => Failed(error)
  }

  const BOM := '\U{feff}'

  /** `safe_load` of a text: byte order marks go, and JSON is tried first. */
  function LoadText(text: string, rd: Readers): Document {
    var bare := Strip(text, c => c == BOM);
    if Trim(bare) == "" then Empty
    else if rd.isJson(bare) then FromJson(bare)
    else Load(Preprocessed(SplitLines(bare), rd), rd)
  }

  // ---- The code --------------------------------------------------------------------------------------

  class Loader {
    var heap: Heap
    var stack: seq<Frame>
    const rd: Readers

    function Current(): State
      reads this
    {
      State(heap, stack)
    }

    constructor (lines: seq<Line>, rd: Readers)
      requires lines != []
      ensures Current() == Start(lines) && this.rd == rd
    {
      this.rd := rd;
      heap := [FreshContainer(IsItem(lines[0].text))];
      stack := [Frame(-1, 0)];
    }

    method ParentFor(indent: nat, item: bool)
      modifies this
      ensures heap == old(heap)
      ensures stack == ParentStack(old(Current()), indent, item)
    {
      ghost var target := PopTo(stack, if item then indent + 1 else indent);
      while stack != [] && (Top(stack).indent > indent || (Top(stack).indent == indent && !item))
        invariant heap == old(heap)
        invariant PopTo(stack, if item then indent + 1 else indent) == target
        decreases |stack|
      {
        stack := stack[..|stack| - 1];
      }
      if item {
        ghost var parent := PopSiblings(stack, heap, indent);
        while stack != [] && Top(stack).indent == indent && !IsList(heap, Top(stack).id)
          invariant heap == old(heap)
          invariant PopSiblings(stack, heap, indent) == parent
          decreases |stack|
        {
          stack := stack[..|stack| - 1];
        }
      }
    }

    method Open(indent: int, container: Container) returns (id: nat)
      modifies this
      ensures id == |old(heap)| && heap == old(heap) + [container] && stack == old(stack) + [Frame(indent, id)]
    {
      id := |heap|;
      heap := heap + [container];
      stack := stack + [Frame(indent, id)];
    }

    /** Opens a dictionary of one entry, and the entry's value if that is a container. */
    method OpenEntry(indent: nat, key: string, value: Reading)
      modifies this
      ensures heap == old(heap) + if value.One? then [Dict([(key, Leaf(value.scalar))])]
                                  else [Dict([(key, Ref(|old(heap)| + 1))]), Held(value).value]
      ensures stack == old(stack) + [Frame(indent, |old(heap)|)]
                     + if value.One? then [] else [Frame(indent + 1, |old(heap)| + 1)]
    {
      if value.One? {
        var _ := Open(indent, Dict([(key, Leaf(value.scalar))]));
      } else {
        var _ := Open(indent, Dict([(key, Ref(|heap| + 1))]));
        var _ := Open(indent + 1, Held(value).value);
      }
    }

    method Item(indent: nat, item: string, nextIsList: bool)
      requires stack != [] && IsList(heap, Top(stack).id)
      modifies this
      ensures Current() == ItemStep(old(heap), old(stack), indent, item, nextIsList, rd)
    {
      var parent := Top(stack).id;
      if item == "" {
        heap := Append(heap, parent, Ref(|heap|));
        var _ := Open(indent, FreshContainer(nextIsList));
      } else if HasColon(item) && item[0] != '"' && item[0] != '\'' {
        var key, raw := Trim(item[..ColonAt(item)]), item[ColonAt(item) + 1..];
        heap := Append(heap, parent, Ref(|heap|));
        OpenEntry(indent, key, ValueOf(raw, Trim(raw) == "", nextIsList, rd));
      } else {
        var value := ReadScalar(item, rd);
        if value.One? {
          heap := Append(heap, parent, Leaf(value.scalar));
        } else {
          heap := Append(heap, parent, Ref(|heap|)) + [Held(value).value];
        }
      }
    }

    method Key(indent: nat, text: string, nextIsList: bool)
      requires stack != [] && Top(stack).id < |heap| && HasColon(text)
      modifies this
      ensures Current() == KeyStep(old(heap), old(stack), indent, text, nextIsList, rd)
    {
      var parent, key, raw := Top(stack).id, Trim(text[..ColonAt(text)]), Trim(text[ColonAt(text) + 1..]);
      var value := ValueOf(raw, raw == "" || raw[0] == '&', nextIsList, rd);
      if value.One? {
        heap := Attach(heap, parent, key, Leaf(value.scalar));
      } else {
        var id := Open(indent, Held(value).value);
        heap := Attach(heap, parent, key, Ref(id));
      }
    }

    method ParseLine(line: Line, nextIsList: bool) returns (r: Result)
      modifies this
      ensures r == Step(old(Current()), line, nextIsList, rd)
      ensures r.Parsed? ==> Current() == r.state
    {
      ParentFor(line.indent, IsItem(line.text));
      if stack == [] {
        return BadIndentation;
      }
      if IsItem(line.text) {
        if !IsList(heap, Top(stack).id) {
          return ItemUnderNonList;
        }
        Item(line.indent, Trim(line.text[2..]), nextIsList);
      } else if HasColon(line.text) && Top(stack).id < |heap| {
        Key(line.indent, line.text, nextIsList);
      }
      return Parsed(Current());
    }
  }

  method SafeLoad(text: string, rd: Readers) returns (doc: Document)
    ensures doc == LoadText(text, rd)
  {
    var bare := Strip(text, c => c == BOM);
    if Trim(bare) == "" {
      return Empty;
    }
    if rd.isJson(bare) {
      return FromJson(bare);
    }
    var lines := Preprocess(SplitLines(bare), rd);
    if lines == [] {
      return Empty;
    }
    doc := ParseLines(lines, rd);
  }

  method ParseLines(lines: seq<Line>, rd: Readers) returns (doc: Document)
    requires lines != []
    ensures doc == Load(lines, rd)
  {
    var loader := new Loader(lines, rd);
    for i := 0 to |lines|
      invariant loader.rd == rd
      invariant Run(Start(lines), lines, None, rd) == Run(loader.Current(), lines[i..], None, rd)
    {
      assert lines[i..][1..] == lines[i + 1..];
      var next := if i + 1 < |lines| then Some(lines[i + 1]) else None;
      assert next == First(lines[i + 1..], None);
      var r := loader.ParseLine(lines[i], NextIsList(lines[i], next));
      if !r.Parsed? {
        return Failed(r);
      }
    }
    return Loaded(loader.heap);
  }

  // ---- Malformed input ----------------------------------------------------------------------------

  lemma GrownIsValid(st: State, heap: Heap, frames: seq<Frame>)
    requires Valid(st) && |st.heap| <= |heap|
    requires forall f :: f in frames ==> f.indent >= 0 && f.id < |heap|
    ensures Valid(State(heap, st.stack + frames))
  {
    forall i | 0 <= i < |frames| ensures frames[i] in frames {
    }
  }

  lemma ItemStepKeepsValid(st: State, indent: nat, item: string, nextIsList: bool, rd: Readers)
    requires Valid(st) && IsList(st.heap, Top(st.stack).id)
    ensures Valid(ItemStep(st.heap, st.stack, indent, item, nextIsList, rd))
  {
    var next := ItemStep(st.heap, st.stack, indent, item, nextIsList, rd);
    var n := |st.heap|;
    if next.stack == st.stack {
      GrownIsValid(st, next.heap, []);
      assert st.stack + [] == st.stack;
    } else if |next.stack| == |st.stack| + 1 {
      GrownIsValid(st, next.heap, [Frame(indent, n)]);
    } else {
      GrownIsValid(st, next.heap, [Frame(indent, n), Frame(indent + 1, n + 1)]);
    }
  }

  lemma KeyStepKeepsValid(st: State, indent: nat, text: string, nextIsList: bool, rd: Readers)
    requires Valid(st) && HasColon(text)
    ensures Valid(KeyStep(st.heap, st.stack, indent, text, nextIsList, rd))
  {
    var next := KeyStep(st.heap, st.stack, indent, text, nextIsList, rd);
    if next.stack == st.stack {
      GrownIsValid(st, next.heap, []);
      assert st.stack + [] == st.stack;
    } else {
      GrownIsValid(st, next.heap, [Frame(indent, |st.heap|)]);
    }
  }

  lemma StepKeepsValid(st: State, line: Line, nextIsList: bool, rd: Readers)
    requires Valid(st)
    ensures var r := Step(st, line, nextIsList, rd);
            !r.BadIndentation? && (r.Parsed? ==> Valid(r.state))
  {
    var item := IsItem(line.text);
    ParentExists(st, line.indent, item);
    var parent := State(st.heap, ParentStack(st, line.indent, item));
    if item && IsList(st.heap, Top(parent.stack).id) {
      ItemStepKeepsValid(parent, line.indent, Trim(line.text[2..]), nextIsList, rd);
    } else if !item && HasColon(line.text) {
      KeyStepKeepsValid(parent, line.indent, line.text, nextIsList, rd);
    }
  }

  /** "invalid indentation" is never reported: the root frame always remains. */
  lemma {:induction false} IndentationIsNeverInvalid(st: State, lines: seq<Line>, follow: Option<Line>, rd: Readers)
    requires Valid(st)
    ensures var r := Run(st, lines, follow, rd);
            !r.BadIndentation? && (r.Parsed? ==> Valid(r.state))
    decreases |lines|
  {
    if lines != [] {
      var flag := NextIsList(lines[0], First(lines[1..], follow));
      StepKeepsValid(st, lines[0], flag, rd);
      if Step(st, lines[0], flag, rd).Parsed? {
        IndentationIsNeverInvalid(Step(st, lines[0], flag, rd).state, lines[1..], follow, rd);
      }
    }
  }

  /** So loading any text fails only on a list item under something that is no list. */
  lemma LoadFailsOnlyOnItems(text: string, rd: Readers)
    ensures LoadText(text, rd).Failed? ==> LoadText(text, rd).error == ItemUnderNonList
  {
    var lines := Preprocessed(SplitLines(Strip(text, c => c == BOM)), rd);
    if lines != [] {
      IndentationIsNeverInvalid(Start(lines), lines, None, rd);
    }
  }
}
