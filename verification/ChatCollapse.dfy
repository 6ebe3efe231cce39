/** Folding a streamed chat completion into one document: text parts are appended, and the
    fragments of tool calls are merged by index, in order of first appearance. */
module ChatCollapse {

  import opened Wrappers

  /** The usage object of an event; it is passed on as received. */
  type Usage(==, !new)

  /** One entry of a delta's `tool_calls`. */
  datatype Fragment = Fragment(index: Option<int>, id: string, name: string, args: string)

  datatype Delta = Delta(
    content: Option<string>, reasoning: Option<string>, legacy: Option<string>,
    tools: seq<Fragment>)

  datatype Choice = Choice(finish: Option<string>, delta: Delta)

  /** A decoded event. `id` and `usage` are None when absent, empty or of another JSON type. */
  datatype Event = Event(
    id: Option<string>, model: string, created: int, usage: Option<Usage>, choices: seq<Choice>)

  /** A line of the stream: no data or blank data, the terminator, undecodable, or an event. */
  datatype Line = Skipped | Done | Malformed | Data(event: Event)

  datatype Tool = Tool(id: string, name: string, args: string)

  datatype Folded = Folded(
    id: string, model: string, created: int,
    content: string, reasoning: string,
    order: seq<int>, tools: map<int, Tool>,
    finish: string, usage: Option<Usage>, marked: bool)

  const START := Folded("", "", 0, "", "", [], map[], "", None, false)
  const NO_TOOL := Tool("", "", "")

  // ------------------------------------------------------------------------------------
  // The fold, as values.
  // ------------------------------------------------------------------------------------

  function Text(s: Option<string>): string {
    if s.Some? then s.value else ""
  }

  /** A name may arrive whole, repeated, as a longer version of itself, or in pieces. */
  function MergeName(current: string, fragment: string): string {
    if current == "" then fragment
    else if fragment == current then current
    else if current <= fragment then fragment
    else current + fragment
  }

  function IndexOf(f: Folded, fragment: Fragment): int {
    if fragment.index.Some? then fragment.index.value else |f.tools|
  }

  function ToolAt(f: Folded, i: int): Tool {
    if i in f.tools then f.tools[i] else NO_TOOL
  }

  function Merged(tool: Tool, fragment: Fragment): Tool {
    Tool(if fragment.id != "" then fragment.id else tool.id,
         if fragment.name != "" then MergeName(tool.name, fragment.name) else tool.name,
         tool.args + fragment.args)
  }

  function AddFragment(f: Folded, fragment: Fragment): Folded {
    var i := IndexOf(f, fragment);
    f.(order := if i in f.tools then f.order else f.order + [i],
       tools := f.tools[i := Merged(ToolAt(f, i), fragment)])
  }

  /** Making room for a tool first and merging into it then is adding the fragment. */
  lemma AddFragmentIs(f: Folded, fragment: Fragment, g: Folded)
    requires var i := IndexOf(f, fragment);
             var room := f.tools[i := ToolAt(f, i)];
             g == f.(order := if i in f.tools then f.order else f.order + [i],
                     tools := room[i := Merged(room[i], fragment)])
    ensures g == AddFragment(f, fragment)
  {
    hide Merged;
  }

  function AddFragments(f: Folded, fragments: seq<Fragment>): Folded {
    if fragments == [] then f
    else AddFragment(AddFragments(f, fragments[..|fragments| - 1]), fragments[|fragments| - 1])
  }

  lemma NextFragment(f: Folded, fragments: seq<Fragment>, n: nat)
    requires n < |fragments|
    ensures AddFragments(f, fragments[..n + 1]) ==
            AddFragment(AddFragments(f, fragments[..n]), fragments[n])
  {
    assert fragments[..n + 1][..n] == fragments[..n];
  }

  function ReasoningOf(d: Delta): string {
    if Text(d.reasoning) != "" then Text(d.reasoning) else Text(d.legacy)
  }

  function AddText(f: Folded, d: Delta): Folded {
    f.(content := f.content + Text(d.content), reasoning := f.reasoning + ReasoningOf(d))
  }

  predicate HasText(d: Delta) {
    Text(d.content) != "" || ReasoningOf(d) != ""
  }

  function AddDelta(f: Folded, d: Delta): Folded {
    var g := AddFragments(AddText(f, d), d.tools);
    g.(marked := g.marked || HasText(d) || d.tools != [])
  }

  function AddChoice(f: Folded, c: Choice): Folded {
    var finish := Text(c.finish);
    AddDelta(f.(finish := if finish != "" && finish != "null" then finish else f.finish), c.delta)
  }

  function AddChoices(f: Folded, choices: seq<Choice>): Folded {
    if choices == [] then f
    else AddChoice(AddChoices(f, choices[..|choices| - 1]), choices[|choices| - 1])
  }

  /** The first id, model and creation time win; the last usage wins. */
  function AddHead(f: Folded, e: Event): Folded {
    f.(id := if f.id == "" then Text(e.id) else f.id,
       model := if f.model == "" then e.model else f.model,
       created := if f.created == 0 then e.created else f.created,
       usage := if e.usage.Some? then e.usage else f.usage)
  }

  function AddEvent(f: Folded, e: Event): Folded {
    AddChoices(AddHead(f, e), e.choices)
  }

  // ------------------------------------------------------------------------------------
  // The stream around the fold.
  // ------------------------------------------------------------------------------------

  datatype Completion = Completion(
    id: string, model: string, created: int, content: string, reasoning: Option<string>,
    calls: seq<Tool>, finish: string, usage: Option<Usage>)

  datatype CollapseError = InvalidEvent | ReadFailed | NoEvents

  datatype Outcome = Collapsed(document: Completion) | Failed(error: CollapseError)

  /** What a document takes from its surroundings when the stream does not say. */
  datatype Defaults = Defaults(model: string, created: int, id: string)

  function Render(f: Folded, d: Defaults): Completion {
    Completion(
      if f.id == "" then d.id else f.id,
      if f.model == "" then d.model else f.model,
      if f.created == 0 then d.created else f.created,
      f.content,
      if f.reasoning == "" then None else Some(f.reasoning),
      seq(|f.order|, k requires 0 <= k < |f.order| => ToolAt(f, f.order[k])),
      if f.finish == "" then "stop" else f.finish,
      f.usage)
  }

  /** How many lines precede the terminator, looking from line n on. */
  function BodyFrom(lines: seq<Line>, n: nat): (end: nat)
    requires n <= |lines|
    ensures n <= end <= |lines|
    ensures forall k | n <= k < end :: !lines[k].Done?
    ensures end < |lines| ==> lines[end].Done?
    decreases |lines| - n
  {
    if n == |lines| || lines[n].Done? then n else BodyFrom(lines, n + 1)
  }

  function Body(lines: seq<Line>): (end: nat)
    ensures end <= |lines|
  {
    BodyFrom(lines, 0)
  }

  /** How many events the first n lines carry. */
  function EventCount(lines: seq<Line>, n: nat): nat
    requires n <= |lines|
  {
    if n == 0 then 0 else EventCount(lines, n - 1) + if lines[n - 1].Data? then 1 else 0
  }

  /** The fold of the first n lines. */
  function FoldLines(lines: seq<Line>, n: nat): Folded
    requires n <= |lines|
  {
    if n == 0 then START
    else if lines[n - 1].Data? then AddEvent(FoldLines(lines, n - 1), lines[n - 1].event)
    else FoldLines(lines, n - 1)
  }

  /** No event among the first n lines fails to decode. */
  predicate Readable(lines: seq<Line>, n: nat)
    requires n <= |lines|
  {
    forall k | 0 <= k < n :: !lines[k].Malformed?
  }

  /** The result of a stream: only what precedes the terminator matters, and a read error
      matters only if the terminator never came. */
  function Expected(lines: seq<Line>, readFails: bool, d: Defaults): Outcome {
    var n := Body(lines);
    if !Readable(lines, n) then Failed(InvalidEvent)
    else if readFails && n == |lines| then Failed(ReadFailed)
    else if EventCount(lines, n) == 0 then Failed(NoEvents)
    else Collapsed(Render(FoldLines(lines, n), d))
  }

  lemma {:induction false} BodyIs(lines: seq<Line>, n: nat, end: nat)
    requires n <= end <= |lines|
    requires forall k | n <= k < end :: !lines[k].Done?
    ensures BodyFrom(lines, n) >= end
    ensures end == |lines| || lines[end].Done? ==> BodyFrom(lines, n) == end
    decreases end - n
  {
    if n < end {
      BodyIs(lines, n + 1, end);
    }
  }

  // ------------------------------------------------------------------------------------
  // The accumulator.
  // ------------------------------------------------------------------------------------

  class CollapsedTool {
    var id: string
    var name: string
    var args: string

    /** The index under which the accumulator knows this tool. */
    ghost const index: int

    constructor (ghost i: int)
      ensures Value() == NO_TOOL && index == i
    {
      id, name, args := "", "", "";
      index := i;
    }

    ghost function Value(): Tool
      reads this
    {
      Tool(id, name, args)
    }

    method WriteMergedName(fragment: string)
      modifies this`name
      ensures name == MergeName(old(name), fragment)
    {
      var current := name;
      if current == "" {
        name := name + fragment;
        return;
      }
      if fragment == current {
        return;
      }
      if current <= fragment {
        name := "";
        name := name + fragment;
        return;
      }
      name := name + fragment;
    }

    method Merge(fragment: Fragment)
      modifies this
      ensures Value() == Merged(old(Value()), fragment)
    {
      if fragment.id != "" {
        id := fragment.id;
      }
      if fragment.name != "" {
        WriteMergedName(fragment.name);
      }
      if fragment.args != "" {
        args := args + fragment.args;
      }
    }
  }

  ghost function Values(tools: map<int, CollapsedTool>): map<int, Tool>
    reads tools.Values
  {
    map i | i in tools :: tools[i].Value()
  }

  class ChatCollapseAccumulator {
    var id: string
    var model: string
    var created: int
    var content: string
    var reasoning: string
    var tools: seq<CollapsedTool>
    var toolByIdx: map<int, CollapsedTool>
    var finish: string
    var usage: Option<Usage>
    var marked: bool
    ghost var order: seq<int>

    constructor ()
      ensures Valid() && State() == START
      ensures toolByIdx == map[]
    {
      id, model, created, content, reasoning := "", "", 0, "", "";
      tools, toolByIdx, order := [], map[], [];
      finish, usage, marked := "", None, false;
    }

    /** `tools` lists exactly the tools of `toolByIdx`, each once, by first appearance. */
    ghost predicate Valid()
      reads this`tools, this`toolByIdx, this`order
    {
      && |tools| == |order|
      && (forall k | 0 <= k < |order| :: order[k] in toolByIdx && tools[k] == toolByIdx[order[k]])
      && (forall i :: i in toolByIdx <==> i in order)
      && (forall i | i in toolByIdx :: toolByIdx[i].index == i)
      && (forall j, k | 0 <= j < k < |order| :: order[j] != order[k])
    }

    ghost function State(): Folded
      reads this, toolByIdx.Values
    {
      Folded(id, model, created, content, reasoning, order, Values(toolByIdx), finish, usage, marked)
    }

    /** A new tool, appended to the list under an unseen index. */
    method NewTool(idx: int) returns (tool: CollapsedTool)
      requires Valid() && idx !in toolByIdx
      modifies this`tools, this`toolByIdx, this`order
      ensures Valid() && fresh(tool) && order == old(order) + [idx]
      ensures toolByIdx == old(toolByIdx)[idx := tool]
      ensures Values(toolByIdx) == old(Values(toolByIdx))[idx := NO_TOOL]
    {
      tool := new CollapsedTool(idx);
      toolByIdx := toolByIdx[idx := tool];
      tools := tools + [tool];
      order := order + [idx];
    }

    lemma ToolCount()
      ensures |Values(toolByIdx)| == |toolByIdx|
    {
      assert Values(toolByIdx).Keys == toolByIdx.Keys;
      assert |Values(toolByIdx).Keys| == |Values(toolByIdx)| && |toolByIdx.Keys| == |toolByIdx|;
    }

    /** Finds the tool of a fragment, appending a new one if its index is unseen. */
    method ToolFor(fragment: Fragment) returns (tool: CollapsedTool)
      requires Valid()
      modifies this`tools, this`toolByIdx, this`order
      ensures Valid()
      ensures var i := IndexOf(old(State()), fragment);
              && i in toolByIdx && tool == toolByIdx[i] && i in Values(toolByIdx)
              && Values(toolByIdx) == old(State()).tools[i := ToolAt(old(State()), i)]
              && order == (if i in old(State()).tools then old(order) else old(order) + [i])
      ensures fresh(toolByIdx.Values - old(toolByIdx.Values))
    {
      ToolCount();
      var idx := if fragment.index.Some? then fragment.index.value else |toolByIdx|;
      if idx in toolByIdx {
        tool := toolByIdx[idx];
      } else {
        tool := NewTool(idx);
        assert forall t | t in toolByIdx.Values :: t == tool || t in old(toolByIdx.Values);
      }
    }

    method MergeInto(tool: CollapsedTool, ghost i: int, fragment: Fragment)
      requires Valid() && i in toolByIdx && tool == toolByIdx[i] && i in Values(toolByIdx)
      modifies tool
      ensures Values(toolByIdx) ==
              old(Values(toolByIdx))[i := Merged(old(Values(toolByIdx)[i]), fragment)]
    {
      tool.Merge(fragment);
      assert forall k | k in toolByIdx && k != i :: toolByIdx[k] != tool;
    }

    method ConsumeTool(fragment: Fragment)
      requires Valid()
      modifies this`tools, this`toolByIdx, this`order, toolByIdx.Values
      ensures Valid()
      ensures fresh(toolByIdx.Values - old(toolByIdx.Values))
      ensures State() == AddFragment(old(State()), fragment)
    {
      hide Valid, Merged, ToolAt, AddFragment, Values;
      ghost var was := State();
      ghost var i := IndexOf(was, fragment);
      var tool := ToolFor(fragment);
      assert tool in toolByIdx.Values;
      MergeInto(tool, i, fragment);
      AddFragmentIs(was, fragment, State());
    }

    method ConsumeText(delta: Delta) returns (contentSeen: bool)
      requires Valid()
      modifies this`content, this`reasoning
      ensures Valid() && State() == AddText(old(State()), delta)
      ensures contentSeen == HasText(delta)
    {
      hide Valid, Values;
      contentSeen := false;
      if delta.content.Some? && delta.content.value != "" {
        content := content + delta.content.value;
        contentSeen := true;
      }
      if delta.reasoning.Some? && delta.reasoning.value != "" {
        reasoning := reasoning + delta.reasoning.value;
        contentSeen := true;
      } else if delta.legacy.Some? && delta.legacy.value != "" {
        reasoning := reasoning + delta.legacy.value;
        contentSeen := true;
      }
    }

    method ConsumeDelta(delta: Delta)
      requires Valid()
      modifies this, toolByIdx.Values
      ensures Valid()
      ensures fresh(toolByIdx.Values - old(toolByIdx.Values))
      ensures State() == AddDelta(old(State()), delta)
    {
      hide Valid, AddFragments, AddText, Values;
      var contentSeen := ConsumeText(delta);
      ConsumeTools(delta.tools);
      if contentSeen || delta.tools != [] {
        marked := true;
      }
    }

    method ConsumeTools(fragments: seq<Fragment>)
      requires Valid()
      modifies this`tools, this`toolByIdx, this`order, toolByIdx.Values
      ensures Valid()
      ensures fresh(toolByIdx.Values - old(toolByIdx.Values))
      ensures State() == AddFragments(old(State()), fragments)
    {
      hide Valid, AddFragment, Values;
      ghost var was := State();
      var n := 0;
      while n < |fragments|
        invariant 0 <= n <= |fragments|
        invariant Valid()
        invariant fresh(toolByIdx.Values - old(toolByIdx.Values))
        invariant State() == AddFragments(was, fragments[..n])
      {
        NextFragment(was, fragments, n);
        ConsumeTool(fragments[n]);
        n := n + 1;
      }
      assert fragments[..n] == fragments;
    }

    method ConsumeChoice(choice: Choice)
      requires Valid()
      modifies this, toolByIdx.Values
      ensures Valid()
      ensures fresh(toolByIdx.Values - old(toolByIdx.Values))
      ensures State() == AddChoice(old(State()), choice)
    {
      hide Valid, AddDelta, Values;
      if choice.finish.Some? && choice.finish.value != "" && choice.finish.value != "null" {
        finish := choice.finish.value;
      }
      ConsumeDelta(choice.delta);
    }

    method ConsumeHead(event: Event)
      modifies this`id, this`model, this`created, this`usage
      ensures id == if old(id) == "" then Text(event.id) else old(id)
      ensures model == if old(model) == "" then event.model else old(model)
      ensures created == if old(created) == 0 then event.created else old(created)
      ensures usage == if event.usage.Some? then event.usage else old(usage)
    {
      if event.model != "" && model == "" {
        model := event.model;
      }
      if event.created != 0 && created == 0 {
        created := event.created;
      }
      if event.id.Some? && event.id.value != "" && id == "" {
        id := event.id.value;
      }
      if event.usage.Some? {
        usage := event.usage;
      }
    }

    method Consume(event: Event)
      requires Valid()
      modifies this, toolByIdx.Values
      ensures Valid()
      ensures fresh(toolByIdx.Values - old(toolByIdx.Values))
      ensures State() == AddEvent(old(State()), event)
    {
      hide Valid, AddChoices, Values;
      ConsumeHead(event);
      assert State() == AddHead(old(State()), event);
      ConsumeChoices(event.choices);
    }

    method ConsumeChoices(choices: seq<Choice>)
      requires Valid()
      modifies this, toolByIdx.Values
      ensures Valid()
      ensures fresh(toolByIdx.Values - old(toolByIdx.Values))
      ensures State() == AddChoices(old(State()), choices)
    {
      hide Valid, AddChoice, Values;
      ghost var was := State();
      var n := 0;
      while n < |choices|
        invariant 0 <= n <= |choices|
        invariant Valid()
        invariant fresh(toolByIdx.Values - old(toolByIdx.Values))
        invariant State() == AddChoices(was, choices[..n])
      {
        assert choices[..n + 1][..n] == choices[..n];
        ConsumeChoice(choices[n]);
        n := n + 1;
      }
      assert choices[..n] == choices;
    }
 
    method Encode(d: Defaults) returns (document: Completion)
      requires Valid()
      ensures document == Render(State(), d)
    {
      var calls := [];
      var n := 0;
      while n < |tools|
        invariant 0 <= n <= |tools| && |calls| == n
        invariant forall k | 0 <= k < n :: calls[k] == ToolAt(State(), order[k])
      {
        var tool := tools[n];
        calls := calls + [Tool(tool.id, tool.name, tool.args)];
        n := n + 1;
      }
      document := Completion(
        if id == "" then d.id else id,
        if model == "" then d.model else model,
        if created == 0 then d.created else created,
        content,
        if reasoning == "" then None else Some(reasoning),
        calls,
        if finish == "" then "stop" else finish,
        usage);
    }

    /** Reads lines up to the terminator, an undecodable event or the end. */
    method Drain(lines: seq<Line>) returns (n: nat, events: nat)
      requires Valid() && State() == START
      modifies this, toolByIdx.Values
      ensures Valid()
      ensures n <= |lines| && Readable(lines, n)
      ensures forall k | 0 <= k < n :: !lines[k].Done?
      ensures n < |lines| ==> lines[n].Done? || lines[n].Malformed?
      ensures State() == FoldLines(lines, n)
      ensures events == EventCount(lines, n)
    {
      hide Valid, AddEvent, Values;
      n, events := 0, 0;
      while n < |lines| && !lines[n].Done? && !lines[n].Malformed?
        invariant 0 <= n <= |lines| && Readable(lines, n)
        invariant forall k | 0 <= k < n :: !lines[k].Done?
        invariant Valid() && fresh(toolByIdx.Values - old(toolByIdx.Values))
        invariant State() == FoldLines(lines, n)
        invariant events == EventCount(lines, n)
      {
        if lines[n].Data? {
          events := events + 1;
          Consume(lines[n].event);
        }
        n := n + 1;
      }
    }
  }

  /** Folds a stream of lines; `readFails` tells that the reader gives up with an error after
      the last line. */
  method CollapseChatCompletionStream(lines: seq<Line>, readFails: bool, d: Defaults)
      returns (outcome: Outcome)
    ensures outcome == Expected(lines, readFails, d)
  {
    var acc := new ChatCollapseAccumulator();
    var n, events := acc.Drain(lines);
    BodyIs(lines, 0, n);
    if n < |lines| && lines[n].Malformed? {
      return Failed(InvalidEvent);
    }
    if n == |lines| && readFails {
      return Failed(ReadFailed);
    }
    if events == 0 {
      return Failed(NoEvents);
    }
    var document := acc.Encode(d);
    return Collapsed(document);
  }
}
