/** Split then collapse is the identity, and what the stream loop does around the fold. */
module ChatCollapseLaws {
  import opened ChatCollapse
  import opened Wrappers

  // ------------------------------------------------------------------------------------
  // What a list of fragments says about one index, without any folding state.
  // ------------------------------------------------------------------------------------

  ghost predicate Indexed(fragments: seq<Fragment>) {
    forall f | f in fragments :: f.index.Some?
  }

  /** The distinct indices, by first appearance. */
  function Appearances(fragments: seq<Fragment>): seq<int>
    requires Indexed(fragments)
  {
    if fragments == [] then []
    else
      var before := Appearances(fragments[..|fragments| - 1]);
      var i := fragments[|fragments| - 1].index.value;
      if i in before then before else before + [i]
  }

  /** All argument text addressed to index i. */
  function ArgumentsFor(fragments: seq<Fragment>, i: int): string
    requires Indexed(fragments)
  {
    if fragments == [] then ""
    else
      var last := fragments[|fragments| - 1];
      ArgumentsFor(fragments[..|fragments| - 1], i) + if last.index.value == i then last.args else ""
  }

  /** Every fragment of index i carries this id or none, and some fragment does carry it. */
  ghost predicate CarriesId(fragments: seq<Fragment>, i: int, id: string) {
    && (forall f | f in fragments && f.index == Some(i) :: f.id in {"", id})
    && (id != "" ==> exists f :: f in fragments && f.index == Some(i) && f.id == id)
  }

  /** The same for the name, sent whole every time. */
  ghost predicate CarriesName(fragments: seq<Fragment>, i: int, name: string) {
    && (forall f | f in fragments && f.index == Some(i) :: f.name in {"", name})
    && (name != "" ==> exists f :: f in fragments && f.index == Some(i) && f.name == name)
  }

  /** The tools and their order are a bijection in every fold. */
  ghost predicate Listed(f: Folded) {
    && (forall i :: i in f.tools <==> i in f.order)
    && (forall j, k | 0 <= j < k < |f.order| :: f.order[j] != f.order[k])
  }

  lemma {:induction false} FoldStaysListed(f: Folded, fragments: seq<Fragment>)
    requires Listed(f)
    ensures Listed(AddFragments(f, fragments))
  {
    if fragments != [] {
      FoldStaysListed(f, fragments[..|fragments| - 1]);
    }
  }

  lemma {:induction false} OrderIsAppearance(fragments: seq<Fragment>)
    requires Indexed(fragments)
    ensures AddFragments(START, fragments).order == Appearances(fragments)
  {
    FoldStaysListed(START, fragments);
    if fragments != [] {
      FoldStaysListed(START, fragments[..|fragments| - 1]);
      OrderIsAppearance(fragments[..|fragments| - 1]);
    }
  }

  /** Arguments concatenate per index, whatever is interleaved between them. */
  lemma {:induction false} ArgumentsConcatenate(fragments: seq<Fragment>, i: int)
    requires Indexed(fragments)
    ensures ToolAt(AddFragments(START, fragments), i).args == ArgumentsFor(fragments, i)
  {
    if fragments != [] {
      ArgumentsConcatenate(fragments[..|fragments| - 1], i);
    }
  }

  lemma {:induction false} IdIsKept(fragments: seq<Fragment>, i: int, id: string)
    requires Indexed(fragments)
    requires forall f | f in fragments && f.index == Some(i) :: f.id in {"", id}
    ensures ToolAt(AddFragments(START, fragments), i).id ==
            if exists f :: f in fragments && f.index == Some(i) && f.id != "" then id else ""
  {
    if fragments != [] {
      var front, last := fragments[..|fragments| - 1], fragments[|fragments| - 1];
      assert fragments == front + [last];
      IdIsKept(front, i, id);
    }
  }

  /** The names sent for index i, in order, leaving out empty ones. */
  function NamesFor(fragments: seq<Fragment>, i: int): seq<string>
    requires Indexed(fragments)
  {
    if fragments == [] then []
    else
      var last := fragments[|fragments| - 1];
      NamesFor(fragments[..|fragments| - 1], i)
        + if last.index.value == i && last.name != "" then [last.name] else []
  }

  function MergeNames(names: seq<string>): string {
    if names == [] then "" else MergeName(MergeNames(names[..|names| - 1]), names[|names| - 1])
  }

  function Join(names: seq<string>): string {
    if names == [] then "" else Join(names[..|names| - 1]) + names[|names| - 1]
  }

  /** The name of a tool depends only on the names sent for its index. */
  lemma {:induction false} NameIsMerged(fragments: seq<Fragment>, i: int)
    requires Indexed(fragments)
    ensures ToolAt(AddFragments(START, fragments), i).name == MergeNames(NamesFor(fragments, i))
  {
    if fragments != [] {
      var front, last := fragments[..|fragments| - 1], fragments[|fragments| - 1];
      NameIsMerged(front, i);
      var names := NamesFor(front, i);
      assert (names + [last.name])[..|names|] == names;
      assert names + [] == names;
    }
  }

  /** No piece begins with everything sent before it. */
  ghost predicate NeverRepeats(pieces: seq<string>) {
    forall k :: 0 < k < |pieces| ==> !(Join(pieces[..k]) <= pieces[k])
  }

  lemma OneMorePiece(front: seq<string>, last: string)
    requires front != []
    ensures NeverRepeats(front + [last]) <==> NeverRepeats(front) && !(Join(front) <= last)
    ensures Join(front + [last]) == Join(front) + last
    ensures MergeNames(front + [last]) == MergeName(MergeNames(front), last)
  {
    hide MergeName;
    var pieces := front + [last];
    assert pieces[..|front|] == front && pieces[|front|] == last;
    forall k | 0 < k < |front|
      ensures pieces[..k] == front[..k] && pieces[k] == front[k]
    {
    }
    hide Join;
  }

  lemma {:induction false} PiecesAreNotEmpty(pieces: seq<string>)
    requires pieces != [] && forall piece | piece in pieces :: piece != ""
    ensures Join(pieces) != ""
  {
    assert pieces[|pieces| - 1] in pieces;
  }

  /** A name sent in pieces is restored if and only if no piece begins with everything sent
      before it; such a piece is taken for the whole name, sent again or sent longer. */
  lemma {:induction false} PiecesMakeTheName(pieces: seq<string>)
    requires forall piece | piece in pieces :: piece != ""
    ensures MergeNames(pieces) == Join(pieces) <==> NeverRepeats(pieces)
    ensures MergeNames(pieces) == Join(pieces) || |MergeNames(pieces)| < |Join(pieces)|
  {
    if |pieces| > 1 {
      var front, last := pieces[..|pieces| - 1], pieces[|pieces| - 1];
      assert pieces == front + [last];
      assert last in pieces && forall piece | piece in front :: piece in pieces;
      hide NeverRepeats, Join, MergeNames, MergeName;
      PiecesMakeTheName(front);
      PiecesAreNotEmpty(front);
      OneMorePiece(front, last);
      SameOrShorter(MergeNames(front), Join(front), last);
    } else if |pieces| == 1 {
      assert pieces[..0] == [];
    }
  }

  /** One more piece: a name that is complete so far stays so exactly unless the piece begins
      with it, and a name that lost something never catches up. */
  lemma SameOrShorter(current: string, whole: string, piece: string)
    requires whole != "" && piece != "" && (current == whole || |current| < |whole|)
    ensures var next := MergeName(current, piece);
            && (next == whole + piece <==> current == whole && !(whole <= piece))
            && (next == whole + piece || |next| < |whole + piece|)
  {
  }

  lemma {:induction false} NamesForAre(fragments: seq<Fragment>, i: int, name: string)
    requires Indexed(fragments)
    ensures name in NamesFor(fragments, i) <==>
            name != "" && exists f :: f in fragments && f.index == Some(i) && f.name == name
  {
    if fragments != [] {
      var front, last := fragments[..|fragments| - 1], fragments[|fragments| - 1];
      assert fragments == front + [last];
      NamesForAre(front, i, name);
    }
  }

  lemma {:induction false} SameNameAgain(names: seq<string>, name: string)
    requires forall n | n in names :: n == name
    ensures MergeNames(names) == if names == [] then "" else name
  {
    if names != [] {
      var front := names[..|names| - 1];
      assert names[|names| - 1] in names && forall n | n in front :: n in names;
      SameNameAgain(front, name);
    }
  }

  /** A name sent whole, once or repeatedly, is kept once. */
  lemma NameIsKept(fragments: seq<Fragment>, i: int, name: string)
    requires Indexed(fragments)
    requires forall f | f in fragments && f.index == Some(i) :: f.name in {"", name}
    ensures ToolAt(AddFragments(START, fragments), i).name ==
            if exists f :: f in fragments && f.index == Some(i) && f.name != "" then name else ""
  {
    NameIsMerged(fragments, i);
    var names := NamesFor(fragments, i);
    forall n | n in names
      ensures n == name
    {
      NamesForAre(fragments, i, n);
    }
    SameNameAgain(names, name);
    NamesForAre(fragments, i, name);
    if names != [] {
      assert names[0] in names;
    }
  }

  /** Each name sent for one index is the one before it, or a longer version of it. */
  ghost predicate Growing(names: seq<string>) {
    forall k :: 0 < k < |names| ==> names[k - 1] <= names[k]
  }

  /** A name sent longer and longer is the last one sent. */
  lemma {:induction false} GrowingNamesEndWithTheLast(names: seq<string>)
    requires names != [] && Growing(names) && names[0] != ""
    ensures MergeNames(names) == names[|names| - 1]
  {
    var front := names[..|names| - 1];
    if front == [] {
      assert MergeNames(front) == "";
    } else {
      GrowingNamesEndWithTheLast(front);
      assert names[|names| - 2] <= names[|names| - 1];
      NotEmptyOnceGrown(front);
    }
  }

  lemma {:induction false} NotEmptyOnceGrown(names: seq<string>)
    requires names != [] && Growing(names) && names[0] != ""
    ensures names[|names| - 1] != ""
  {
    if |names| > 1 {
      NotEmptyOnceGrown(names[..|names| - 1]);
      assert names[|names| - 2] <= names[|names| - 1];
    }
  }

  /** Of several ids sent for one index the last counts. */
  lemma {:induction false} LastIdIsKept(fragments: seq<Fragment>, i: int, k: nat)
    requires Indexed(fragments) && k < |fragments|
    requires fragments[k].index == Some(i) && fragments[k].id != ""
    requires forall j | k < j < |fragments| && fragments[j].index == Some(i) :: fragments[j].id == ""
    ensures ToolAt(AddFragments(START, fragments), i).id == fragments[k].id
  {
    if k < |fragments| - 1 {
      LastIdIsKept(fragments[..|fragments| - 1], i, k);
    }
  }

  // ------------------------------------------------------------------------------------
  // Splitting a message over deltas.
  // ------------------------------------------------------------------------------------

  datatype Call = Call(index: int, tool: Tool)

  datatype Message = Message(content: string, reasoning: string, calls: seq<Call>)

  function Contents(deltas: seq<Delta>): string {
    if deltas == [] then ""
    else
      var d := deltas[|deltas| - 1];
      Contents(deltas[..|deltas| - 1]) + if d.content.Some? then d.content.value else ""
  }

  /** The old field counts only where the new one is missing or empty. */
  function Reasonings(deltas: seq<Delta>): string {
    if deltas == [] then ""
    else
      var d := deltas[|deltas| - 1];
      Reasonings(deltas[..|deltas| - 1])
        + if d.reasoning.Some? && d.reasoning.value != "" then d.reasoning.value
          else if d.legacy.Some? then d.legacy.value
          else ""
  }

  function AllFragments(deltas: seq<Delta>): seq<Fragment> {
    if deltas == [] then []
    else AllFragments(deltas[..|deltas| - 1]) + deltas[|deltas| - 1].tools
  }

  function Indices(calls: seq<Call>): (r: seq<int>)
    ensures |r| == |calls| && forall k | 0 <= k < |calls| :: r[k] == calls[k].index
  {
    seq(|calls|, k requires 0 <= k < |calls| => calls[k].index)
  }

  /** The deltas are some fragmentation of the message: texts cut anywhere, the fragments of
      different tools interleaved anyhow, ids and names sent whole and possibly repeated. */
  ghost predicate Splits(deltas: seq<Delta>, m: Message) {
    var fragments := AllFragments(deltas);
    && Contents(deltas) == m.content
    && Reasonings(deltas) == m.reasoning
    && Indexed(fragments)
    && Appearances(fragments) == Indices(m.calls)
    && forall k | 0 <= k < |m.calls| ::
         && ArgumentsFor(fragments, m.calls[k].index) == m.calls[k].tool.args
         && CarriesId(fragments, m.calls[k].index, m.calls[k].tool.id)
         && CarriesName(fragments, m.calls[k].index, m.calls[k].tool.name)
  }

  function AddDeltas(f: Folded, deltas: seq<Delta>): Folded {
    if deltas == [] then f
    else AddDelta(AddDeltas(f, deltas[..|deltas| - 1]), deltas[|deltas| - 1])
  }

  /** The message a fold stands for. */
  ghost predicate Shows(f: Folded, m: Message) {
    && f.content == m.content
    && f.reasoning == m.reasoning
    && f.order == Indices(m.calls)
    && forall k | 0 <= k < |m.calls| :: ToolAt(f, m.calls[k].index) == m.calls[k].tool
  }

  /** Merging fragments looks only at the tools and changes nothing else. */
  lemma {:induction false} FragmentsTouchOnlyTools(f: Folded, g: Folded, fragments: seq<Fragment>)
    requires f.order == g.order && f.tools == g.tools
    ensures var h := AddFragments(f, fragments);
            AddFragments(g, fragments) == g.(order := h.order, tools := h.tools)
  {
    if fragments != [] {
      FragmentsTouchOnlyTools(f, g, fragments[..|fragments| - 1]);
    }
  }

  lemma LastFragment(f: Folded, front: seq<Fragment>, last: Fragment)
    ensures AddFragments(f, front + [last]) == AddFragment(AddFragments(f, front), last)
  {
    assert (front + [last])[..|front|] == front;
  }

  lemma {:induction false} FragmentsCompose(f: Folded, left: seq<Fragment>, right: seq<Fragment>)
    ensures AddFragments(f, left + right) == AddFragments(AddFragments(f, left), right)
  {
    if right == [] {
      assert left + right == left;
    } else {
      var front, last := right[..|right| - 1], right[|right| - 1];
      assert left + right == left + front + [last] && right == front + [last];
      LastFragment(f, left + front, last);
      LastFragment(AddFragments(f, left), front, last);
      FragmentsCompose(f, left, front);
    }
  }

  lemma {:induction false} DeltasFold(deltas: seq<Delta>)
    ensures var f := AddDeltas(START, deltas);
            var g := AddFragments(START, AllFragments(deltas));
            && f.content == Contents(deltas) && f.reasoning == Reasonings(deltas)
            && f.order == g.order && f.tools == g.tools
  {
    if deltas != [] {
      var front, last := deltas[..|deltas| - 1], deltas[|deltas| - 1];
      DeltasFold(front);
      var before := AddText(AddDeltas(START, front), last);
      FragmentsTouchOnlyTools(AddFragments(START, AllFragments(front)), before, last.tools);
      FragmentsCompose(START, AllFragments(front), last.tools);
    }
  }

  /** Split then collapse is the identity. */
  lemma SplitThenCollapse(deltas: seq<Delta>, m: Message)
    requires Splits(deltas, m)
    ensures Shows(AddDeltas(START, deltas), m)
  {
    var fragments := AllFragments(deltas);
    DeltasFold(deltas);
    OrderIsAppearance(fragments);
    forall k | 0 <= k < |m.calls|
      ensures ToolAt(AddFragments(START, fragments), m.calls[k].index) == m.calls[k].tool
    {
      ToolIsRestored(fragments, m.calls[k]);
    }
  }

  lemma ToolIsRestored(fragments: seq<Fragment>, c: Call)
    requires Indexed(fragments) && ArgumentsFor(fragments, c.index) == c.tool.args
    requires CarriesId(fragments, c.index, c.tool.id) && CarriesName(fragments, c.index, c.tool.name)
    ensures ToolAt(AddFragments(START, fragments), c.index) == c.tool
  {
    ArgumentsConcatenate(fragments, c.index);
    IdIsKept(fragments, c.index, c.tool.id);
    NameIsKept(fragments, c.index, c.tool.name);
  }

  // ------------------------------------------------------------------------------------
  // From the lines of a stream to the message.
  // ------------------------------------------------------------------------------------

  function ChoiceDeltas(choices: seq<Choice>): seq<Delta> {
    if choices == [] then []
    else ChoiceDeltas(choices[..|choices| - 1]) + [choices[|choices| - 1].delta]
  }

  /** All deltas the first n lines carry. */
  function LineDeltas(lines: seq<Line>, n: nat): seq<Delta>
    requires n <= |lines|
  {
    if n == 0 then []
    else if lines[n - 1].Data? then LineDeltas(lines, n - 1) + ChoiceDeltas(lines[n - 1].event.choices)
    else LineDeltas(lines, n - 1)
  }

  ghost predicate SameBody(f: Folded, g: Folded) {
    f.content == g.content && f.reasoning == g.reasoning && f.order == g.order && f.tools == g.tools
  }

  lemma {:induction false} ChoicesFoldDeltas(f: Folded, deltas: seq<Delta>, choices: seq<Choice>)
    requires SameBody(f, AddDeltas(START, deltas))
    ensures SameBody(AddChoices(f, choices), AddDeltas(START, deltas + ChoiceDeltas(choices)))
  {
    if choices == [] {
      assert deltas + [] == deltas;
    } else {
      var front, last := choices[..|choices| - 1], choices[|choices| - 1];
      var so := deltas + ChoiceDeltas(front);
      ChoicesFoldDeltas(f, deltas, front);
      var finish := Text(last.finish);
      var g := AddChoices(f, front);
      var h := AddDeltas(START, so);
      var g' := g.(finish := if finish != "" && finish != "null" then finish else g.finish);
      FragmentsTouchOnlyTools(AddText(h, last.delta), AddText(g', last.delta), last.delta.tools);
      FragmentsTouchOnlyTools(AddText(h, last.delta), AddText(h, last.delta), last.delta.tools);
      assert deltas + ChoiceDeltas(choices) == so + [last.delta];
      assert (so + [last.delta])[..|so|] == so;
    }
  }

  lemma {:induction false} LinesFoldDeltas(lines: seq<Line>, n: nat)
    requires n <= |lines|
    ensures SameBody(FoldLines(lines, n), AddDeltas(START, LineDeltas(lines, n)))
  {
    if n > 0 {
      LinesFoldDeltas(lines, n - 1);
      if lines[n - 1].Data? {
        var event := lines[n - 1].event;
        ChoicesFoldDeltas(
          AddHead(FoldLines(lines, n - 1), event), LineDeltas(lines, n - 1), event.choices);
      }
    }
  }

  /** What precedes the terminator: the first n lines. */
  ghost predicate Ends(lines: seq<Line>, n: nat) {
    && n <= |lines|
    && (forall k | 0 <= k < n :: !lines[k].Done?)
    && (n < |lines| ==> lines[n].Done?)
  }

  lemma {:induction false} EventsAreCounted(lines: seq<Line>, n: nat)
    requires n <= |lines|
    ensures EventCount(lines, n) == 0 <==> forall k | 0 <= k < n :: !lines[k].Data?
  {
    if n > 0 {
      EventsAreCounted(lines, n - 1);
    }
  }

  /** When folding fails, and with what: an undecodable event before the terminator, a read
      error without a terminator, or no event at all, the first of these that applies. */
  lemma OutcomeIsExact(lines: seq<Line>, readFails: bool, d: Defaults, n: nat)
    requires Ends(lines, n)
    ensures var outcome := Expected(lines, readFails, d);
            var broken := exists k :: 0 <= k < n && lines[k].Malformed?;
            var empty := forall k | 0 <= k < n :: !lines[k].Data?;
            if broken then outcome == Failed(InvalidEvent)
            else if readFails && n == |lines| then outcome == Failed(ReadFailed)
            else if empty then outcome == Failed(NoEvents)
            else outcome == Collapsed(Render(FoldLines(lines, n), d))
  {
    hide Render, FoldLines;
    BodyIs(lines, 0, n);
    EventsAreCounted(lines, n);
  }

  /** Whatever way a message was streamed, the collapsed document carries exactly its content,
      its reasoning and its tool calls in order of first appearance. */
  lemma StreamedMessageIsRestored(lines: seq<Line>, readFails: bool, d: Defaults, n: nat, m: Message)
    requires Ends(lines, n) && forall k | 0 <= k < n :: !lines[k].Malformed?
    requires exists k :: 0 <= k < n && lines[k].Data?
    requires readFails ==> n < |lines|
    requires Splits(LineDeltas(lines, n), m)
    ensures var outcome := Expected(lines, readFails, d);
            && outcome.Collapsed?
            && outcome.document.content == m.content
            && outcome.document.reasoning == (if m.reasoning == "" then None else Some(m.reasoning))
            && |outcome.document.calls| == |m.calls|
            && forall k | 0 <= k < |m.calls| :: outcome.document.calls[k] == m.calls[k].tool
  {
    OutcomeIsExact(lines, readFails, d, n);
    LinesFoldDeltas(lines, n);
    SplitThenCollapse(LineDeltas(lines, n), m);
    var f, g := FoldLines(lines, n), AddDeltas(START, LineDeltas(lines, n));
    forall k | 0 <= k < |m.calls|
      ensures ToolAt(f, f.order[k]) == m.calls[k].tool
    {
      assert ToolAt(g, m.calls[k].index) == m.calls[k].tool;
    }
  }

  // ------------------------------------------------------------------------------------
  // The other fields of the document, by the positions of the stream.
  // ------------------------------------------------------------------------------------

  /** A choice gives a reason for having finished. */
  predicate GivesReason(c: Choice) {
    c.finish.Some? && c.finish.value != "" && c.finish.value != "null"
  }

  ghost predicate HasReason(l: Line) {
    l.Data? && exists c :: 0 <= c < |l.event.choices| && GivesReason(l.event.choices[c])
  }

  /** Choice c of line k gives a reason, and no later choice of that line or of the first n
      lines does. */
  ghost predicate LastReason(lines: seq<Line>, n: nat, k: int, c: int) {
    && 0 <= k < n <= |lines| && lines[k].Data?
    && 0 <= c < |lines[k].event.choices| && GivesReason(lines[k].event.choices[c])
    && (forall b | c < b < |lines[k].event.choices| :: !GivesReason(lines[k].event.choices[b]))
    && (forall l | k < l < n :: !HasReason(lines[l]))
  }

  /** A choice says something: text of any kind, or a fragment of a tool call. */
  predicate Speaks(c: Choice) {
    || (c.delta.content.Some? && c.delta.content.value != "")
    || (c.delta.reasoning.Some? && c.delta.reasoning.value != "")
    || (c.delta.legacy.Some? && c.delta.legacy.value != "")
    || c.delta.tools != []
  }

  predicate HasId(l: Line) {
    l.Data? && l.event.id.Some? && l.event.id.value != ""
  }

  predicate HasModel(l: Line) {
    l.Data? && l.event.model != ""
  }

  predicate HasCreated(l: Line) {
    l.Data? && l.event.created != 0
  }

  predicate HasUsage(l: Line) {
    l.Data? && l.event.usage.Some?
  }

  ghost predicate HasWords(l: Line) {
    l.Data? && exists c :: 0 <= c < |l.event.choices| && Speaks(l.event.choices[c])
  }

  /** What one choice does to the fields that are not the message's. */
  lemma ChoiceDoes(f: Folded, c: Choice)
    ensures var g := AddChoice(f, c);
            && g.finish == (if GivesReason(c) then c.finish.value else f.finish)
            && (g.marked <==> f.marked || Speaks(c))
            && g.id == f.id && g.model == f.model && g.created == f.created && g.usage == f.usage
  {
    var text := AddText(f.(finish := if GivesReason(c) then c.finish.value else f.finish), c.delta);
    FragmentsTouchOnlyTools(text, text, c.delta.tools);
  }

  lemma {:induction false} ChoicesDo(f: Folded, choices: seq<Choice>)
    ensures var g := AddChoices(f, choices);
            && ((forall c | 0 <= c < |choices| :: !GivesReason(choices[c])) ==> g.finish == f.finish)
            && (forall c | && 0 <= c < |choices| && GivesReason(choices[c])
                           && (forall b | c < b < |choices| :: !GivesReason(choices[b])) ::
                  g.finish == choices[c].finish.value)
            && (g.marked <==> f.marked || exists c :: 0 <= c < |choices| && Speaks(choices[c]))
            && g.id == f.id && g.model == f.model && g.created == f.created && g.usage == f.usage
  {
    hide AddChoice, Speaks, GivesReason;
    if choices != [] {
      var front, last := choices[..|choices| - 1], choices[|choices| - 1];
      ChoicesDo(f, front);
      ChoiceDoes(AddChoices(f, front), last);
      assert forall c | 0 <= c < |front| :: front[c] == choices[c];
    }
  }

  /** What one line does to them, but for the finish reason. */
  lemma LineDoes(f: Folded, l: Line)
    requires l.Data?
    ensures var g := AddEvent(f, l.event);
            && g.id == (if f.id == "" && HasId(l) then l.event.id.value else f.id)
            && g.model == (if f.model == "" && HasModel(l) then l.event.model else f.model)
            && g.created == (if f.created == 0 && HasCreated(l) then l.event.created else f.created)
            && g.usage == (if HasUsage(l) then l.event.usage else f.usage)
            && (g.marked <==> f.marked || HasWords(l))
            && (!HasReason(l) ==> g.finish == f.finish)
  {
    hide AddChoices, Speaks, GivesReason;
    ChoicesDo(AddHead(f, l.event), l.event.choices);
  }

  /** The state of a field no line has spoken about. */
  lemma {:induction false} Unsaid(lines: seq<Line>, n: nat)
    requires n <= |lines|
    ensures var f := FoldLines(lines, n);
            && ((forall k | 0 <= k < n :: !HasReason(lines[k])) ==> f.finish == "")
            && ((forall k | 0 <= k < n :: !HasId(lines[k])) ==> f.id == "")
            && ((forall k | 0 <= k < n :: !HasModel(lines[k])) ==> f.model == "")
            && ((forall k | 0 <= k < n :: !HasCreated(lines[k])) ==> f.created == 0)
            && ((forall k | 0 <= k < n :: !HasUsage(lines[k])) ==> f.usage == None)
  {
    hide AddEvent, HasReason, HasId, HasModel, HasCreated, HasUsage;
    if n > 0 {
      Unsaid(lines, n - 1);
      if lines[n - 1].Data? {
        LineDoes(FoldLines(lines, n - 1), lines[n - 1]);
      }
    }
  }

  lemma {:induction false} FinishIsTheLast(lines: seq<Line>, n: nat, k: int, c: int)
    requires LastReason(lines, n, k, c)
    ensures FoldLines(lines, n).finish == lines[k].event.choices[c].finish.value
  {
    hide AddEvent, AddChoices, GivesReason;
    var line, before := lines[n - 1], FoldLines(lines, n - 1);
    if k < n - 1 {
      FinishIsTheLast(lines, n - 1, k, c);
      if line.Data? {
        LineDoes(before, line);
      }
    } else {
      EventIsChoices(before, line.event);
      ChoicesDo(AddHead(before, line.event), line.event.choices);
    }
  }

  lemma EventIsChoices(f: Folded, e: Event)
    ensures AddEvent(f, e) == AddChoices(AddHead(f, e), e.choices)
  {
  }

  lemma {:induction false} IdIsTheFirst(lines: seq<Line>, n: nat, k: nat)
    requires k < n <= |lines| && HasId(lines[k]) && forall j | 0 <= j < k :: !HasId(lines[j])
    ensures FoldLines(lines, n).id == lines[k].event.id.value
  {
    hide AddEvent;
    if k < n - 1 {
      IdIsTheFirst(lines, n - 1, k);
    } else {
      Unsaid(lines, k);
    }
    if lines[n - 1].Data? {
      LineDoes(FoldLines(lines, n - 1), lines[n - 1]);
    }
  }

  lemma {:induction false} ModelIsTheFirst(lines: seq<Line>, n: nat, k: nat)
    requires k < n <= |lines| && HasModel(lines[k]) && forall j | 0 <= j < k :: !HasModel(lines[j])
    ensures FoldLines(lines, n).model == lines[k].event.model
  {
    hide AddEvent;
    if k < n - 1 {
      ModelIsTheFirst(lines, n - 1, k);
    } else {
      Unsaid(lines, k);
    }
    if lines[n - 1].Data? {
      LineDoes(FoldLines(lines, n - 1), lines[n - 1]);
    }
  }

  lemma {:induction false} CreatedIsTheFirst(lines: seq<Line>, n: nat, k: nat)
    requires k < n <= |lines| && HasCreated(lines[k]) && forall j | 0 <= j < k :: !HasCreated(lines[j])
    ensures FoldLines(lines, n).created == lines[k].event.created
  {
    hide AddEvent;
    if k < n - 1 {
      CreatedIsTheFirst(lines, n - 1, k);
    } else {
      Unsaid(lines, k);
    }
    if lines[n - 1].Data? {
      LineDoes(FoldLines(lines, n - 1), lines[n - 1]);
    }
  }

  lemma {:induction false} UsageIsTheLast(lines: seq<Line>, n: nat, k: nat)
    requires k < n <= |lines| && HasUsage(lines[k]) && forall j | k < j < n :: !HasUsage(lines[j])
    ensures FoldLines(lines, n).usage == lines[k].event.usage
  {
    hide AddEvent;
    if k < n - 1 {
      UsageIsTheLast(lines, n - 1, k);
    }
    if lines[n - 1].Data? {
      LineDoes(FoldLines(lines, n - 1), lines[n - 1]);
    }
  }

  /** The first token is marked exactly if some choice said something. */
  lemma {:induction false} MarkedExactly(lines: seq<Line>, n: nat)
    requires n <= |lines|
    ensures FoldLines(lines, n).marked <==> exists k :: 0 <= k < n && HasWords(lines[k])
  {
    hide AddEvent, Speaks;
    if n > 0 {
      MarkedExactly(lines, n - 1);
      if lines[n - 1].Data? {
        LineDoes(FoldLines(lines, n - 1), lines[n - 1]);
      }
    }
  }

  /** The finish reason of the document is the last one any choice gave, or "stop"; the usage is
      the last one sent. */
  lemma FinishAndUsage(lines: seq<Line>, readFails: bool, d: Defaults, n: nat)
    requires Ends(lines, n) && Expected(lines, readFails, d).Collapsed?
    ensures var document := Expected(lines, readFails, d).document;
            && (forall k, c | LastReason(lines, n, k, c) ::
                  document.finish == lines[k].event.choices[c].finish.value)
            && ((forall k | 0 <= k < n :: !HasReason(lines[k])) ==> document.finish == "stop")
            && (forall k | 0 <= k < n && HasUsage(lines[k]) && (forall j | k < j < n :: !HasUsage(lines[j])) ::
                  document.usage == lines[k].event.usage)
            && ((forall k | 0 <= k < n :: !HasUsage(lines[k])) ==> document.usage == None)
  {
    hide FoldLines, Expected, HasReason;
    OutcomeIsExact(lines, readFails, d, n);
    Unsaid(lines, n);
    forall k, c | LastReason(lines, n, k, c)
      ensures FoldLines(lines, n).finish == lines[k].event.choices[c].finish.value
    {
      FinishIsTheLast(lines, n, k, c);
    }
    forall k | 0 <= k < n && HasUsage(lines[k]) && forall j | k < j < n :: !HasUsage(lines[j])
      ensures FoldLines(lines, n).usage == lines[k].event.usage
    {
      UsageIsTheLast(lines, n, k);
    }
  }

  /** Id and model of the document are the first ones sent, or the defaults. */
  lemma HeadIsTheFirst(lines: seq<Line>, readFails: bool, d: Defaults, n: nat)
    requires Ends(lines, n) && Expected(lines, readFails, d).Collapsed?
    ensures var document := Expected(lines, readFails, d).document;
            && (forall k | 0 <= k < n && HasId(lines[k]) && (forall j | 0 <= j < k :: !HasId(lines[j])) ::
                  document.id == lines[k].event.id.value)
            && ((forall k | 0 <= k < n :: !HasId(lines[k])) ==> document.id == d.id)
            && (forall k | 0 <= k < n && HasModel(lines[k]) && (forall j | 0 <= j < k :: !HasModel(lines[j])) ::
                  document.model == lines[k].event.model)
            && ((forall k | 0 <= k < n :: !HasModel(lines[k])) ==> document.model == d.model)
  {
    hide FoldLines, Expected, HasReason, HasCreated, HasUsage;
    OutcomeIsExact(lines, readFails, d, n);
    Unsaid(lines, n);
    forall k | 0 <= k < n && HasId(lines[k]) && forall j | 0 <= j < k :: !HasId(lines[j])
      ensures FoldLines(lines, n).id == lines[k].event.id.value
    {
      IdIsTheFirst(lines, n, k);
    }
    forall k | 0 <= k < n && HasModel(lines[k]) && forall j | 0 <= j < k :: !HasModel(lines[j])
      ensures FoldLines(lines, n).model == lines[k].event.model
    {
      ModelIsTheFirst(lines, n, k);
    }
  }

  /** And so is its creation time. */
  lemma CreationIsTheFirst(lines: seq<Line>, readFails: bool, d: Defaults, n: nat)
    requires Ends(lines, n) && Expected(lines, readFails, d).Collapsed?
    ensures var document := Expected(lines, readFails, d).document;
            && (forall k | 0 <= k < n && HasCreated(lines[k]) && (forall j | 0 <= j < k :: !HasCreated(lines[j])) ::
                  document.created == lines[k].event.created)
            && ((forall k | 0 <= k < n :: !HasCreated(lines[k])) ==> document.created == d.created)
  {
    hide FoldLines, Expected, HasReason, HasId, HasModel, HasUsage;
    OutcomeIsExact(lines, readFails, d, n);
    Unsaid(lines, n);
    forall k | 0 <= k < n && HasCreated(lines[k]) && forall j | 0 <= j < k :: !HasCreated(lines[j])
      ensures FoldLines(lines, n).created == lines[k].event.created
    {
      CreatedIsTheFirst(lines, n, k);
    }
  }

  // ------------------------------------------------------------------------------------
  // Fragments without an index.
  // ------------------------------------------------------------------------------------

  /** Fragments that never carry an index become one tool each, in order. */
  lemma {:induction false} UnindexedFragmentsStaySeparate(fragments: seq<Fragment>)
    requires forall f | f in fragments :: f.index.None?
    ensures AddFragments(START, fragments).order == FirstNumbers(|fragments|)
    ensures AddFragments(START, fragments).tools == OneEach(fragments)
  {
    NothingFolded();
    hide AddFragments, AddFragment, OneEach;
    if fragments != [] {
      var front, last := fragments[..|fragments| - 1], fragments[|fragments| - 1];
      assert fragments == front + [last];
      UnindexedFragmentsStaySeparate(front);
      OneEachGrows(front, last);
      OpensTool(AddFragments(START, front), last);
      LastFragment(START, front, last);
    }
  }

  lemma NothingFolded()
    ensures AddFragments(START, []) == START && OneEach([]) == map[]
  {
  }

  lemma OpensTool(f: Folded, fragment: Fragment)
    requires fragment.index.None? && |f.tools| !in f.tools
    ensures AddFragment(f, fragment).order == f.order + [|f.tools|]
    ensures AddFragment(f, fragment).tools ==
            f.tools[|f.tools| := Tool(fragment.id, fragment.name, fragment.args)]
  {
    assert "" + fragment.args == fragment.args;
  }

  function FirstNumbers(n: nat): (r: seq<int>)
    ensures |r| == n && forall k | 0 <= k < n :: r[k] == k
  {
    if n == 0 then [] else FirstNumbers(n - 1) + [n - 1]
  }

  function OneEach(fragments: seq<Fragment>): map<int, Tool> {
    map k | 0 <= k < |fragments| :: Tool(fragments[k].id, fragments[k].name, fragments[k].args)
  }

  lemma {:induction false} OneEachGrows(front: seq<Fragment>, last: Fragment)
    ensures |OneEach(front)| == |front|
    ensures |front| !in OneEach(front)
    ensures OneEach(front + [last]) == OneEach(front)[|front| := Tool(last.id, last.name, last.args)]
  {
    if front != [] {
      var start, end := front[..|front| - 1], front[|front| - 1];
      assert front == start + [end];
      OneEachGrows(start, end);
    } else {
      assert OneEach(front) == map[];
    }
  }

  /** A fragment without an index opens a tool exactly when no tool has the current count as
      its index. */
  lemma UnindexedOpensATool(f: Folded, fragment: Fragment)
    requires Listed(f) && fragment.index.None?
    ensures |AddFragment(f, fragment).order| == |f.order| + 1 <==> |f.tools| !in f.tools
    ensures |f.tools| in f.tools ==>
              AddFragment(f, fragment).tools[|f.tools|] == Merged(f.tools[|f.tools|], fragment)
  {
  }

  /** So mixing both styles can merge two calls: index 1 first, then a call without one. */
  lemma MixedIndicesCanCollide()
    ensures var f := AddFragments(START, [Fragment(Some(1), "a", "read", "{}"), Fragment(None, "b", "grep", "{}")]);
            f.order == [1] && f.tools[1] == Tool("b", "readgrep", "{}{}")
  {
    var first := Fragment(Some(1), "a", "read", "{}");
    var both := [first, Fragment(None, "b", "grep", "{}")];
    assert both[..1] == [first] && [first][..0] == [];
    assert AddFragments(START, [first]) == AddFragment(START, first);
    assert !("read" <= "grep") by { assert "read"[0] != "grep"[0]; }
  }
}
