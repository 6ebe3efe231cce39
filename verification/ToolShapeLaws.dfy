/** What the upstream may rely on in a shaped request, what the client keeps, and what
    shaping a shaped request does. */
module ToolShapeLaws {

  import opened JsonTree
  import opened ToolShape
  import opened Wrappers

  /** What makes an item a tool of this name. */
  predicate Named(item: Json, name: string) {
    && item.Object? && "function" in item.members && item.members["function"].Object?
    && "name" in item.members["function"].members
    && item.members["function"].members["name"] == Text(name)
  }

  lemma NameIsExact(item: Json, name: string)
    requires name != ""
    ensures ToolName(item) == name <==> Named(item, name)
  {
  }

  /** The definition a tool of this name is sent with: the genuine one if there is one. */
  ghost predicate Defines(known: Known, item: Json, name: string) {
    && item.Object? && item.members.Keys == {"type", "function"} && item.members["type"] == Text("function")
    && item.members["function"].Object?
    && var fn := item.members["function"].members;
       && fn.Keys == {"name", "description", "parameters"} && fn["name"] == Text(name)
       && fn["description"] == Text(if name in known then known[name].description else "Agent tool " + name)
       && fn["parameters"] ==
            if name in known && known[name].parameters.Some? then Object(known[name].parameters.value)
            else Object(map["type" := Text("object"), "properties" := Object(map[])])
  }

  lemma AgentToolDefines(known: Known, name: string)
    ensures Defines(known, AgentTool(known, name), name)
  {
    var tool := AgentTool(known, name);
    var fn := tool.members["function"].members;
    assert fn["name"] == Text(name);
    assert fn["description"] == Text(if name in known then known[name].description else "Agent tool " + name);
  }

  lemma NameOfAgentTool(known: Known, name: string)
    ensures ToolName(AgentTool(known, name)) == name
  {
    var tool := AgentTool(known, name);
    assert tool.members["function"].members["name"] == Text(name);
  }

  lemma {:induction false} MissingExactly(names: seq<string>, present: set<string>, name: string)
    ensures name in Missing(names, present) <==> name in names && name !in present
  {
    if names != [] {
      MissingExactly(names[1..], present, name);
    }
  }

  lemma {:induction false} NothingIsMissing(names: seq<string>, present: set<string>)
    requires forall name | name in names :: name in present
    ensures Missing(names, present) == []
  {
    if names != [] {
      NothingIsMissing(names[1..], present);
    }
  }

  lemma {:induction false} MissingIsPart(names: seq<string>, present: set<string>)
    ensures |Missing(names, present)| <= |names|
    ensures forall i | 0 <= i < |Missing(names, present)| :: Missing(names, present)[i] in names
  {
    if names != [] {
      MissingIsPart(names[1..], present);
    }
  }

  lemma CoreHasNames(name: string)
    requires name in CORE
    ensures name != ""
  {
    assert "" !in CORE;
  }

  lemma CoreNames(name: string)
    ensures name in CORE <==> name in {"shell", "edit", "glob", "grep", "read"}
  {
    assert CORE[0] == "shell" && CORE[1] == "edit" && CORE[2] == "glob" && CORE[3] == "grep" && CORE[4] == "read";
  }

  predicate HasTool(items: seq<Json>, name: string) {
    exists i :: 0 <= i < |items| && Named(items[i], name)
  }

  lemma HasToolIf(items: seq<Json>, name: string)
    requires name != ""
    ensures HasTool(items, name) <==> name in Names(items)
  {
    hide ToolName, Named;
    forall i | 0 <= i < |items|
      ensures ToolName(items[i]) == name <==> Named(items[i], name)
    {
      NameIsExact(items[i], name);
    }
  }

  /** Shaping never changes what an item is called. */
  lemma NameOfGenuine(known: Known, item: Json)
    ensures ToolName(Genuine(known, item)) == ToolName(item)
  {
    NameOfAgentTool(known, ToolName(item));
  }

  /** A shaped list has every core tool. */
  lemma EveryCoreToolIsThere(known: Known, items: seq<Json>, name: string)
    requires name in {"shell", "edit", "glob", "grep", "read"}
    ensures HasTool(ShapedTools(known, items), name)
  {
    hide ToolName, AgentTool, Named, Names, HasTool, Missing, Genuine, Toolset, GenuineAll;
    CoreNames(name);
    CoreHasNames(name);
    HasToolIf(ShapedTools(known, items), name);
    var shaped := ShapedTools(known, items);
    var missing := Missing(CORE, Names(items));
    MissingExactly(CORE, Names(items), name);
    if name in missing {
      var i :| 0 <= i < |missing| && missing[i] == name;
      NameOfAgentTool(known, name);
      assert ToolName(shaped[|items| + i]) == name;
    } else {
      var i :| 0 <= i < |items| && ToolName(items[i]) == name;
      NameOfGenuine(known, items[i]);
      assert ToolName(shaped[i]) == name;
    }
  }

  /** Whatever tool of it the upstream recognises carries the genuine definition. */
  lemma RecognisedToolsAreGenuine(known: Known, items: seq<Json>, i: nat, name: string)
    requires i < |ShapedTools(known, items)| && Named(ShapedTools(known, items)[i], name)
    requires name in known && name != ""
    ensures Defines(known, ShapedTools(known, items)[i], name)
    ensures ShapedTools(known, items)[i] == AgentTool(known, name)
  {
    hide ToolName, AgentTool, Named, Defines;
    NameIsExact(ShapedTools(known, items)[i], name);
    AgentToolDefines(known, name);
    if i < |items| {
      NameOfGenuine(known, items[i]);
    } else {
      NameOfAgentTool(known, Missing(CORE, Names(items))[i - |items|]);
    }
  }

  function Lacking(items: seq<Json>, name: string): seq<string> {
    if HasTool(items, name) then [] else [name]
  }

  /** The core tools a client did not declare, in their order. */
  function LackingCore(items: seq<Json>): seq<string> {
    Lacking(items, "shell") + (Lacking(items, "edit") + (Lacking(items, "glob")
      + (Lacking(items, "grep") + Lacking(items, "read"))))
  }

  lemma MissingInOrder(items: seq<Json>)
    ensures Missing(CORE, Names(items)) == LackingCore(items)
  {
    hide HasTool, Names, Missing, Lacking;
    var present := Names(items);
    NextMissing(items, "read", []);
    NextMissing(items, "grep", ["read"]);
    NextMissing(items, "glob", ["grep", "read"]);
    NextMissing(items, "edit", ["glob", "grep", "read"]);
    NextMissing(items, "shell", ["edit", "glob", "grep", "read"]);
    assert ["read"] == ["read"] + [] && ["grep", "read"] == ["grep"] + ["read"];
    assert ["glob", "grep", "read"] == ["glob"] + ["grep", "read"];
    assert ["edit", "glob", "grep", "read"] == ["edit"] + ["glob", "grep", "read"];
    assert CORE == ["shell"] + ["edit", "glob", "grep", "read"];
    assert Lacking(items, "read") + [] == Lacking(items, "read");
  }

  lemma NextMissing(items: seq<Json>, name: string, names: seq<string>)
    requires name != ""
    ensures Missing([name] + names, Names(items)) == Lacking(items, name) + Missing(names, Names(items))
    ensures Missing([], Names(items)) == []
  {
    hide HasTool, Names;
    HasToolIf(items, name);
    assert ([name] + names)[1..] == names;
  }

  /** The client's tools keep their places: those not recognised as they were declared, the
      others with the genuine definition; and what follows them are the core tools it did not
      declare. */
  lemma DeclaredToolsKeepTheirPlaces(known: Known, items: seq<Json>)
    ensures var shaped := ShapedTools(known, items);
            var missing := LackingCore(items);
            && |shaped| == |items| + |missing|
            && (forall i | 0 <= i < |items| ::
                  (exists name :: name != "" && name in known && Named(items[i], name)) || shaped[i] == items[i])
            && (forall i, name | 0 <= i < |items| && name != "" && name in known && Named(items[i], name) ::
                  Defines(known, shaped[i], name))
            && (forall i | 0 <= i < |missing| :: Defines(known, shaped[|items| + i], missing[i]))
  {
    hide ToolName, AgentTool, Named, Defines, LackingCore;
    MissingInOrder(items);
    var shaped := ShapedTools(known, items);
    forall i | 0 <= i < |items|
      ensures (exists name :: name != "" && name in known && Named(items[i], name)) || shaped[i] == items[i]
    {
      var name := ToolName(items[i]);
      if Recognised(known, items[i]) {
        NameIsExact(items[i], name);
      }
    }
    forall i, name | 0 <= i < |items| && name != "" && name in known && Named(items[i], name)
      ensures Defines(known, shaped[i], name)
    {
      NameIsExact(items[i], name);
      AgentToolDefines(known, name);
    }
    var missing := Missing(CORE, Names(items));
    forall i | 0 <= i < |missing|
      ensures Defines(known, shaped[|items| + i], missing[i])
    {
      AgentToolDefines(known, missing[i]);
    }
  }

  lemma ShapedToolsAgain(known: Known, items: seq<Json>)
    ensures ShapedTools(known, ShapedTools(known, items)) == ShapedTools(known, items)
  {
    var shaped := ShapedTools(known, items);
    forall name | name in CORE
      ensures name in Names(shaped)
    {
      CoreNames(name);
      EveryCoreToolIsThere(known, items, name);
      CoreHasNames(name);
      HasToolIf(shaped, name);
    }
    NothingIsMissing(CORE, Names(shaped));
    hide ShapedTools;
    forall i | 0 <= i < |shaped|
      ensures Genuine(known, shaped[i]) == shaped[i]
    {
      if Recognised(known, shaped[i]) {
        NameIsExact(shaped[i], ToolName(shaped[i]));
        RecognisedToolsAreGenuine(known, items, i, ToolName(shaped[i]));
      }
    }
    ShapedToolsIs(known, shaped);
  }

  lemma ShapedToolsIs(known: Known, items: seq<Json>)
    requires Missing(CORE, Names(items)) == []
    requires forall i | 0 <= i < |items| :: Genuine(known, items[i]) == items[i]
    ensures ShapedTools(known, items) == items
  {
    hide Genuine;
    assert GenuineAll(known, items) == items;
    assert Toolset(known, []) == [] && items + [] == items;
  }

  lemma NoToolsDeclared(known: Known)
    ensures Toolset(known, CORE) == ShapedTools(known, [])
  {
    assert Names([]) == {};
    AllMissing(CORE);
    assert GenuineAll(known, []) + Toolset(known, CORE) == Toolset(known, CORE);
  }

  lemma {:induction false} AllMissing(names: seq<string>)
    ensures Missing(names, {}) == names
  {
    if names != [] {
      AllMissing(names[1..]);
    }
  }

  lemma ToolsAgain(known: Known, payload: map<string, Json>)
    ensures WithTools(known, WithTools(known, payload)) == WithTools(known, payload)
  {
    hide ShapedTools, Toolset;
    NoToolsDeclared(known);
    var items := if "tools" in payload && payload["tools"].Array? then payload["tools"].items else [];
    ShapedToolsAgain(known, items);
    ToolsTwice(payload, Array(ShapedTools(known, items)));
  }

  lemma ToolsTwice(payload: map<string, Json>, tools: Json)
    ensures payload["tools" := tools]["tools" := tools] == payload["tools" := tools]
  {
  }

  /** Shaping only ever touches three fields: it asks for streaming and for usage, keeps every
      other stream option, and shapes the tools if they are a list or missing. */
  lemma OnlyThreeFieldsChange(known: Known, payload: map<string, Json>)
    ensures var shaped := Shaped(known, payload);
            && shaped.Keys == payload.Keys + {"stream", "stream_options", "tools"}
            && shaped["stream"] == Bool(true)
            && (forall key | key in payload && key !in {"stream", "stream_options", "tools"} ::
                  shaped[key] == payload[key])
            && shaped["stream_options"] ==
                 (if "stream_options" in payload && payload["stream_options"].Object?
                  then Object(payload["stream_options"].members["include_usage" := Bool(true)])
                  else Object(map["include_usage" := Bool(true)]))
            && shaped["tools"] ==
                 (if "tools" !in payload then Array(ShapedTools(known, []))
                  else if payload["tools"].Array? then Array(ShapedTools(known, payload["tools"].items))
                  else payload["tools"])
  {
    NoToolsDeclared(known);
    hide ShapedTools, Toolset;
  }

  /** When shaping reports a change: the request did not ask for streaming, or not for usage, or
      it declared no tools, or its list has a tool with a known name or lacks a core tool. */
  lemma ReportedExactly(known: Known, payload: map<string, Json>)
    ensures !Streams(payload) || !AsksForUsage(payload) || ToolsReported(known, payload) <==>
            || "stream" !in payload || payload["stream"] != Bool(true)
            || "stream_options" !in payload || !payload["stream_options"].Object?
            || "include_usage" !in payload["stream_options"].members
            || payload["stream_options"].members["include_usage"] != Bool(true)
            || "tools" !in payload
            || (&& payload["tools"].Array?
                && var items := payload["tools"].items;
                   || (exists name :: name != "" && name in known && HasTool(items, name))
                   || (exists name :: name in {"shell", "edit", "glob", "grep", "read"} && !HasTool(items, name)))
  {
    if "tools" in payload && payload["tools"].Array? {
      hide HasTool;
      var items := payload["tools"].items;
      RecognisedExactly(known, items);
      LacksACoreTool(items);
    }
  }

  lemma RecognisedExactly(known: Known, items: seq<Json>)
    ensures AnyRecognised(known, items) <==> exists name :: name != "" && name in known && HasTool(items, name)
  {
    hide ToolName, HasTool;
    if i :| 0 <= i < |items| && Recognised(known, items[i]) {
      HasToolIf(items, ToolName(items[i]));
    }
    if name :| name != "" && name in known && HasTool(items, name) {
      HasToolIf(items, name);
      var i :| 0 <= i < |items| && ToolName(items[i]) == name;
      assert Recognised(known, items[i]);
    }
  }

  lemma LacksACoreTool(items: seq<Json>)
    ensures Missing(CORE, Names(items)) != [] <==>
            exists name :: name in {"shell", "edit", "glob", "grep", "read"} && !HasTool(items, name)
  {
    hide HasTool;
    MissingInOrder(items);
  }

  /** Shaping a shaped request gives the same request. */
  lemma ShapingTwiceIsShapingOnce(known: Known, payload: map<string, Json>)
    ensures Shaped(known, Shaped(known, payload)) == Shaped(known, payload)
  {
    var shaped := Shaped(known, payload);
    OnlyThreeFieldsChange(known, payload);
    ToolsAgain(known, WithUsage(payload["stream" := Bool(true)]));
    hide WithTools, ShapedTools;
    AlreadyAsked(shaped);
  }

  lemma AlreadyAsked(payload: map<string, Json>)
    requires Streams(payload) && AsksForUsage(payload) && "stream_options" in payload
    ensures WithUsage(payload["stream" := Bool(true)]) == payload
  {
    assert payload["stream" := Bool(true)] == payload;
    var options := Options(payload);
    assert options["include_usage" := Bool(true)] == options;
  }

  /** Yet it is reported as a change again exactly when the shaped list has a recognised tool;
      with the genuine definitions at hand it always has one. */
  lemma ShapedRequestsAreReportedAgain(known: Known, payload: map<string, Json>)
    requires "tools" !in payload || payload["tools"].Array?
    ensures var shaped := Shaped(known, payload);
            && shaped["tools"].Array?
            && (ToolsReported(known, shaped) <==> AnyRecognised(known, shaped["tools"].items))
            && ((exists name | name in CORE :: name in known) ==> ToolsReported(known, shaped))
  {
    var items := if "tools" in payload then payload["tools"].items else [];
    ShapedToolList(known, payload, items);
    hide ShapedTools, Recognised, Names, Shaped;
    ShapedHasAllNames(known, items);
    NothingIsMissing(CORE, Names(ShapedTools(known, items)));
    if name :| name in CORE && name in known {
      CoreIsRecognised(known, items, name);
    }
  }

  lemma ShapedToolList(known: Known, payload: map<string, Json>, items: seq<Json>)
    requires "tools" !in payload || payload["tools"].Array?
    requires items == if "tools" in payload then payload["tools"].items else []
    ensures "tools" in Shaped(known, payload)
    ensures Shaped(known, payload)["tools"] == Array(ShapedTools(known, items))
  {
    hide ShapedTools, Toolset;
    NoToolsDeclared(known);
  }

  lemma ShapedHasAllNames(known: Known, items: seq<Json>)
    ensures forall name | name in CORE :: name in Names(ShapedTools(known, items))
  {
    forall name | name in CORE
      ensures name in Names(ShapedTools(known, items))
    {
      CoreNames(name);
      EveryCoreToolIsThere(known, items, name);
      CoreHasNames(name);
      HasToolIf(ShapedTools(known, items), name);
    }
  }

  lemma CoreIsRecognised(known: Known, items: seq<Json>, name: string)
    requires name in CORE && name in known
    ensures AnyRecognised(known, ShapedTools(known, items))
  {
    CoreNames(name);
    EveryCoreToolIsThere(known, items, name);
    CoreHasNames(name);
    var shaped := ShapedTools(known, items);
    var i :| 0 <= i < |shaped| && Named(shaped[i], name);
    NameIsExact(shaped[i], name);
    assert Recognised(known, shaped[i]);
  }
}
