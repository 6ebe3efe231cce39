/** Shaping a chat request for the free tier: streaming with usage, and a tool list that reads
    as an agent session. Requests are decoded JSON; `known` are the genuine definitions. */
module ToolShape {

  import opened JsonTree
  import opened Wrappers

  datatype Definition = Definition(description: string, parameters: Option<map<string, Json>>)

  type Known = map<string, Definition>

  const CORE: seq<string> := ["shell", "edit", "glob", "grep", "read"]

  /** One tool in the chat shape. */
  function AgentTool(known: Known, name: string): Json {
    var stub := map["type" := Text("object"), "properties" := Object(map[])];
    var description := if name in known then known[name].description else "Agent tool " + name;
    var parameters :=
      if name in known && known[name].parameters.Some? then known[name].parameters.value else stub;
    Object(map[
      "type" := Text("function"),
      "function" := Object(map[
        "name" := Text(name),
        "description" := Text(description),
        "parameters" := Object(parameters)])])
  }

  /** The declared name of a tool, or nothing. */
  function ToolName(item: Json): string {
    if !item.Object? || "function" !in item.members then ""
    else
      var fn := item.members["function"];
      if !fn.Object? || "name" !in fn.members || !fn.members["name"].Text? then ""
      else fn.members["name"].text
  }

  predicate Recognised(known: Known, item: Json) {
    ToolName(item) != "" && ToolName(item) in known
  }

  predicate AnyRecognised(known: Known, items: seq<Json>) {
    exists i :: 0 <= i < |items| && Recognised(known, items[i])
  }

  function Genuine(known: Known, item: Json): Json {
    if Recognised(known, item) then AgentTool(known, ToolName(item)) else item
  }

  function Names(items: seq<Json>): (names: set<string>)
    ensures forall i | 0 <= i < |items| && ToolName(items[i]) != "" :: ToolName(items[i]) in names
    ensures forall name | name in names ::
              name != "" && exists i :: 0 <= i < |items| && ToolName(items[i]) == name
  {
    set i | 0 <= i < |items| && ToolName(items[i]) != "" :: ToolName(items[i])
  }

  function GenuineAll(known: Known, items: seq<Json>): (all: seq<Json>)
    ensures |all| == |items|
    ensures forall i | 0 <= i < |items| :: all[i] == Genuine(known, items[i])
  {
    if items == [] then [] else [Genuine(known, items[0])] + GenuineAll(known, items[1..])
  }

  /** The names that are not present, in their order. */
  function Missing(names: seq<string>, present: set<string>): seq<string> {
    if names == [] then []
    else (if names[0] in present then [] else [names[0]]) + Missing(names[1..], present)
  }

  function Toolset(known: Known, names: seq<string>): (tools: seq<Json>)
    ensures |tools| == |names|
    ensures forall i | 0 <= i < |names| :: tools[i] == AgentTool(known, names[i])
  {
    if names == [] then [] else [AgentTool(known, names[0])] + Toolset(known, names[1..])
  }

  function ShapedTools(known: Known, items: seq<Json>): seq<Json> {
    GenuineAll(known, items) + Toolset(known, Missing(CORE, Names(items)))
  }

  function WithTools(known: Known, payload: map<string, Json>): map<string, Json> {
    if "tools" !in payload then payload["tools" := Array(Toolset(known, CORE))]
    else if payload["tools"].Array? then
      payload["tools" := Array(ShapedTools(known, payload["tools"].items))]
    else payload
  }

  /** Whether `forceAgentTools` reports a change, which it also does when it replaces a
      genuine definition by itself. */
  predicate ToolsReported(known: Known, payload: map<string, Json>) {
    || "tools" !in payload
    || (&& payload["tools"].Array?
        && var items := payload["tools"].items;
           || AnyRecognised(known, items)
           || Missing(CORE, Names(items)) != [])
  }

  function Options(payload: map<string, Json>): map<string, Json> {
    if "stream_options" in payload && payload["stream_options"].Object?
    then payload["stream_options"].members else map[]
  }

  predicate AsksForUsage(payload: map<string, Json>) {
    && "include_usage" in Options(payload)
    && Options(payload)["include_usage"] == Bool(true)
  }

  function WithUsage(payload: map<string, Json>): map<string, Json> {
    payload["stream_options" := Object(Options(payload)["include_usage" := Bool(true)])]
  }

  predicate Streams(payload: map<string, Json>) {
    "stream" in payload && payload["stream"] == Bool(true)
  }

  function Shaped(known: Known, payload: map<string, Json>): map<string, Json> {
    WithTools(known, WithUsage(payload["stream" := Bool(true)]))
  }

  /** A decoded request body, rewritten in place. */
  class ChatRequest {
    var payload: map<string, Json>

    constructor (payload: map<string, Json>)
      ensures this.payload == payload
    {
      this.payload := payload;
    }

    method ForceIncludeUsage() returns (changed: bool)
      modifies this
      ensures payload == WithUsage(old(payload))
      ensures changed == !AsksForUsage(old(payload))
    {
      if "stream_options" !in payload || !payload["stream_options"].Object? {
        payload := payload["stream_options" := Object(map["include_usage" := Bool(true)])];
        return true;
      }
      var options := payload["stream_options"].members;
      if "include_usage" in options && options["include_usage"] == Bool(true) {
        assert options["include_usage" := Bool(true)] == options;
        return false;
      }
      payload := payload["stream_options" := Object(options["include_usage" := Bool(true)])];
      return true;
    }

    method ForceAgentTools(known: Known) returns (changed: bool)
      modifies this
      ensures payload == WithTools(known, old(payload))
      ensures changed == ToolsReported(known, old(payload))
    {
      hide Toolset, GenuineAll, Names, AnyRecognised, Missing;
      if "tools" !in payload {
        var toolset := AgentToolset(known, CORE);
        payload := payload["tools" := Array(toolset)];
        return true;
      }
      var raw := payload["tools"];
      if !raw.Array? {
        return false;
      }
      var items, present, replaced := ReplaceRecognised(known, raw.items);
      var missing := MissingTools(CORE, present);
      changed := replaced;
      NothingMissing(known, items);
      if |missing| > 0 {
        var toolset := AgentToolset(known, missing);
        items := items + toolset;
        changed := true;
      }
      if !changed {
        NothingMissing(known, raw.items);
        assert payload["tools" := raw] == payload;
        return false;
      }
      payload := payload["tools" := Array(items)];
    }
  }

  lemma NothingMissing(known: Known, items: seq<Json>)
    ensures Toolset(known, []) == [] && items + [] == items
    ensures !AnyRecognised(known, items) ==> GenuineAll(known, items) == items
  {
  }

  method ReplaceRecognised(known: Known, declared: seq<Json>)
    returns (items: seq<Json>, present: set<string>, changed: bool)
    ensures items == GenuineAll(known, declared) && present == Names(declared)
    ensures changed == AnyRecognised(known, declared)
  {
    hide AnyRecognised, Names, ToolName, AgentTool;
    Upto(known, declared, 0);
    items, present, changed := declared, {}, false;
    var index := 0;
    while index < |declared|
      invariant 0 <= index <= |declared| == |items|
      invariant forall i | 0 <= i < index :: items[i] == Genuine(known, declared[i])
      invariant forall i | index <= i < |declared| :: items[i] == declared[i]
      invariant present == Names(declared[..index])
      invariant changed == AnyRecognised(known, declared[..index])
    {
      Upto(known, declared, index + 1);
      var name := ToolName(declared[index]);
      index := index + 1;
      if name == "" {
        continue;
      }
      present := present + {name};
      if name in known {
        items := items[index - 1 := AgentTool(known, name)];
        changed := true;
      }
    }
    assert declared[..index] == declared;
  }

  /** What one more item adds. */
  lemma Upto(known: Known, items: seq<Json>, n: nat)
    requires n <= |items|
    ensures n == 0 ==> Names(items[..n]) == {} && !AnyRecognised(known, items[..n])
    ensures n > 0 ==>
              var item := items[n - 1];
              && Names(items[..n]) == Names(items[..n - 1]) + (if ToolName(item) == "" then {} else {ToolName(item)})
              && (AnyRecognised(known, items[..n]) <==>
                  AnyRecognised(known, items[..n - 1]) || Recognised(known, item))
  {
    hide ToolName, Recognised;
    if n > 0 {
      var before, after := items[..n - 1], items[..n];
      assert after == before + [items[n - 1]];
      forall i | 0 <= i < |before|
        ensures after[i] == before[i]
      {
      }
      assert after[n - 1] == items[n - 1];
      forall name | name in Names(before)
        ensures name in Names(after)
      {
        var i :| 0 <= i < |before| && ToolName(before[i]) == name;
        assert ToolName(after[i]) == name;
      }
    }
  }

  method MissingTools(names: seq<string>, present: set<string>) returns (missing: seq<string>)
    ensures missing == Missing(names, present)
  {
    hide Missing;
    missing := [];
    var i := 0;
    AllOfThem(names, present, missing);
    while i < |names|
      invariant 0 <= i <= |names|
      invariant missing + Missing(names[i..], present) == Missing(names, present)
    {
      OneMoreName(names, present, i, missing);
      if names[i] !in present {
        missing := missing + [names[i]];
      }
      i := i + 1;
    }
    AllOfThem(names, present, missing);
  }

  lemma AllOfThem(names: seq<string>, present: set<string>, missing: seq<string>)
    ensures [] + Missing(names[0..], present) == Missing(names, present)
    ensures missing + Missing(names[|names|..], present) == missing
  {
    assert names[0..] == names && names[|names|..] == [] && Missing([], present) == [];
  }

  lemma OneMoreName(names: seq<string>, present: set<string>, i: nat, missing: seq<string>)
    requires i < |names|
    ensures missing + Missing(names[i..], present) ==
            (if names[i] in present then missing else missing + [names[i]]) + Missing(names[i + 1..], present)
  {
    assert names[i..][1..] == names[i + 1..];
  }

  method AgentToolset(known: Known, names: seq<string>) returns (tools: seq<Json>)
    ensures tools == Toolset(known, names)
  {
    tools := [];
    while |tools| < |names|
      invariant |tools| <= |names|
      invariant forall i | 0 <= i < |tools| :: tools[i] == AgentTool(known, names[i])
    {
      tools := tools + [AgentTool(known, names[|tools|])];
    }
  }

  /** `shapeFreeModelBody` on a decoded body; one that is no object is left as it is. */
  method ShapeFreeModelBody(known: Known, body: Json) returns (shaped: Json, changed: bool)
    ensures shaped == if body.Object? then Object(Shaped(known, body.members)) else body
    ensures !changed ==> shaped == body
    ensures body.Object? ==>
              (changed <==>
               !Streams(body.members) || !AsksForUsage(body.members) || ToolsReported(known, body.members))
  {
    if !body.Object? {
      return body, false;
    }
    var request := new ChatRequest(body.members);
    changed := false;
    if !Streams(request.payload) {
      request.payload := request.payload["stream" := Bool(true)];
      changed := true;
    }
    assert request.payload == body.members["stream" := Bool(true)];
    var usage := request.ForceIncludeUsage();
    changed := changed || usage;
    var tools := request.ForceAgentTools(known);
    changed := changed || tools;
    shaped := Object(request.payload);
    if !changed {
      UnreportedIsUnchanged(known, body.members);
      shaped := body;
    }
  }

  /** Nothing to report means nothing to do. */
  lemma UnreportedIsUnchanged(known: Known, payload: map<string, Json>)
    requires Streams(payload) && AsksForUsage(payload) && !ToolsReported(known, payload)
    ensures Shaped(known, payload) == payload
  {
    assert payload["stream" := Bool(true)] == payload;
    var options := Options(payload);
    assert options["include_usage" := Bool(true)] == options;
    assert WithUsage(payload) == payload;
    if payload["tools"].Array? {
      var items := payload["tools"].items;
      assert GenuineAll(known, items) + [] == items;
    }
  }
}
