/** Replacing the images of a chat request by their description, on a clone of the decoded
    request, so that a later attempt still finds the images. */
module ImageRewrite {

  import opened JsonTree

  /** `fold` trims and lower-cases the `type` of a content part. */
  type Fold = string -> string

  const IMAGE_KINDS := {"image_url", "input_image", "image"}
  const CAPTION := "[\U{56fe}\U{7247}\U{5185}\U{5bb9}]\n"

  predicate IsImage(fold: Fold, part: Json) {
    && part.Object?
    && ((&& "type" in part.members && part.members["type"].Text?
         && fold(part.members["type"].text) in IMAGE_KINDS)
        || "image_url" in part.members)
  }

  predicate AnyImage(fold: Fold, parts: seq<Json>) {
    exists i :: 0 <= i < |parts| && IsImage(fold, parts[i])
  }

  predicate ContainsImage(fold: Fold, content: Json) {
    || IsImage(fold, content)
    || (content.Array? && AnyImage(fold, content.items))
  }

  predicate MessageHasImage(fold: Fold, message: Json) {
    message.Object? && "content" in message.members && ContainsImage(fold, message.members["content"])
  }

  predicate IsChat(payload: Json) {
    payload.Object? && "messages" in payload.members && payload.members["messages"].Array?
  }

  predicate HasImages(fold: Fold, payload: Json) {
    && IsChat(payload)
    && AnyMessage(fold, payload.members["messages"].items)
  }

  predicate AnyMessage(fold: Fold, messages: seq<Json>) {
    exists i :: 0 <= i < |messages| && MessageHasImage(fold, messages[i])
  }

  function Description(text: string): Json {
    Object(map["type" := Text("text"), "text" := Text(CAPTION + text)])
  }

  function DescribedPart(fold: Fold, part: Json, text: string): Json {
    if IsImage(fold, part) then Description(text) else part
  }

  function DescribedParts(fold: Fold, parts: seq<Json>, text: string): (described: seq<Json>)
    ensures |described| == |parts|
    ensures forall i | 0 <= i < |parts| :: described[i] == DescribedPart(fold, parts[i], text)
  {
    if parts == [] then []
    else [DescribedPart(fold, parts[0], text)] + DescribedParts(fold, parts[1..], text)
  }

  function DescribedContent(fold: Fold, content: Json, text: string): Json {
    if content.Array? then Array(DescribedParts(fold, content.items, text))
    else DescribedPart(fold, content, text)
  }

  function DescribedMessage(fold: Fold, message: Json, text: string): Json {
    if MessageHasImage(fold, message) then
      Object(message.members["content" := DescribedContent(fold, message.members["content"], text)])
    else message
  }

  function DescribedMessages(fold: Fold, messages: seq<Json>, text: string): (described: seq<Json>)
    ensures |described| == |messages|
    ensures forall i | 0 <= i < |messages| :: described[i] == DescribedMessage(fold, messages[i], text)
  {
    if messages == [] then []
    else [DescribedMessage(fold, messages[0], text)] + DescribedMessages(fold, messages[1..], text)
  }

  function WithMessages(payload: Json, messages: seq<Json>): Json
    requires payload.Object?
  {
    Object(payload.members["messages" := Array(messages)])
  }

  /** The request with every image described. */
  function Described(fold: Fold, payload: Json, text: string): Json {
    if IsChat(payload)
    then WithMessages(payload, DescribedMessages(fold, payload.members["messages"].items, text))
    else payload
  }

  // ------------------------------------------------------------------------------------
  // Detection.
  // ------------------------------------------------------------------------------------

  method IsImageContentPart(
      fold: Fold, v: Value, ghost j: Json, ghost path: Path, ghost nodes: set<object>)
    returns (image: bool)
    requires Represents(v, j, path, nodes)
    ensures image == IsImage(fold, j)
  {
    if !v.ObjectRef? {
      return false;
    }
    var part := v.obj.members;
    if "type" in part {
      var kind := part["type"];
      assert Represents(kind, j.members["type"], path + [Key("type")], nodes);
      if kind.Scalar? && kind.json.Text? && fold(kind.json.text) in IMAGE_KINDS {
        return true;
      }
    }
    image := "image_url" in part;
  }

  method ContainsImageContent(
      fold: Fold, v: Value, ghost j: Json, ghost path: Path, ghost nodes: set<object>)
    returns (found: bool)
    requires Represents(v, j, path, nodes)
    ensures found == ContainsImage(fold, j)
  {
    found := IsImageContentPart(fold, v, j, path, nodes);
    if found || !v.ArrayRef? {
      return;
    }
    var i := 0;
    while i < |v.arr.items|
      invariant 0 <= i <= |v.arr.items| && !found
      invariant forall k | 0 <= k < i :: !IsImage(fold, j.items[k])
    {
      found := IsImageContentPart(fold, v.arr.items[i], j.items[i], path + [Index(i)], nodes);
      if found {
        return;
      }
      i := i + 1;
    }
  }

  method RequestHasImageInput(
      fold: Fold, payload: Value, ghost j: Json, ghost path: Path, ghost nodes: set<object>)
    returns (found: bool)
    requires Represents(payload, j, path, nodes)
    ensures found == HasImages(fold, j)
  {
    hide IsImage, ContainsImage;
    if !payload.ObjectRef? || "messages" !in payload.obj.members {
      return false;
    }
    var messages := payload.obj.members["messages"];
    ghost var at := path + [Key("messages")];
    assert Represents(messages, j.members["messages"], at, nodes);
    if !messages.ArrayRef? {
      return false;
    }
    ghost var all := j.members["messages"].items;
    var i := 0;
    while i < |messages.arr.items|
      invariant 0 <= i <= |messages.arr.items|
      invariant forall k | 0 <= k < i :: !MessageHasImage(fold, all[k])
    {
      var message := messages.arr.items[i];
      assert Represents(message, all[i], at + [Index(i)], nodes);
      if message.ObjectRef? && "content" in message.obj.members {
        found := ContainsImageContent(fold, message.obj.members["content"], all[i].members["content"],
          at + [Index(i)] + [Key("content")], nodes);
        if found {
          assert MessageHasImage(fold, all[i]);
          return;
        }
      }
      i := i + 1;
    }
    found := false;
  }

  // ------------------------------------------------------------------------------------
  // Rewriting in place.
  // ------------------------------------------------------------------------------------

  method ImageDescriptionContent(text: string, ghost path: Path)
    returns (v: Value, ghost made: set<object>)
    ensures fresh(made) && Represents(v, Description(text), path, made)
  {
    var obj := new JsonObject(path, map["type" := Scalar(Text("text")), "text" := Scalar(Text(CAPTION + text))]);
    made := {obj};
    v := ObjectRef(obj);
  }

  /** The new content shares the parts it keeps with the old one; `used` are the nodes the
      document may be made of afterwards, the new ones included. */
  method ReplaceImageContentValue(
      fold: Fold, v: Value, text: string, ghost j: Json, ghost path: Path, ghost nodes: set<object>)
    returns (rewritten: Value, found: bool, ghost used: set<object>)
    requires Represents(v, j, path, nodes)
    ensures found == ContainsImage(fold, j)
    ensures nodes <= used && fresh(used - nodes)
    ensures Represents(rewritten, DescribedContent(fold, j, text), path, used)
  {
    hide IsImage;
    ImagesAreObjects(fold, j);
    rewritten, found, used := ReplacePart(fold, v, text, j, path, nodes);
    if found || !v.ArrayRef? {
      return;
    }
    var items, any, own := ReplaceParts(fold, v.arr.items, text, j.items, path, nodes);
    var arr := new JsonArray(path, items);
    WrapItems(arr, DescribedContent(fold, j, text), own);
    return ArrayRef(arr), any, own + {arr};
  }

  lemma ImagesAreObjects(fold: Fold, j: Json)
    ensures IsImage(fold, j) ==> j.Object?
  {
  }

  method ReplacePart(
      fold: Fold, v: Value, text: string, ghost j: Json, ghost path: Path, ghost nodes: set<object>)
    returns (rewritten: Value, image: bool, ghost used: set<object>)
    requires Represents(v, j, path, nodes)
    ensures image == IsImage(fold, j)
    ensures nodes <= used && fresh(used - nodes)
    ensures Represents(rewritten, DescribedPart(fold, j, text), path, used)
  {
    hide IsImage, Represents;
    image := IsImageContentPart(fold, v, j, path, nodes);
    if image {
      var described, made := ImageDescriptionContent(text, path);
      MoreNodes(described, Description(text), path, made, nodes + made);
      return described, image, nodes + made;
    }
    return v, image, nodes;
  }

  method ReplaceParts(
      fold: Fold, parts: seq<Value>, text: string,
      ghost items: seq<Json>, ghost path: Path, ghost nodes: set<object>)
    returns (rewritten: seq<Value>, replaced: bool, ghost used: set<object>)
    requires Items(parts, items, path, nodes) && |parts| == |items|
    ensures nodes <= used && fresh(used - nodes)
    ensures replaced == AnyImage(fold, items)
    ensures |rewritten| == |items| && Items(rewritten, DescribedParts(fold, items, text), path, used)
  {
    ghost var all := DescribedParts(fold, items, text);
    hide Represents, IsImage, Items, AnyImage, DescribedPart;
    rewritten, replaced, used := [], false, nodes;
    NoItems(all, path, used);
    AnyImageBefore(fold, items, 0);
    while |rewritten| < |parts|
      invariant |rewritten| <= |parts| && nodes <= used && fresh(used - nodes)
      invariant replaced == AnyImage(fold, items[..|rewritten|])
      invariant Items(rewritten, all, path, used)
    {
      var i := |rewritten|;
      ItemOf(parts, items, path, nodes, i);
      AnyImageBefore(fold, items, i + 1);
      var part, image, own := ReplacePart(fold, parts[i], text, items[i], path + [Index(i)], nodes);
      AddItem(rewritten, all, path, used, part, own);
      used := used + own;
      rewritten := rewritten + [part];
      replaced := replaced || image;
    }
    assert items[..|rewritten|] == items;
  }

  lemma AnyImageBefore(fold: Fold, parts: seq<Json>, n: nat)
    requires n <= |parts|
    ensures n == 0 ==> !AnyImage(fold, parts[..n])
    ensures n > 0 ==>
              (AnyImage(fold, parts[..n]) <==> AnyImage(fold, parts[..n - 1]) || IsImage(fold, parts[n - 1]))
  {
    hide IsImage;
    if n > 0 {
      var before, upTo := parts[..n - 1], parts[..n];
      assert upTo == before + [parts[n - 1]];
      if AnyImage(fold, before) {
        var i :| 0 <= i < |before| && IsImage(fold, before[i]);
        assert IsImage(fold, upTo[i]);
      }
      if IsImage(fold, parts[n - 1]) {
        assert IsImage(fold, upTo[n - 1]);
      }
    }
  }

  lemma NoItems(all: seq<Json>, path: Path, nodes: set<object>)
    ensures Items([], all, path, nodes)
  {
  }

  lemma ItemOf(taken: seq<Value>, all: seq<Json>, path: Path, nodes: set<object>, i: nat)
    requires Items(taken, all, path, nodes) && i < |taken|
    ensures i < |all| && Represents(taken[i], all[i], path + [Index(i)], nodes)
  {
  }

  lemma AnyMessageBefore(fold: Fold, messages: seq<Json>, n: nat)
    requires n <= |messages|
    ensures n == 0 ==> !AnyMessage(fold, messages[..n])
    ensures n > 0 ==>
              (AnyMessage(fold, messages[..n]) <==>
               AnyMessage(fold, messages[..n - 1]) || MessageHasImage(fold, messages[n - 1]))
  {
    hide MessageHasImage;
    if n > 0 {
      var before, upTo := messages[..n - 1], messages[..n];
      assert upTo == before + [messages[n - 1]];
      if AnyMessage(fold, before) {
        var i :| 0 <= i < |before| && MessageHasImage(fold, before[i]);
        assert MessageHasImage(fold, upTo[i]);
      }
      if MessageHasImage(fold, messages[n - 1]) {
        assert MessageHasImage(fold, upTo[n - 1]);
      }
    }
  }

  /** The request after its first n messages have been gone through. */
  function Partly(fold: Fold, payload: Json, text: string, n: nat): Json
    requires IsChat(payload) && n <= |payload.members["messages"].items|
  {
    var messages := payload.members["messages"].items;
    WithMessages(payload, DescribedMessages(fold, messages[..n], text) + messages[n..])
  }

  /** A request with one message exchanged. */
  function WithMessage(payload: Json, i: nat, message: Json): Json
    requires IsChat(payload) && i < |payload.members["messages"].items|
  {
    WithMessages(payload, payload.members["messages"].items[i := message])
  }

  lemma PartlyNext(fold: Fold, payload: Json, text: string, n: nat)
    requires IsChat(payload) && n < |payload.members["messages"].items|
    ensures var message := payload.members["messages"].items[n];
            var now := Partly(fold, payload, text, n);
            && IsChat(now) && now.members["messages"].items[n] == message
            && |now.members["messages"].items| == |payload.members["messages"].items|
            && Partly(fold, payload, text, n + 1) == WithMessage(now, n, DescribedMessage(fold, message, text))
  {
    var messages := payload.members["messages"].items;
    var now := Partly(fold, payload, text, n).members["messages"].items;
    var next := Partly(fold, payload, text, n + 1).members["messages"].items;
    assert next == now[n := DescribedMessage(fold, messages[n], text)];
  }

  lemma PartlyEnds(fold: Fold, payload: Json, text: string)
    requires IsChat(payload)
    ensures Partly(fold, payload, text, 0) == payload
    ensures Partly(fold, payload, text, |payload.members["messages"].items|) == Described(fold, payload, text)
  {
    var messages := payload.members["messages"].items;
    assert DescribedMessages(fold, messages[..0], text) + messages[0..] == messages;
    var described := DescribedMessages(fold, messages, text);
    assert messages[..|messages|] == messages && messages[|messages|..] == [] && described + [] == described;
  }

  /** Everything of a request but the content of message i, given the values held by the
      request, by its list of messages and by that message. */
  ghost predicate AllButContent(
      request: map<string, Value>, messages: seq<Value>, message: map<string, Value>,
      j: Json, i: nat, path: Path, nodes: set<object>)
    requires IsChat(j) && i < |j.members["messages"].items| && j.members["messages"].items[i].Object?
    reads nodes
  {
    var all := j.members["messages"].items;
    var at := path + [Key("messages")];
    && request.Keys == j.members.Keys && |messages| == |all| && message.Keys == all[i].members.Keys
    && (forall k | k in request && k != "messages" ::
          Represents(request[k], j.members[k], path + [Key(k)], nodes))
    && (forall m | 0 <= m < |messages| && m != i :: Represents(messages[m], all[m], at + [Index(m)], nodes))
    && (forall k | k in message && k != "content" ::
          Represents(message[k], all[i].members[k], at + [Index(i)] + [Key(k)], nodes))
  }

  /** None of it needs the message's own node. */
  lemma TakeApart(request: JsonObject, messages: JsonArray, message: JsonObject,
                  j: Json, i: nat, path: Path, nodes: set<object>)
    requires Represents(ObjectRef(request), j, path, nodes)
    requires IsChat(j) && i < |j.members["messages"].items| && j.members["messages"].items[i].Object?
    requires request.members["messages"] == ArrayRef(messages)
    requires i < |messages.items| && messages.items[i] == ObjectRef(message)
    ensures AllButContent(request.members, messages.items, message.members, j, i, path, nodes - {message})
    ensures message.path == path + [Key("messages")] + [Index(i)] && message in nodes
    ensures message != request
    ensures "content" in message.members ==>
              "content" in j.members["messages"].items[i].members &&
              Represents(message.members["content"], j.members["messages"].items[i].members["content"],
                path + [Key("messages")] + [Index(i)] + [Key("content")], nodes - {message})
  {
    var all := j.members["messages"].items;
    var at := path + [Key("messages")];
    assert Represents(ArrayRef(messages), j.members["messages"], at, nodes);
    assert Represents(ObjectRef(message), all[i], at + [Index(i)], nodes);
    assert message.path[|path|] == Key("messages") && message.path[|path| + 1] == Index(i);
    forall k | k in request.members && k != "messages"
      ensures Represents(request.members[k], j.members[k], path + [Key(k)], nodes - {message})
    {
      assert (path + [Key(k)])[|path|] == Key(k);
      OffTheWay(request.members[k], j.members[k], path + [Key(k)], nodes, message);
    }
    forall m | 0 <= m < |all| && m != i
      ensures Represents(messages.items[m], all[m], at + [Index(m)], nodes - {message})
    {
      assert (at + [Index(m)])[|path| + 1] == Index(m);
      OffTheWay(messages.items[m], all[m], at + [Index(m)], nodes, message);
    }
    forall k | k in message.members
      ensures Represents(message.members[k], all[i].members[k], at + [Index(i)] + [Key(k)], nodes - {message})
    {
      OffTheWay(message.members[k], all[i].members[k], at + [Index(i)] + [Key(k)], nodes, message);
    }
  }

  /** The message with its new content, back in its place. */
  lemma PutTogether(request: JsonObject, messages: JsonArray, message: JsonObject,
                    j: Json, i: nat, content: Json, path: Path, nodes: set<object>)
    requires IsChat(j) && i < |j.members["messages"].items| && j.members["messages"].items[i].Object?
    requires "content" in j.members["messages"].items[i].members
    requires request in nodes && request.path == path && messages in nodes && message in nodes
    requires messages.path == path + [Key("messages")]
    requires message.path == path + [Key("messages")] + [Index(i)]
    requires AllButContent(request.members, messages.items, message.members, j, i, path, nodes - {message})
    requires request.members["messages"] == ArrayRef(messages) && messages.items[i] == ObjectRef(message)
    requires Represents(message.members["content"], content,
               path + [Key("messages")] + [Index(i)] + [Key("content")], nodes - {message})
    ensures var before := j.members["messages"].items[i];
            Represents(ObjectRef(request), WithMessage(j, i, Object(before.members["content" := content])), path, nodes)
  {
    var all := j.members["messages"].items;
    var at := path + [Key("messages")];
    var changed := Object(all[i].members["content" := content]);
    forall k | k in changed.members
      ensures Represents(message.members[k], changed.members[k], at + [Index(i)] + [Key(k)], nodes)
    {
      MoreNodes(message.members[k], changed.members[k], at + [Index(i)] + [Key(k)], nodes - {message}, nodes);
    }
    forall m | 0 <= m < |all| && m != i
      ensures Represents(messages.items[m], all[m], at + [Index(m)], nodes)
    {
      MoreNodes(messages.items[m], all[m], at + [Index(m)], nodes - {message}, nodes);
    }
    assert Represents(ObjectRef(message), changed, at + [Index(i)], nodes);
    assert Represents(ArrayRef(messages), Array(all[i := changed]), at, nodes);
    forall k | k in request.members && k != "messages"
      ensures Represents(request.members[k], j.members[k], path + [Key(k)], nodes)
    {
      MoreNodes(request.members[k], j.members[k], path + [Key(k)], nodes - {message}, nodes);
    }
  }

  /** `replaceImageContentPayload`: rewrites the request itself. It succeeds exactly when there
      was an image to replace, and otherwise leaves the request as it was. */
  method ReplaceImageContentPayload(
      fold: Fold, request: JsonObject, text: string,
      ghost j: Json, ghost path: Path, ghost nodes: set<object>)
    returns (ok: bool, ghost used: set<object>)
    requires Represents(ObjectRef(request), j, path, nodes)
    modifies nodes
    ensures ok == HasImages(fold, j)
    ensures nodes <= used && fresh(used - nodes)
    ensures Represents(ObjectRef(request), Described(fold, j, text), path, used)
  {
    ok, used := false, nodes;
    if "messages" !in request.members {
      return;
    }
    var messages := request.members["messages"];
    assert Represents(messages, j.members["messages"], path + [Key("messages")], nodes);
    if !messages.ArrayRef? {
      return;
    }
    ok, used := RewriteMessages(fold, request, text, |messages.arr.items|, j, path, nodes);
  }

  method RewriteMessages(
      fold: Fold, request: JsonObject, text: string, count: nat,
      ghost j: Json, ghost path: Path, ghost nodes: set<object>)
    returns (replaced: bool, ghost used: set<object>)
    requires Represents(ObjectRef(request), j, path, nodes)
    requires IsChat(j) && count == |j.members["messages"].items|
    modifies nodes
    ensures replaced == AnyMessage(fold, j.members["messages"].items)
    ensures nodes <= used && fresh(used - nodes)
    ensures Represents(ObjectRef(request), Described(fold, j, text), path, used)
  {
    hide Represents, MessageHasImage, AnyMessage, DescribedMessage, Partly, Described;
    ghost var all := j.members["messages"].items;
    replaced, used := false, nodes;
    PartlyEnds(fold, j, text);
    AnyMessageBefore(fold, all, 0);
    var i := 0;
    while i < count
      invariant 0 <= i <= count
      invariant nodes <= used && fresh(used - nodes)
      invariant replaced == AnyMessage(fold, all[..i])
      invariant Represents(ObjectRef(request), Partly(fold, j, text, i), path, used)
    {
      PartlyNext(fold, j, text, i);
      AnyMessageBefore(fold, all, i + 1);
      var found, now := ReplaceInMessage(fold, request, text, Partly(fold, j, text, i), i, path, used);
      replaced, used := replaced || found, now;
      i := i + 1;
    }
    assert all[..count] == all;
  }

  /** One turn of its loop. */
  method ReplaceInMessage(
      fold: Fold, request: JsonObject, text: string,
      ghost j: Json, i: nat, ghost path: Path, ghost nodes: set<object>)
    returns (found: bool, ghost used: set<object>)
    requires Represents(ObjectRef(request), j, path, nodes)
    requires IsChat(j) && i < |j.members["messages"].items|
    modifies nodes
    ensures var message := j.members["messages"].items[i];
            && found == MessageHasImage(fold, message)
            && Represents(ObjectRef(request), WithMessage(j, i, DescribedMessage(fold, message, text)), path, used)
    ensures nodes <= used && fresh(used - nodes)
  {
    hide Represents, AllButContent, ContainsImage, DescribedContent, WithMessage;
    ghost var before := j.members["messages"].items[i];
    SameMessage(j, i);
    MessageAt(request, j, i, path, nodes);
    var messages := request.members["messages"].arr;
    found, used := false, nodes;
    if !messages.items[i].ObjectRef? {
      return;
    }
    var message := messages.items[i].obj;
    if "content" !in message.members {
      return;
    }
    TakeApart(request, messages, message, j, i, path, nodes);
    ghost var rest := nodes - {message};
    ghost var here := path + [Key("messages")] + [Index(i)] + [Key("content")];
    ghost var described := DescribedContent(fold, before.members["content"], text);
    var rewritten, image, own := ReplaceImageContentValue(
      fold, message.members["content"], text, before.members["content"], here, rest);
    if !image {
      return;
    }
    found, used := true, own + {message};
    assert used - {message} == own;
    AroundContent(request.members, messages.items, message.members, rewritten, j, i, path, rest, own);
    message.members := message.members["content" := rewritten];
    PutTogether(request, messages, message, j, i, described, path, used);
  }

  /** What the request holds as message i. */
  lemma MessageAt(request: JsonObject, j: Json, i: nat, path: Path, nodes: set<object>)
    requires Represents(ObjectRef(request), j, path, nodes)
    requires IsChat(j) && i < |j.members["messages"].items|
    ensures request in nodes && request.path == path
    ensures "messages" in request.members && request.members["messages"].ArrayRef?
    ensures var messages := request.members["messages"].arr;
            var message := j.members["messages"].items[i];
            && messages in nodes && messages.path == path + [Key("messages")]
            && i < |messages.items| && (messages.items[i].ObjectRef? <==> message.Object?)
            && (message.Object? ==> messages.items[i].obj.members.Keys == message.members.Keys)
  {
    var messages := request.members["messages"];
    var at := path + [Key("messages")];
    assert Represents(messages, j.members["messages"], at, nodes);
    assert Represents(messages.arr.items[i], j.members["messages"].items[i], at + [Index(i)], nodes);
  }

  lemma SameMessage(j: Json, i: nat)
    requires IsChat(j) && i < |j.members["messages"].items|
    ensures WithMessage(j, i, j.members["messages"].items[i]) == j
  {
    var messages := j.members["messages"].items;
    assert messages[i := messages[i]] == messages;
  }

  /** More nodes and a new content do not disturb the rest. */
  lemma AroundContent(
      request: map<string, Value>, messages: seq<Value>, message: map<string, Value>, content: Value,
      j: Json, i: nat, path: Path, nodes: set<object>, more: set<object>)
    requires IsChat(j) && i < |j.members["messages"].items| && j.members["messages"].items[i].Object?
    requires AllButContent(request, messages, message, j, i, path, nodes) && nodes <= more
    requires "content" in message
    ensures AllButContent(request, messages, message["content" := content], j, i, path, more)
  {
    var all := j.members["messages"].items;
    var at := path + [Key("messages")];
    forall k | k in request && k != "messages"
      ensures Represents(request[k], j.members[k], path + [Key(k)], more)
    {
      MoreNodes(request[k], j.members[k], path + [Key(k)], nodes, more);
    }
    forall m | 0 <= m < |all| && m != i
      ensures Represents(messages[m], all[m], at + [Index(m)], more)
    {
      MoreNodes(messages[m], all[m], at + [Index(m)], nodes, more);
    }
    forall k | k in message && k != "content"
      ensures Represents(message[k], all[i].members[k], at + [Index(i)] + [Key(k)], more)
    {
      MoreNodes(message[k], all[i].members[k], at + [Index(i)] + [Key(k)], nodes, more);
    }
  }

  // ------------------------------------------------------------------------------------
  // The attempts of one request.
  // ------------------------------------------------------------------------------------

  /** What one attempt forwards: a clone of the request with its images described. The
      request itself, which later attempts start from, keeps its images. */
  method BodyForAttempt(
      fold: Fold, request: Value, text: string,
      ghost j: Json, ghost path: Path, ghost nodes: set<object>)
    returns (ok: bool, body: Value, ghost used: set<object>)
    requires Represents(request, j, path, nodes)
    ensures Represents(request, j, path, nodes)
    ensures ok == HasImages(fold, j) && fresh(used)
    ensures Represents(body, Described(fold, j, text), path, used)
  {
    assert j.Object? <==> request.ObjectRef?;
    hide Represents, Described, HasImages, AnyMessage;
    if !j.Object? {
      ScalarsAreNotChats(fold, j, text);
    }
    body, used := Clone(request, j, path, nodes);
    if !request.ObjectRef? {
      return false, body, used;
    }
    ObjectsAreObjects(body, j, path, used);
    ok, used := ReplaceImageContentPayload(fold, body.obj, text, j, path, used);
  }

  lemma ObjectsAreObjects(v: Value, j: Json, path: Path, nodes: set<object>)
    requires Represents(v, j, path, nodes) && j.Object?
    ensures v.ObjectRef?
  {
  }

  lemma ScalarsAreNotChats(fold: Fold, j: Json, text: string)
    requires !j.Object?
    ensures !HasImages(fold, j) && Described(fold, j, text) == j
  {
  }

  /** Each attempt describes the images afresh, whatever the attempts before it did. */
  method BodiesForAttempts(
      fold: Fold, request: Value, texts: seq<string>,
      ghost j: Json, ghost path: Path, ghost nodes: set<object>)
    returns (bodies: seq<Value>, ghost used: seq<set<object>>)
    requires Represents(request, j, path, nodes)
    ensures |bodies| == |used| == |texts|
    ensures forall i | 0 <= i < |texts| :: Represents(bodies[i], Described(fold, j, texts[i]), path, used[i])
  {
    hide Represents, Described, HasImages;
    bodies, used := [], [];
    while |bodies| < |texts|
      invariant |bodies| == |used| <= |texts|
      invariant forall i | 0 <= i < |bodies| :: Represents(bodies[i], Described(fold, j, texts[i]), path, used[i])
    {
      var ok, body, own := BodyForAttempt(fold, request, texts[|bodies|], j, path, nodes);
      bodies, used := bodies + [body], used + [own];
    }
  }
}
