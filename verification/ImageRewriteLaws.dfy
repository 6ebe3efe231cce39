/** What describing the images of a request does to it, and what it leaves alone. */
module ImageRewriteLaws {

  import opened JsonTree
  import opened ImageRewrite

  /** A part that is an image: by its kind, or by carrying an image address. */
  predicate Depicts(fold: Fold, part: Json) {
    && part.Object?
    && (|| "image_url" in part.members
        || (&& "type" in part.members && part.members["type"].Text?
            && fold(part.members["type"].text) in {"image_url", "input_image", "image"}))
  }

  /** A request with an image: some message's content is one, or is a list with one. */
  lemma ImagesAreThese(fold: Fold, request: Json)
    ensures HasImages(fold, request) <==>
            && request.Object? && "messages" in request.members && request.members["messages"].Array?
            && var messages := request.members["messages"].items;
               exists i :: && 0 <= i < |messages| && messages[i].Object? && "content" in messages[i].members
                           && var content := messages[i].members["content"];
                              || Depicts(fold, content)
                              || (&& content.Array?
                                  && exists k :: 0 <= k < |content.items| && Depicts(fold, content.items[k]))
  {
    forall part
      ensures IsImage(fold, part) <==> Depicts(fold, part)
    {
    }
    hide IsImage, Depicts;
  }

  /** A description is no image, provided that `text` does not fold to an image kind. */
  lemma DescriptionIsText(fold: Fold, text: string)
    ensures IsImage(fold, Description(text)) <==> fold("text") in {"image_url", "input_image", "image"}
  {
    var part := Description(text);
    assert part.members["type"] == Text("text");
  }

  lemma PartsAfter(fold: Fold, parts: seq<Json>, text: string)
    ensures AnyImage(fold, DescribedParts(fold, parts, text)) <==>
            AnyImage(fold, parts) && fold("text") in {"image_url", "input_image", "image"}
  {
    DescriptionIsText(fold, text);
    hide IsImage, Description;
    var described := DescribedParts(fold, parts, text);
    hide DescribedParts;
    if AnyImage(fold, parts) && fold("text") in {"image_url", "input_image", "image"} {
      var i :| 0 <= i < |parts| && IsImage(fold, parts[i]);
      assert IsImage(fold, described[i]);
    }
    if AnyImage(fold, described) {
      var i :| 0 <= i < |described| && IsImage(fold, described[i]);
      assert IsImage(fold, parts[i]);
    }
  }

  lemma ContentAfter(fold: Fold, content: Json, text: string)
    ensures ContainsImage(fold, DescribedContent(fold, content, text)) <==>
            ContainsImage(fold, content) && fold("text") in {"image_url", "input_image", "image"}
  {
    DescriptionIsText(fold, text);
    ImagesAreObjects(fold, content);
    if content.Array? {
      ImagesAreObjects(fold, DescribedContent(fold, content, text));
      PartsAfter(fold, content.items, text);
    }
    hide IsImage, AnyImage, DescribedParts;
  }

  lemma MessageAfter(fold: Fold, message: Json, text: string)
    ensures MessageHasImage(fold, DescribedMessage(fold, message, text)) <==>
            MessageHasImage(fold, message) && fold("text") in {"image_url", "input_image", "image"}
  {
    hide ContainsImage, DescribedContent;
    if MessageHasImage(fold, message) {
      ContentAfter(fold, message.members["content"], text);
    }
  }

  /** After rewriting no image is left, exactly because the word `text` is no image kind. */
  lemma NoImageIsLeft(fold: Fold, request: Json, text: string)
    ensures HasImages(fold, Described(fold, request, text)) <==>
            HasImages(fold, request) && fold("text") in {"image_url", "input_image", "image"}
  {
    hide MessageHasImage, DescribedMessage;
    if IsChat(request) {
      var messages := request.members["messages"].items;
      var described := DescribedMessages(fold, messages, text);
      forall i | 0 <= i < |messages|
        ensures MessageHasImage(fold, described[i]) <==>
                MessageHasImage(fold, messages[i]) && fold("text") in {"image_url", "input_image", "image"}
      {
        MessageAfter(fold, messages[i], text);
      }
      if AnyMessage(fold, messages) && fold("text") in {"image_url", "input_image", "image"} {
        var i :| 0 <= i < |messages| && MessageHasImage(fold, messages[i]);
        assert MessageHasImage(fold, described[i]);
      }
      if AnyMessage(fold, described) {
        var i :| 0 <= i < |described| && MessageHasImage(fold, described[i]);
        assert MessageHasImage(fold, messages[i]);
      }
    }
  }

  /** One part of a content against the part in the same place before. */
  predicate SamePart(fold: Fold, before: Json, after: Json, text: string) {
    after == if Depicts(fold, before)
             then Object(map["type" := Text("text"), "text" := Text("[\U{56fe}\U{7247}\U{5185}\U{5bb9}]\n" + text)])
             else before
  }

  predicate SameContent(fold: Fold, before: Json, after: Json, text: string) {
    if before.Array? then
      && after.Array? && |after.items| == |before.items|
      && forall k :: 0 <= k < |before.items| ==> SamePart(fold, before.items[k], after.items[k], text)
    else SamePart(fold, before, after, text)
  }

  predicate SameMessage(fold: Fold, before: Json, after: Json, text: string) {
    if before.Object? && "content" in before.members then
      && after.Object? && after.members.Keys == before.members.Keys
      && (forall k | k in before.members && k != "content" :: after.members[k] == before.members[k])
      && SameContent(fold, before.members["content"], after.members["content"], text)
    else after == before
  }

  /** The same request but for its images: same fields, same messages in the same order with
      the same fields, same number of parts, and every part that is no image in its place. */
  predicate SameButImages(fold: Fold, before: Json, after: Json, text: string) {
    if before.Object? && "messages" in before.members && before.members["messages"].Array? then
      var was := before.members["messages"].items;
      && after.Object? && "messages" in after.members && after.members["messages"].Array?
      && after.members.Keys == before.members.Keys
      && (forall k | k in before.members && k != "messages" :: after.members[k] == before.members[k])
      && var now := after.members["messages"].items;
         && |now| == |was|
         && forall i :: 0 <= i < |was| ==> SameMessage(fold, was[i], now[i], text)
    else after == before
  }

  lemma NoImageSameContent(fold: Fold, content: Json, text: string)
    requires !ContainsImage(fold, content)
    ensures SameContent(fold, content, content, text)
  {
  }

  lemma OneMessage(fold: Fold, message: Json, text: string)
    ensures SameMessage(fold, message, DescribedMessage(fold, message, text), text)
  {
    if message.Object? && "content" in message.members && !MessageHasImage(fold, message) {
      NoImageSameContent(fold, message.members["content"], text);
    }
  }

  /** Rewriting changes images only. */
  lemma OnlyImagesChange(fold: Fold, request: Json, text: string)
    ensures SameButImages(fold, request, Described(fold, request, text), text)
  {
    hide SameMessage, DescribedMessage;
    if IsChat(request) {
      var messages := request.members["messages"].items;
      forall i | 0 <= i < |messages|
        ensures SameMessage(fold, messages[i], DescribedMessages(fold, messages, text)[i], text)
      {
        OneMessage(fold, messages[i], text);
      }
    }
  }

  /** And there is only one way to do so: the rewritten request is the one it describes. */
  lemma OnlyOneRewriting(fold: Fold, request: Json, after: Json, text: string)
    requires SameButImages(fold, request, after, text)
    ensures after == Described(fold, request, text)
  {
    if IsChat(request) {
      var was, now := request.members["messages"].items, after.members["messages"].items;
      forall i | 0 <= i < |was|
        ensures now[i] == DescribedMessage(fold, was[i], text)
      {
        OneMessageOneWay(fold, was[i], now[i], text);
      }
      assert now == DescribedMessages(fold, was, text);
      assert after.members == Described(fold, request, text).members;
    }
  }

  lemma OneMessageOneWay(fold: Fold, before: Json, after: Json, text: string)
    requires SameMessage(fold, before, after, text)
    ensures after == DescribedMessage(fold, before, text)
  {
    if before.Object? && "content" in before.members {
      var was, now := before.members["content"], after.members["content"];
      if was.Array? {
        assert now.items == DescribedParts(fold, was.items, text);
      }
      assert now == DescribedContent(fold, was, text);
      if !MessageHasImage(fold, before) {
        if was.Array? {
          assert DescribedParts(fold, was.items, text) == was.items;
        }
        assert after.members == before.members;
      } else {
        assert after.members == before.members["content" := now];
      }
    }
  }
}
