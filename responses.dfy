/** Messages (content, keyboard, payload) and responses (message, menu switch, go-back count). */
module Responses {
  import opened Wrappers
  import opened Formatting
  import opened Errors
  import opened Serialized
  import opened Keyboards
  import opened Contents

  /** A content field after formatting: strings are formatted, anything else is kept. */
  function FormatField(value: Option<string>, payload: Payload): (r: Result<Option<string>, Error>)
    ensures value.None? ==> r == Success(None)
    ensures value.Some? ==> (r.Success? <==> Format(value.value, payload).Success?)
    ensures value.Some? && r.Success? ==> r.value == Some(Format(value.value, payload).value)
    ensures value.Some? && r.Failure? ==> r.error == FormatFailed(Format(value.value, payload).error)
  {
    match value
    case None => Success(None)
    case Some(s) =>
      var f := Format(s, payload);
      if f.Success? then Success(Some(f.value)) else Failure(FormatFailed(f.error))
  }

  /** `{k: format(content[k]) for k in keys}`, failing with the first field that fails. */
  function FormatFields(c: Content, keys: seq<string>, payload: Payload): (r: Result<map<string, Option<string>>, Error>)
    ensures r.Success? ==> r.value.Keys == set k | k in keys
    ensures r.Success? <==> forall k :: k in keys ==> c.Get(k).Success? && FormatField(c.Get(k).value, payload).Success?
    ensures r.Success? ==> forall k :: k in keys ==> r.value[k] == FormatField(c.Get(k).value, payload).value
    decreases |keys|
  {
    if keys == [] then Success(map[])
    else
      var v :- c.Get(keys[0]);
      var f :- FormatField(v, payload);
      var rest :- FormatFields(c, keys[1..], payload);
      Success(map[keys[0] := f] + rest)
  }

  datatype Message = Message(content: Option<Content> := None, keyboard: Option<Lines> := None, payload: Payload := map[]) {

    /** The content with every string field formatted against this message's payload. */
    function GetContent(): (r: Result<map<string, Option<string>>, Error>)
      ensures content.None? ==> r == Success(map[])
      ensures content.Some? && r.Success? ==> r.value.Keys == set k | k in Keys()
      ensures content.Some? ==> (r.Success? <==> forall k :: k in Keys() ==> FormatField(content.value.Get(k).value, payload).Success?)
      ensures content.Some? && r.Success? ==> forall k :: k in Keys() ==> r.value[k] == FormatField(content.value.Get(k).value, payload).value
    {
      if content.None? then Success(map[]) else FormatFields(content.value, Keys(), payload)
    }

    /** The rendered text: `get_content().get('text')`. */
    function Text(): (r: Result<Option<string>, Error>)
      ensures content.None? ==> r == Success(None)
      ensures r.Success? <==> GetContent().Success?
    {
      var fields :- GetContent();
      Success(if "text" in fields then fields["text"] else None)
    }

    /** The payload is replaced as a whole; content and keyboard stay. */
    function UpdatePayload(newPayload: Payload): (m: Message)
      ensures m.payload == newPayload
      ensures m.content == content && m.keyboard == keyboard
    {
      this.(payload := newPayload)
    }

    /** The content's fields when there is content; the payload only when it is not empty.
        The keyboard is never serialized. */
    function Serialize(): (r: map<string, Value>)
      ensures "content" in r <==> content.Some?
      ensures content.Some? ==> r["content"] == Obj(content.value.Serialize())
      ensures "payload" in r <==> payload != map[]
      ensures "payload" in r ==> r["payload"] == PayloadValue(payload)
      ensures r.Keys <= {"content", "payload"}
    {
      (if content.Some? then map["content" := Obj(content.value.Serialize())] else map[])
      + (if payload != map[] then map["payload" := PayloadValue(payload)] else map[])
    }
  }

  /** The text of a message with text content is that text formatted with the message's payload. */
  lemma TextIsFormattedContent(t: string, keyboard: Option<Lines>, payload: Payload)
    ensures Message(Some(Content(Some(t))), keyboard, payload).Text()
         == (var f := Format(t, payload); if f.Success? then Success(Some(f.value)) else Failure(FormatFailed(f.error)))
  {
    var m := Message(Some(Content(Some(t))), keyboard, payload);
    assert "text" in Keys();
    var r := m.GetContent();
    if r.Success? {
      assert FormatField(Some(t), payload).Success?;
    } else {
      assert r == FormatFields(Content(Some(t)), ["text"], payload);
    }
  }

  datatype Response = Response(message: Option<Message> := None, menu: Option<string> := None, goBackCount: Option<int> := None) {

    /** Forwards to the message if there is one; the menu and count never change. */
    function UpdatePayload(newPayload: Payload): (r: Response)
      ensures r.menu == menu && r.goBackCount == goBackCount
      ensures message.None? ==> r.message.None?
      ensures message.Some? ==> r.message == Some(message.value.UpdatePayload(newPayload))
    {
      if message.Some? then this.(message := Some(message.value.UpdatePayload(newPayload))) else this
    }

    /** One key per field that is not None. */
    function Serialize(): (r: map<string, Value>)
      ensures "message" in r <==> message.Some?
      ensures message.Some? ==> r["message"] == Obj(message.value.Serialize())
      ensures "menu" in r <==> menu.Some?
      ensures menu.Some? ==> r["menu"] == Str(menu.value)
      ensures "go_back_count" in r <==> goBackCount.Some?
      ensures goBackCount.Some? ==> r["go_back_count"] == Int(goBackCount.value)
      ensures r.Keys <= {"message", "menu", "go_back_count"}
    {
      (if message.Some? then map["message" := Obj(message.value.Serialize())] else map[])
      + (if menu.Some? then map["menu" := Str(menu.value)] else map[])
      + (if goBackCount.Some? then map["go_back_count" := Int(goBackCount.value)] else map[])
    }
  }

  /** What an action's `process` returns: a Message or a Response. */
  datatype ActionResult = MessageResult(message: Message) | ResponseResult(response: Response) {

    function UpdatePayload(newPayload: Payload): (r: ActionResult)
      ensures MessageResult? ==> r == MessageResult(message.UpdatePayload(newPayload))
      ensures ResponseResult? ==> r == ResponseResult(response.UpdatePayload(newPayload))
    {
      match this
      case MessageResult(m) => MessageResult(m.UpdatePayload(newPayload))
      case ResponseResult(r) => ResponseResult(r.UpdatePayload(newPayload))
    }
  }
}
