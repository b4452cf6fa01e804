/** Actions: what selecting an item does, each turning a request payload into a Message or a Response. */
module Actions {
  import opened Wrappers
  import opened Formatting
  import opened Errors
  import opened Serialized
  import opened Contents
  import opened Responses

  /** What a FunctionAction callback returns: a result of its own, or a key naming a template. */
  datatype FunctionResult = Returned(result: ActionResult) | CaseKey(key: string)

  datatype Action =
    | MessageAction(text: string)
    | SubmenuAction(menuName: string)
    | GoBackAction(count: int := 1)
    | FunctionAction(callback: Payload -> FunctionResult, templates: map<string, ActionResult> := map[])
  {
    /** `action.process(payload)`. */
    function Process(payload: Option<Payload>): (r: Result<ActionResult, Error>)
      // a message whose content is the text, carrying the request payload ({} for None)
      ensures MessageAction? ==>
                && r.Success? && r.value.MessageResult?
                && r.value.message.content == Some(Content(Some(text)))
                && r.value.message.keyboard.None?
                && r.value.message.payload == OrEmpty(payload)
      // a bare menu switch; the menu is not looked up here
      ensures SubmenuAction? ==> r == Success(ResponseResult(Response(None, Some(menuName), None)))
      // a bare go-back; the count is not checked here
      ensures GoBackAction? ==> r == Success(ResponseResult(Response(None, None, Some(count))))
      // the callback's template, or its own result, with the request payload put in
      ensures FunctionAction? && callback(OrEmpty(payload)).CaseKey? && callback(OrEmpty(payload)).key in templates
        ==> r == Success(templates[callback(OrEmpty(payload)).key].UpdatePayload(OrEmpty(payload)))
      ensures FunctionAction? && callback(OrEmpty(payload)).Returned?
        ==> r == Success(callback(OrEmpty(payload)).result.UpdatePayload(OrEmpty(payload)))
      ensures FunctionAction? && callback(OrEmpty(payload)).CaseKey? && callback(OrEmpty(payload)).key !in templates
        ==> r == Failure(UnknownActionResult)
    {
      match this
      case MessageAction(text) =>
        Success(MessageResult(Message(Some(Content(Some(text))), None, OrEmpty(payload))))
      case SubmenuAction(name) =>
        Success(ResponseResult(Response(menu := Some(name))))
      case GoBackAction(count) =>
        Success(ResponseResult(Response(goBackCount := Some(count))))
      case FunctionAction(callback, templates) =>
        var p := OrEmpty(payload);
        var res := callback(p);
        if res.CaseKey? && res.key in templates then Success(templates[res.key].UpdatePayload(p))
        else if res.Returned? then Success(res.result.UpdatePayload(p))
        else Failure(UnknownActionResult)
    }

    /** `GoBackAction.serialize`: the count only when it is not the default 1. */
    function SerializeGoBack(): (r: map<string, Value>)
      requires GoBackAction?
      ensures "count" in r <==> count != 1
      ensures "count" in r ==> r["count"] == Int(count)
      ensures r.Keys <= {"count"}
    {
      if count != 1 then map["count" := Int(count)] else map[]
    }
  }

  /** A MessageAction's message renders to the action's text formatted with the request payload. */
  lemma MessageActionText(text: string, payload: Option<Payload>)
    ensures MessageAction(text).Process(payload).Success?
    ensures MessageAction(text).Process(payload).value.message.Text()
         == (var f := Format(text, OrEmpty(payload)); if f.Success? then Success(Some(f.value)) else Failure(FormatFailed(f.error)))
  {
    TextIsFormattedContent(text, None, OrEmpty(payload));
  }

  /** A template picked by key comes back with the request payload and the template's own content. */
  lemma TemplateKeepsContent(callback: Payload -> FunctionResult, templates: map<string, ActionResult>, payload: Option<Payload>)
    requires callback(OrEmpty(payload)).CaseKey? && callback(OrEmpty(payload)).key in templates
    requires templates[callback(OrEmpty(payload)).key].MessageResult?
    ensures var r := FunctionAction(callback, templates).Process(payload);
      var t := templates[callback(OrEmpty(payload)).key].message;
      r.Success? && r.value.MessageResult?
      && r.value.message.content == t.content && r.value.message.keyboard == t.keyboard
      && r.value.message.payload == OrEmpty(payload)
  {
  }
}
