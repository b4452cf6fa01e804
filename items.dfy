/** Menu items: selectable buttons, line breaks, and buttons shown only when a predicate holds. */
module Items {
  import opened Wrappers
  import opened Formatting
  import opened Errors
  import opened Responses
  import opened Actions
  import opened ItemContents

  /** An item's `action`: none, one action, or a sequence of actions. */
  datatype ItemAction = NoAction | OneAction(action: Action) | ActionList(actions: seq<Action>)

  datatype MenuItem =
    | Item(name: string, content: ItemContent, action: ItemAction := NoAction)
    | LineBreakItem
    | ConditionalItem(name: string, content: ItemContent, action: ItemAction, condition: Option<Payload> -> bool)
  {
    /** The item's name; a line break has none. */
    function Name(): (r: Option<string>)
      ensures r.None? <==> LineBreakItem?
      ensures !LineBreakItem? ==> r == Some(name)
    {
      if LineBreakItem? then None else Some(name)
    }

    /** The actions selecting the item runs, in declaration order. */
    function ActionSeq(): seq<Action> {
      if LineBreakItem? then []
      else match action
        case NoAction => []
        case OneAction(a) => [a]
        case ActionList(actions) => actions
    }

    /** Plain items and line breaks are always available; a conditional item when its predicate holds. */
    function IsAvailable(payload: Option<Payload>): (r: bool)
      ensures !ConditionalItem? ==> r
      ensures ConditionalItem? ==> r == condition(payload)
    {
      if ConditionalItem? then condition(payload) else true
    }

    /** One outcome per action, in declaration order: `action.process(payload)`. */
    function OnSelect(payload: Option<Payload>): (r: seq<Result<ActionResult, Error>>)
      ensures |r| == |ActionSeq()|
      ensures forall i :: 0 <= i < |r| ==> r[i] == ActionSeq()[i].Process(payload)
    {
      if LineBreakItem? then []
      else match action
        case NoAction => []
        case OneAction(a) => [a.Process(payload)]
        case ActionList(actions) => seq(|actions|, i requires 0 <= i < |actions| => actions[i].Process(payload))
    }

    /** A button whose payload is the item name, or a line break. */
    function GetContent(): (r: RenderedItem)
      ensures LineBreakItem? ==> r.Type() == "line_break"
      ensures !LineBreakItem? ==> r.Type() == "button" && r.text == content.text && r.color == content.color
      ensures !LineBreakItem? ==> Some(r.payload) == Name()
    {
      if LineBreakItem? then LineBreakContent else content.GetContent(name)
    }
  }

  /** An item without an action yields nothing; with one action, exactly that action's outcome. */
  lemma OnSelectShapes(item: MenuItem, payload: Option<Payload>)
    ensures item.LineBreakItem? || item.action.NoAction? ==> item.OnSelect(payload) == []
    ensures !item.LineBreakItem? && item.action.OneAction? ==> item.OnSelect(payload) == [item.action.action.Process(payload)]
  {
  }
}
