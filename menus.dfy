/**
 * Menus. A static menu has content, an ordered item list, an optional default
 * action and aliases; a custom menu forwards everything to a handler.
 */
module Menus {
  import opened Wrappers
  import opened Formatting
  import opened Errors
  import opened Keyboards
  import opened Contents
  import opened Responses
  import opened Actions
  import opened ItemContents
  import opened Items

  /** One element of what a menu's `select` yields, as the manager reads it:
      a Message or Response, an exception raised while producing it, or
      anything else (which the manager skips). */
  datatype Yielded = Produced(result: ActionResult) | Raised(error: Error) | Ignored

  function Lift(outcome: Result<ActionResult, Error>): Yielded {
    if outcome.Success? then Produced(outcome.value) else Raised(outcome.error)
  }

  function LiftAll(outcomes: seq<Result<ActionResult, Error>>): (r: seq<Yielded>)
    ensures |r| == |outcomes|
    ensures forall i :: 0 <= i < |r| ==> r[i] == Lift(outcomes[i])
  {
    seq(|outcomes|, i requires 0 <= i < |outcomes| => Lift(outcomes[i]))
  }

  /** `item.name == action and item.is_available(payload)`. */
  predicate Matches(item: MenuItem, action: string, payload: Option<Payload>) {
    item.Name() == Some(action) && item.IsAvailable(payload)
  }

  /** The position of the first matching item, in declared order. */
  function FirstMatch(items: seq<MenuItem>, action: string, payload: Option<Payload>): (r: Option<nat>)
    ensures r.Some? ==> r.value < |items| && Matches(items[r.value], action, payload)
    ensures r.Some? ==> forall j :: 0 <= j < r.value ==> !Matches(items[j], action, payload)
    ensures r.None? ==> forall j :: 0 <= j < |items| ==> !Matches(items[j], action, payload)
    decreases |items|
  {
    if items == [] then None
    else if Matches(items[0], action, payload) then Some(0)
    else
      match FirstMatch(items[1..], action, payload)
      case None => None
      case Some(k) => Some(k + 1)
  }

  /** Adds one item to the keyboard being built, if it is available:
      a button for an item, a new line for a line break. */
  function Place(lines: Lines, item: MenuItem, payload: Payload): (r: Result<Lines, Error>)
    ensures r.Failure? <==> ShowsButton(item, payload) && Format(item.content.text, payload).Failure?
    ensures r.Failure? ==> r.error == FormatFailed(Format(item.content.text, payload).error)
    ensures r.Success? && ShowsBreak(item, payload) ==> r.value == WithLine(lines)
    ensures r.Success? && ShowsButton(item, payload)
         ==> r.value == WithButton(lines, KeyboardButton(item.name, Format(item.content.text, payload).value, item.content.color))
    ensures r.Success? && !ShowsButton(item, payload) && !ShowsBreak(item, payload) ==> r.value == lines
  {
    if !item.IsAvailable(Some(payload)) then Success(lines)
    else
      match item.GetContent()
      case LineBreakContent => Success(WithLine(lines))
      case ButtonContent(text, color, name) =>
        var f := Format(text, payload);
        if f.Failure? then Failure(FormatFailed(f.error))
        else Success(WithButton(lines, KeyboardButton(name, f.value, color)))
  }

  /** The keyboard `get_message` builds from the items, in order. */
  function KeyboardFor(items: seq<MenuItem>, payload: Payload): (r: Result<Lines, Error>)
    ensures r.Failure? ==> r.error.FormatFailed?
    ensures items == [] ==> r == Success([])
    decreases |items|
  {
    if items == [] then Success([])
    else
      var lines :- KeyboardFor(items[..|items| - 1], payload);
      Place(lines, items[|items| - 1], payload)
  }

  /** Building one more item onto a built prefix places that item. */
  lemma KeyboardForStep(items: seq<MenuItem>, i: nat, payload: Payload)
    requires i < |items| && KeyboardFor(items[..i], payload).Success?
    ensures KeyboardFor(items[..i + 1], payload) == Place(KeyboardFor(items[..i], payload).value, items[i], payload)
  {
    var ys := items[..i + 1];
    assert ys[..|ys| - 1] == items[..i] && ys[|ys| - 1] == items[i];
  }

  // ---- An independent description of the keyboard's buttons and lines ----

  predicate ShowsButton(item: MenuItem, payload: Payload) {
    !item.LineBreakItem? && item.IsAvailable(Some(payload))
  }

  predicate ShowsBreak(item: MenuItem, payload: Payload) {
    item.LineBreakItem? && item.IsAvailable(Some(payload))
  }

  /** The button an available item shows: its name as payload, its text formatted. */
  function ButtonOf(item: MenuItem, payload: Payload): seq<KeyboardButton> {
    if ShowsButton(item, payload) then
      var f := Format(item.content.text, payload);
      [KeyboardButton(item.name, if f.Success? then f.value else item.content.text, item.content.color)]
    else []
  }

  /** The buttons of the available items, in declared order. */
  function Buttons(items: seq<MenuItem>, payload: Payload): seq<KeyboardButton>
    decreases |items|
  {
    if items == [] then [] else ButtonOf(items[0], payload) + Buttons(items[1..], payload)
  }

  /** How many available line breaks there are. */
  function Breaks(items: seq<MenuItem>, payload: Payload): nat
    decreases |items|
  {
    if items == [] then 0 else (if ShowsBreak(items[0], payload) then 1 else 0) + Breaks(items[1..], payload)
  }

  /** Whether an available button comes before the first available line break. */
  predicate OpensLine(items: seq<MenuItem>, payload: Payload)
    decreases |items|
  {
    items != [] &&
    if ShowsButton(items[0], payload) then true
    else if ShowsBreak(items[0], payload) then false
    else OpensLine(items[1..], payload)
  }

  /** Whether every available button's text formats. */
  predicate FormatsAll(items: seq<MenuItem>, payload: Payload) {
    forall k :: 0 <= k < |items| && ShowsButton(items[k], payload) ==> Format(items[k].content.text, payload).Success?
  }

  lemma AppendOne(items: seq<MenuItem>, x: MenuItem, payload: Payload)
    ensures Buttons(items + [x], payload) == Buttons(items, payload) + ButtonOf(x, payload)
    ensures Breaks(items + [x], payload) == Breaks(items, payload) + (if ShowsBreak(x, payload) then 1 else 0)
    ensures OpensLine(items + [x], payload) == (OpensLine(items, payload) || (Breaks(items, payload) == 0 && ShowsButton(x, payload)))
  {
    AppendButtons(items, x, payload);
    AppendBreaks(items, x, payload);
    AppendOpensLine(items, x, payload);
  }

  lemma {:induction false} AppendButtons(items: seq<MenuItem>, x: MenuItem, payload: Payload)
    ensures Buttons(items + [x], payload) == Buttons(items, payload) + ButtonOf(x, payload)
    decreases |items|
  {
    if items == [] {
      assert items + [x] == [x] && [x][1..] == [];
    } else {
      var ys := items + [x];
      assert ys[0] == items[0] && ys[1..] == items[1..] + [x];
      AppendButtons(items[1..], x, payload);
      assert ButtonOf(items[0], payload) + (Buttons(items[1..], payload) + ButtonOf(x, payload))
          == ButtonOf(items[0], payload) + Buttons(items[1..], payload) + ButtonOf(x, payload);
    }
  }

  lemma {:induction false} AppendBreaks(items: seq<MenuItem>, x: MenuItem, payload: Payload)
    ensures Breaks(items + [x], payload) == Breaks(items, payload) + (if ShowsBreak(x, payload) then 1 else 0)
    decreases |items|
  {
    if items == [] {
      assert items + [x] == [x] && [x][1..] == [];
    } else {
      var ys := items + [x];
      assert ys[0] == items[0] && ys[1..] == items[1..] + [x];
      AppendBreaks(items[1..], x, payload);
    }
  }

  lemma {:induction false} AppendOpensLine(items: seq<MenuItem>, x: MenuItem, payload: Payload)
    ensures OpensLine(items + [x], payload) == (OpensLine(items, payload) || (Breaks(items, payload) == 0 && ShowsButton(x, payload)))
    decreases |items|
  {
    if items == [] {
      assert items + [x] == [x] && [x][1..] == [];
    } else {
      var ys := items + [x];
      assert ys[0] == items[0] && ys[1..] == items[1..] + [x];
      AppendOpensLine(items[1..], x, payload);
    }
  }

  /** Keyboard building fails exactly when some available button's text does not format. */
  lemma {:induction false} KeyboardFailsOnlyOnFormat(items: seq<MenuItem>, payload: Payload)
    ensures KeyboardFor(items, payload).Success? <==> FormatsAll(items, payload)
    decreases |items|
  {
    if items != [] {
      var init := items[..|items| - 1];
      var last := items[|items| - 1];
      assert items == init + [last];
      KeyboardFailsOnlyOnFormat(init, payload);
      FormatsAllAppend(init, last, payload);
      var k := KeyboardFor(init, payload);
      if k.Success? {
        assert KeyboardFor(items, payload) == Place(k.value, last, payload);
      }
    }
  }

  lemma FormatsAllAppend(items: seq<MenuItem>, x: MenuItem, payload: Payload)
    ensures FormatsAll(items + [x], payload)
        <==> FormatsAll(items, payload) && (ShowsButton(x, payload) ==> Format(x.content.text, payload).Success?)
  {
    var ys := items + [x];
    assert forall k :: 0 <= k < |items| ==> ys[k] == items[k];
    assert ys[|items|] == x;
  }

  /** The keyboard's buttons, read line after line, are the available items' buttons in declared order. */
  lemma {:induction false} ButtonsInDeclaredOrder(items: seq<MenuItem>, payload: Payload)
    requires KeyboardFor(items, payload).Success?
    ensures Flatten(KeyboardFor(items, payload).value) == Buttons(items, payload)
    decreases |items|
  {
    if items != [] {
      var init := items[..|items| - 1];
      var last := items[|items| - 1];
      assert items == init + [last];
      ButtonsInDeclaredOrder(init, payload);
      AppendOne(init, last, payload);
      var lines := KeyboardFor(init, payload).value;
      if ShowsButton(last, payload) {
        var f := Format(last.content.text, payload);
        FlattenWithButton(lines, KeyboardButton(last.name, f.value, last.content.color));
      } else if ShowsBreak(last, payload) {
        FlattenWithLine(lines);
      }
    }
  }

  /** One line per available line break, plus the first line when a button precedes every break. */
  lemma {:induction false} LineCount(items: seq<MenuItem>, payload: Payload)
    requires KeyboardFor(items, payload).Success?
    ensures |KeyboardFor(items, payload).value| == Breaks(items, payload) + (if OpensLine(items, payload) then 1 else 0)
    decreases |items|
  {
    if items != [] {
      var init := items[..|items| - 1];
      var last := items[|items| - 1];
      assert items == init + [last];
      LineCount(init, payload);
      AppendOne(init, last, payload);
    }
  }

  /** An available button joins the last line built so far (opening the first line
      when there is none); the lines before it are unchanged. */
  lemma ButtonJoinsLastLine(items: seq<MenuItem>, x: MenuItem, payload: Payload)
    requires KeyboardFor(items + [x], payload).Success? && ShowsButton(x, payload)
    ensures KeyboardFor(items, payload).Success?
    ensures var before := KeyboardFor(items, payload).value;
      var after := KeyboardFor(items + [x], payload).value;
      var b := KeyboardButton(x.name, Format(x.content.text, payload).value, x.content.color);
      && |after| == (if before == [] then 1 else |before|)
      && after[|after| - 1] == (if before == [] then [] else before[|before| - 1]) + [b]
      && forall k :: 0 <= k < |before| - 1 ==> after[k] == before[k]
  {
    var ys := items + [x];
    assert ys[..|ys| - 1] == items && ys[|ys| - 1] == x;
  }

  /** A line break between two buttons puts them on separate lines: `[A, break, B]`
      gives the lines `[[A], [B]]`. */
  lemma BreakSeparatesButtons(a: MenuItem, b: MenuItem, payload: Payload)
    requires a.Item? && b.Item?
    requires Plain(a.content.text) && Plain(b.content.text)
    ensures KeyboardFor([a, LineBreakItem, b], payload)
         == Success([[KeyboardButton(a.name, a.content.text, a.content.color)],
                     [KeyboardButton(b.name, b.content.text, b.content.color)]])
  {
    PlainFormatsToItself(a.content.text, payload);
    PlainFormatsToItself(b.content.text, payload);
    var items := [a, LineBreakItem, b];
    var bA := KeyboardButton(a.name, a.content.text, a.content.color);
    var bB := KeyboardButton(b.name, b.content.text, b.content.color);
    var none: seq<KeyboardButton> := [];
    assert [a][..0] == [];
    assert KeyboardFor([a], payload) == Success([[bA]]);
    var one: Lines := [[bA]];
    var two := WithLine(one);
    assert two == [[bA], none];
    assert [a, LineBreakItem][..1] == [a];
    assert KeyboardFor([a, LineBreakItem], payload) == Success(two);
    assert items[..2] == [a, LineBreakItem];
    var three := WithButton(two, bB);
    assert three[1] == none + [bB] == [bB];
    assert three == [[bA], [bB]];
  }

  /** Once the keyboard of a prefix fails, so does the whole keyboard, with the same error. */
  lemma {:induction false} PrefixFailureStays(items: seq<MenuItem>, i: nat, payload: Payload)
    requires i <= |items|
    requires KeyboardFor(items[..i], payload).Failure?
    ensures KeyboardFor(items, payload) == KeyboardFor(items[..i], payload)
    decreases |items| - i
  {
    if i < |items| {
      assert items[..i + 1][..i] == items[..i];
      PrefixFailureStays(items, i + 1, payload);
    } else {
      assert items[..i] == items;
    }
  }

  /** `CustomMenu.select`: a sequence is taken as it is, anything else becomes a one-element sequence. */
  datatype HandlerResult = Many(results: seq<Yielded>) | Single(result: Yielded)

  /** The handler object of a custom menu, as three opaque functions. */
  datatype Handler = Handler(
    select: (string, Option<Payload>) -> HandlerResult,
    getMessage: Option<Payload> -> Option<Message>,
    enter: Option<Payload> -> Option<Message>)

  function Normalise(r: HandlerResult): (s: seq<Yielded>)
    ensures r.Single? ==> s == [r.result]
    ensures r.Many? ==> s == r.results
  {
    if r.Single? then [r.result] else r.results
  }

  class Menu {
    const content: Content
    var items: seq<MenuItem>
    /** False when the items were given as an immutable sequence (a tuple). */
    const mutableItems: bool
    const defaultAction: Option<Action>
    const aliases: seq<string>

    /** No items means a new, mutable, empty list; no aliases means none. */
    constructor (content: Content, items: Option<seq<MenuItem>>, givenAsList: bool,
                 defaultAction: Option<Action>, aliases: Option<seq<string>>)
      ensures this.content == content
      ensures this.items == (if items.Some? then items.value else [])
      ensures mutableItems == (items.None? || givenAsList)
      ensures this.defaultAction == defaultAction
      ensures this.aliases == (if aliases.Some? then aliases.value else [])
    {
      this.content := content;
      this.items := if items.Some? then items.value else [];
      this.mutableItems := items.None? || givenAsList;
      this.defaultAction := defaultAction;
      this.aliases := if aliases.Some? then aliases.value else [];
    }

    /** `Menu.select`: the first matching item's outcomes, else the default action's
        single outcome, else no match (None). */
    function Select(action: string, payload: Option<Payload>): (r: Option<seq<Yielded>>)
      reads this
      ensures r.None? <==> defaultAction.None? && forall j :: 0 <= j < |items| ==> !Matches(items[j], action, payload)
      ensures forall k ::
                (0 <= k < |items| && Matches(items[k], action, payload)
                 && (forall j :: 0 <= j < k ==> !Matches(items[j], action, payload)))
                ==> r == Some(LiftAll(items[k].OnSelect(payload)))
      ensures (defaultAction.Some? && forall j :: 0 <= j < |items| ==> !Matches(items[j], action, payload))
                ==> r == Some([Lift(defaultAction.value.Process(payload))])
    {
      match FirstMatch(items, action, payload)
      case Some(k) => Some(LiftAll(items[k].OnSelect(payload)))
      case None =>
        if defaultAction.Some? then Some([Lift(defaultAction.value.Process(payload))]) else None
    }

    /** The message `get_message` returns: the menu content, the keyboard of the
        available items, and the payload ({} for None). */
    function Render(payload: Option<Payload>): Result<Message, Error>
      reads this
    {
      var p := OrEmpty(payload);
      var lines :- KeyboardFor(items, p);
      Success(Message(Some(content), Some(lines), p))
    }

    method GetMessage(payload: Option<Payload>) returns (r: Result<Message, Error>)
      ensures r == Render(payload)
      ensures r.Success? ==> r.value.content == Some(content) && r.value.payload == OrEmpty(payload)
    {
      var p := OrEmpty(payload);
      var keyboard := new Keyboard(None);
      var i := 0;
      while i < |items|
        invariant 0 <= i <= |items|
        invariant KeyboardFor(items[..i], p) == Success(keyboard.lines)
      {
        var item := items[i];
        KeyboardForStep(items, i, p);
        if item.IsAvailable(Some(p)) {
          var kwargs := item.GetContent();
          if kwargs.Type() == "button" {
            var f := Format(kwargs.text, p);
            if f.Failure? {
              PrefixFailureStays(items, i + 1, p);
              return Failure(FormatFailed(f.error));
            }
            keyboard.AddButton(KeyboardButton(kwargs.payload, f.value, kwargs.color));
          } else if kwargs.Type() == "line_break" {
            keyboard.AddLine();
          }
        }
        i := i + 1;
      }
      assert items[..i] == items;
      r := Success(Message(Some(content), Some(keyboard.lines), p));
    }

    /** `add_item`: appends to a mutable item list; an immutable one is left as it is. */
    method AddItem(item: MenuItem) returns (r: Result<(), Error>)
      modifies this
      ensures mutableItems ==> r.Success? && items == old(items) + [item]
      ensures !mutableItems ==> r == Failure(ImmutableItemList) && items == old(items)
    {
      if !mutableItems {
        return Failure(ImmutableItemList);
      }
      items := items + [item];
      r := Success(());
    }
  }

  /** Selecting an item whose one action is a MessageAction yields exactly that
      action's message, with the action's text as content and the request payload. */
  lemma MessageItemSelect(m: Menu, action: string, payload: Option<Payload>, i: nat, text: string)
    requires i < |m.items| && Matches(m.items[i], action, payload)
    requires forall j :: 0 <= j < i ==> !Matches(m.items[j], action, payload)
    requires m.items[i].ActionSeq() == [MessageAction(text)]
    ensures m.Select(action, payload) == Some([Produced(MessageResult(Message(Some(Content(Some(text))), None, OrEmpty(payload))))])
  {
    var ys := LiftAll(m.items[i].OnSelect(payload));
    assert |ys| == 1 && ys[0] == Lift(MessageAction(text).Process(payload));
    assert m.Select(action, payload) == Some(ys);
    var msg := Message(Some(Content(Some(text))), None, OrEmpty(payload));
    assert MessageAction(text).Process(payload) == Success(MessageResult(msg));
    assert ys == [Produced(MessageResult(msg))];
  }

  /** The menu's message carries the request payload ({} for None), and its text is
      the menu's text formatted with that payload. */
  lemma MenuTextIsFormatted(m: Menu, payload: Option<Payload>, t: string)
    requires m.content == Content(Some(t))
    requires m.Render(payload).Success?
    ensures m.Render(payload).value.payload == OrEmpty(payload)
    ensures m.Render(payload).value.Text()
         == (var f := Format(t, OrEmpty(payload)); if f.Success? then Success(Some(f.value)) else Failure(FormatFailed(f.error)))
  {
    TextIsFormattedContent(t, m.Render(payload).value.keyboard, OrEmpty(payload));
  }

  /** A registry entry: a static menu or a custom menu with its handler. */
  datatype BaseMenu = StaticMenu(menu: Menu) | CustomMenu(handler: Handler, customAliases: seq<string>) {

    ghost function Repr(): set<object> {
      if StaticMenu? then {menu} else {}
    }

    function Aliases(): seq<string> {
      if StaticMenu? then menu.aliases else customAliases
    }

    /** No match (None) is only possible for a static menu. */
    function Select(action: string, payload: Option<Payload>): (r: Option<seq<Yielded>>)
      reads Repr()
      ensures CustomMenu? ==> r == Some(Normalise(handler.select(action, payload)))
    {
      if StaticMenu? then menu.Select(action, payload) else Some(Normalise(handler.select(action, payload)))
    }

    /** `enter`: nothing for a static menu, the handler's answer for a custom one. */
    function Enter(payload: Option<Payload>): (r: Option<Message>)
      ensures StaticMenu? ==> r.None?
    {
      if StaticMenu? then None else handler.enter(payload)
    }

    function Rendered(payload: Option<Payload>): Result<Option<Message>, Error>
      reads Repr()
    {
      if StaticMenu? then
        var m :- menu.Render(payload);
        Success(Some(m))
      else Success(handler.getMessage(payload))
    }

    method GetMessage(payload: Option<Payload>) returns (r: Result<Option<Message>, Error>)
      ensures r == Rendered(payload)
    {
      if StaticMenu? {
        var m := menu.GetMessage(payload);
        if m.Failure? {
          return Failure(m.error);
        }
        r := Success(Some(m.value));
      } else {
        r := Success(handler.getMessage(payload));
      }
    }
  }
}
