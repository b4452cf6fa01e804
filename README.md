# navmenu in Dafny

A model of the core of navmenu, a small engine for menu-driven chat bots.

- A **menu manager** holds a registry of named menus and a per-user state handler.
- On every user action it does three things:
  - it asks the user's current menu what the action means;
  - it applies the answer: messages to send, a number of steps to go back, a menu to switch to;
  - it returns the messages to send.
- A **static menu** has content, an ordered list of items, an optional default action and aliases. It renders itself as a message with a keyboard of buttons.
- A **custom menu** forwards everything to a handler.
- **Items** carry actions: a message, a submenu switch, a go-back, or a callback with response templates.
- The **memory state handler** keeps, per user, the current menu and a history stack for going back.

## How the model is laid out

There is one module per source file:

| module | file |
|---|---|
| `Keyboards` | `keyboard.py` |
| `Contents` | `contents.py` |
| `ItemContents` | `item_contents.py` |
| `Responses` | `responses.py` |
| `Actions` | `actions.py` |
| `Items` | `items.py` |
| `Menus` | `menus.py` |
| `State` | `state.py` |
| `Manager` | `menu_manager.py` |

Four supporting modules have no source file of their own:

- `Wrappers` holds `Option` and `Result`.
- `Errors` has one constructor per exception the core can raise.
- `Formatting` holds the `str.format` subset the core uses (`{key}` fields and `{{`/`}}` escapes) and `str.lower` on ASCII.
- `Serialized` holds the JSON-like values that `serialize` produces.

Objects the source updates in place are classes:

- `Keyboard` (its lines);
- `Menu` (its item list);
- `MemoryStateHandler` (its state and history maps);
- `MenuManager`.

Each mutating method is proved against a pure function on values. For example, `MemoryStateHandler.GoBack` keeps the source's loop and is proved equal to the closed form `Store.GoBack`. `MenuManager.Select` keeps the source's loop over results (`ApplyResults`) and its alias scan (`SwitchByAlias`), and is proved equal to `SelectOutcome`. The properties are proved about those functions.

A menu's `select` result in the source is a lazy generator, so an exception raised by a later action arrives after earlier results were applied. The model therefore gives a selection as a sequence of `Yielded` values: `Produced(result)`, `Raised(error)`, or `Ignored` for a value the manager skips. Exceptions become `Result` failures with an `Error` naming the cause:

| source | `Error` |
|---|---|
| `ValueError` from `go_back` | `InvalidGoBackCount` |
| `ValueError` from `select` | `InvalidAction` |
| `KeyError` on the registry | `UnknownMenu` |
| `AttributeError` from a callback result without `update_payload` | `UnknownActionResult` |
| a `str.format` failure | `FormatFailed` |
| `RuntimeError` from `add_item` | `ImmutableItemList` |
| attribute lookup on a content | `NoSuchAttribute` |

### Behaviour of the code worth noting

- **`go_back` with a count of `-1`.** In `navmenu/state.py:93-98` the code tests `count < 1` before `count == -1`, so the `-1` branch, which would set the count to 1000, is dead and `-1` raises. The model follows the code: `GoBackAction(-1)` ends in `InvalidGoBackCount`. `State.GoBackRejectsSmallCounts` states this.
- **Message content is always a `Content` value.** `responses.py` stores a content object and formats its fields. Two call sites pass something else:
  - `MessageAction.process` passes the bare text;
  - `Menu.get_message` passes the content spread into keyword arguments.

  Both shapes come from another revision of `Message`. The model gives the message `Content(text)` in both places, which is what the repository's tests expect of the message text.

## Model

| member | source | states |
|---|---|---|
| Formatting.Format | navmenu/responses.py:44 | `str.format(**payload)` on `{key}` fields and doubled braces. A missing-key error always names a key the payload lacks. Its other properties are stated by `PlainFormatsToItself`, `PlainPrefix`, `FieldIsSubstituted`, `MissingFieldFails`, `EscapedOpenBrace`, `EscapedCloseBrace`, `StrayCloseBraceFails` and `UnclosedFieldFails`. |
| Formatting.OrEmpty | navmenu/responses.py:24-25 | A missing payload becomes the empty map, a given one is kept. |
| Formatting.PlainFormatsToItself | navmenu/responses.py:43-45 | A template with no braces formats to itself, whatever the payload. |
| Formatting.FieldIsSubstituted | navmenu/menus.py:135 | A `{key}` field is replaced by the payload's value for that key; the text around it is kept. |
| Formatting.PlainPrefix | navmenu/menus.py:135 | Text without braces in front of a template is copied to the output unchanged. |
| Formatting.MissingFieldFails | navmenu/menus.py:135 | A field whose key the payload lacks is a hard error naming that key. |
| Formatting.EscapedOpenBrace | navmenu/responses.py:44 | `{{` in a template gives one `{` in the output, and the rest formats as it would alone. |
| Formatting.EscapedCloseBrace | navmenu/responses.py:44 | `}}` in a template gives one `}` in the output, and the rest formats as it would alone. |
| Formatting.StrayCloseBraceFails | navmenu/responses.py:44 | A `}` that is not doubled makes the whole format fail with an unmatched-brace error. |
| Formatting.UnclosedFieldFails | navmenu/responses.py:44 | A `{` that is neither doubled nor followed by a `}` makes the whole format fail with an unmatched-brace error. |
| Formatting.Lower | navmenu/menu_manager.py:87 | Lower-casing keeps the length and maps each character to its lower-case form. |
| Formatting.LowerHasNoCapitals | navmenu/menu_manager.py:87 | A string with an upper-case letter is never the lower-cased form of any string. |
| Serialized.PayloadValue | navmenu/responses.py:69-70 | A payload serializes to an object with the same keys, each holding that key's string. |
| Serialized.PayloadValueIsInjective | navmenu/responses.py:69-70 | Distinct payloads serialize to distinct values: each key is copied with its own value, so no two payloads share a serialized form. |
| Keyboards.WithButton | navmenu/keyboard.py:41-47 | `add_button` on no lines makes one line holding just the button. Otherwise it appends to the last line only: the line count and the earlier lines are unchanged. |
| Keyboards.WithLine | navmenu/keyboard.py:49-52 | `add_line` appends one empty line, even after an empty line; existing lines are unchanged. |
| Keyboards.FlattenWithButton | navmenu/keyboard.py:47 | Read line after line, the buttons gain exactly the new button at the end. |
| Keyboards.FlattenWithLine | navmenu/keyboard.py:52 | Adding a line leaves the buttons read line after line unchanged. |
| Keyboards.ReplayKeepsButtons | navmenu/keyboard.py:41-52 | After any sequence of `add_button`/`add_line` calls, the buttons read line after line are the old ones followed by the added buttons in call order. So the button count is the number of `add_button` calls. |
| Keyboards.TwoLinesExample | tests/test_keyboard.py:4-14 | Two buttons, a new line, then one button give two lines of two and one buttons. |
| Keyboards.Keyboard.constructor | navmenu/keyboard.py:32-36 | A keyboard made from lines keeps them as they are; a new keyboard has none. |
| Keyboards.Keyboard.AddButton | navmenu/keyboard.py:41-47 | The new lines are `WithButton` of the old ones, adding a line first when there is none. |
| Keyboards.Keyboard.AddLine | navmenu/keyboard.py:49-52 | The new lines are `WithLine` of the old ones. |
| Contents.Content.Get | navmenu/contents.py:5-6 | Indexing by `text` gives the text. The model has no attributes besides the fields `keys()` lists, so it succeeds exactly for those and rejects other names with an error naming the key. The method and inherited attribute names that Python's `getattr` also finds are listed under Left out. |
| Contents.Content.Serialize | navmenu/contents.py:24-30 | `text` is present exactly when the text is not None. |
| ItemContents.ItemContent.GetContent | navmenu/item_contents.py:50-56 | Always of type `button`; text and color are copied, and the payload is the argument. |
| ItemContents.ItemContent.Serialize | navmenu/item_contents.py:58-66 | Text is always present; color is present exactly when it is not `DEFAULT`. |
| Responses.FormatField | navmenu/responses.py:44 | A string field is formatted with the payload, a missing one is kept as None, and a format failure is reported. |
| Responses.FormatFields | navmenu/responses.py:43-45 | The result has exactly the given keys, each field formatted. It succeeds exactly when every field exists and formats. |
| Responses.Message.GetContent | navmenu/responses.py:34-45 | No content renders to the empty map. Otherwise the result has the content's keys, each string field formatted with the message's own payload, and it fails exactly when a field fails to format. |
| Responses.Message.Text | navmenu/responses.py:34-45 | The `text` entry of the rendered content: None without content, and it fails exactly when rendering the content fails. `TextIsFormattedContent` states its value. |
| Responses.TextIsFormattedContent | navmenu/responses.py:43-45 | A message's rendered text is its content text formatted with its payload, or the format error. |
| Responses.Message.UpdatePayload | navmenu/responses.py:47-53 | The payload is replaced as a whole; content and keyboard are unchanged. |
| Responses.Message.Serialize | navmenu/responses.py:55-72 | `content` exactly when there is content; `payload` exactly when the payload is not empty; no other key. |
| Responses.Response.UpdatePayload | navmenu/responses.py:96-103 | Forwards to the message when there is one, and is otherwise a no-op; menu and go-back count never change. |
| Responses.Response.Serialize | navmenu/responses.py:105-125 | One key per field that is not None, holding that field. |
| Responses.ActionResult.UpdatePayload | navmenu/actions.py:166-173 | A Message or a Response gets the payload through its own `update_payload`. |
| Actions.Action.Process | navmenu/actions.py:49-173 | MessageAction (49-50): a message with the text as content, no keyboard, and the request payload (`{}` for None). SubmenuAction (73-74): a Response with only the menu name set; the menu is not looked up. GoBackAction (97-98): a Response with only the count set; the count is not checked. FunctionAction (160-173): the callback runs on the payload, with None as `{}`. A key naming a template gives that template with the payload put in. A returned Message or Response gets the payload put in. Any other key is an error. |
| Actions.Action.SerializeGoBack | navmenu/actions.py:100-106 | `count` is present exactly when the count is not 1. |
| Actions.MessageActionText | navmenu/actions.py:49-50 | A MessageAction's message renders to its text formatted with the request payload. |
| Actions.TemplateKeepsContent | navmenu/actions.py:166-169 | A template picked by key comes back with its own content and keyboard and the request payload. |
| Items.MenuItem.Name | navmenu/items.py:11-13 | Only a line break has no name; every other item's name is the one it was built with. |
| Items.MenuItem.IsAvailable | navmenu/items.py:95-96 | Items and line breaks are always available; a conditional item is available exactly when its predicate holds for the payload. |
| Items.MenuItem.OnSelect | navmenu/items.py:25-30 | One outcome per action, in declaration order, each the action's `process(payload)`. |
| Items.OnSelectShapes | navmenu/items.py:26-30 | No action gives no outcomes; one action gives exactly that action's outcome. |
| Items.MenuItem.GetContent | navmenu/items.py:58-59 | A line break renders as `line_break`. Any other item renders as a button with its content's text and color, and its name as the payload. |
| Menus.LiftAll | navmenu/items.py:30 | Each outcome becomes one yielded value in the same place: a result, or the exception it raises. |
| Menus.FirstMatch | navmenu/menus.py:110-112 | The first item, in declared order, whose name is the action and which is available; None when no item matches. |
| Menus.Place | navmenu/menus.py:127-140 | One item added to the keyboard being built. It fails exactly when an available button's text does not format, with that format error. An available button whose text formats is added to the last line, with the formatted text, the item's name as payload and the content's colour. An available line break adds an empty line, and an unavailable item changes nothing. `FlattenWithButton` and `FlattenWithLine` state what a button or a line does to the buttons. |
| Menus.KeyboardForStep | navmenu/menus.py:126-140 | Once the items before position i have built a keyboard, the keyboard up to and including item i is that keyboard with item i placed on it, exactly as the loop does. |
| Menus.ButtonJoinsLastLine | navmenu/menus.py:126-140 | An available button at the end of the items lands at the end of the last line of the keyboard built from the items before it (a first line when there was none); all earlier lines stay as they were. |
| Menus.BreakSeparatesButtons | navmenu/menus.py:126-140 | Two buttons with a line break between them are put on two lines of one button each. |
| Menus.KeyboardFor | navmenu/menus.py:126-140 | The keyboard built from the items in order: no items give no lines, and every failure is a format failure. `KeyboardFailsOnlyOnFormat`, `ButtonsInDeclaredOrder`, `LineCount` and `PrefixFailureStays` state the rest. |
| Menus.KeyboardFailsOnlyOnFormat | navmenu/menus.py:126-140 | Building the keyboard fails exactly when some available button's text does not format. |
| Menus.ButtonsInDeclaredOrder | navmenu/menus.py:126-140 | The keyboard's buttons, read line after line, are the available items' buttons in declared order, each with the item name as payload and its text formatted. |
| Menus.LineCount | navmenu/menus.py:126-140 | One line per available line break, plus one when an available button comes before every break. |
| Menus.PrefixFailureStays | navmenu/menus.py:127-140 | Once the keyboard of the first items fails, the whole keyboard fails with the same error. |
| Menus.Normalise | navmenu/menus.py:200-203 | A handler's sequence is taken as it is; any other value becomes a one-element sequence. |
| Menus.Menu.constructor | navmenu/menus.py:90-104 | No items means an empty, mutable list; no aliases means none. The content and default action are stored. |
| Menus.Menu.Select | navmenu/menus.py:109-120 | The first matching item's `on_select` outcomes. With no match: the default action's single outcome, or None when there is no default. |
| Menus.Menu.GetMessage | navmenu/menus.py:122-142 | The loop's message equals `Render`: the content, the keyboard of the available items, and the payload (`{}` for None). It fails exactly as the keyboard does. |
| Menus.MenuTextIsFormatted | navmenu/menus.py:123-142 | The menu's message carries the request payload and renders its text formatted with it. |
| Menus.Menu.AddItem | navmenu/menus.py:144-156 | A mutable list gets the item at its end. An immutable one is an error and stays unchanged. |
| Menus.MessageItemSelect | navmenu/menus.py:109-120 | Selecting an item whose one action is a MessageAction yields exactly that message. |
| Menus.BaseMenu.Select | navmenu/menus.py:200-203 | A custom menu never answers None: it answers the normalised handler result. |
| Menus.BaseMenu.Enter | navmenu/menus.py:66-75 | Entering a static menu gives no message. |
| Menus.BaseMenu.GetMessage | navmenu/menus.py:205-206 | A static menu's rendered message, or the handler's answer for a custom menu. |
| State.DropLast | navmenu/state.py:112 | `h[:-count]`: everything but the last `count` entries, or nothing. |
| State.Store.Get | navmenu/state.py:73-77 | A user without an entry is at the default state; otherwise at their entry. |
| State.NewUserIsAtDefault | navmenu/state.py:73-77 | In a valid store, a user never set or created is at the default state with an empty history. |
| State.Store.GoBack | navmenu/state.py:93-112 | The closed form of `go_back`: it fails, with the count error, exactly when the count is below 1. Otherwise no other user's menu or history changes. `GoBackLanding` and `GoBackTwice` state where the user lands. |
| State.Store.Set | navmenu/state.py:79-84 | The user is at the new menu, and the previous menu (the default for a new user) is pushed on their history. Other users' state and history are unchanged. |
| State.Store.Create | navmenu/state.py:86-91 | True exactly for a user without a state entry, who is then at the default with an empty history. Otherwise false and nothing changes. |
| State.GoBackRejectsSmallCounts | navmenu/state.py:94-98 | A count below 1 is an error, `-1` included. |
| State.GoBackLanding | navmenu/state.py:100-112 | With count at least 1: no history entry is a no-op. With `n` history entries, a count below `n` lands on entry `n - count` and keeps the first `n - count` entries. Any other count lands on the default with an empty history. |
| State.GoBackTwice | navmenu/state.py:93-112 | Going back `a` steps then `b` steps is going back `a + b` steps. |
| State.SetKeepsValid | navmenu/state.py:79-84 | `set` keeps the store valid: state entry exactly when a history entry; a non-empty history starts at the default; an empty one means the user is at the default. |
| State.CreateKeepsValid | navmenu/state.py:86-91 | `create` keeps the store valid. |
| State.GoBackKeepsValid | navmenu/state.py:93-112 | `go_back` keeps the store valid. |
| State.EmptyIsValid | navmenu/state.py:64-68 | The store of a new handler satisfies the invariant. |
| State.SetThenGoBack | navmenu/state.py:79-112 | In a valid store, `set` then `go_back(1)` restores the user's menu and history; other users are untouched. |
| State.MemoryStateHandler.constructor | navmenu/state.py:64-68 | A new handler has no users, and its store satisfies the invariant. |
| State.MemoryStateHandler.Get | navmenu/state.py:73-77 | Reads `Store.Get` of the current maps. |
| State.MemoryStateHandler.Set | navmenu/state.py:79-84 | The maps become `Store.Set` of the old ones. |
| State.MemoryStateHandler.Create | navmenu/state.py:86-91 | The answer and the maps are `Store.Create` of the old ones. |
| State.MemoryStateHandler.GoBack | navmenu/state.py:93-112 | The source's step-by-step loop ends in exactly `Store.GoBack` of the old maps. A rejected count changes nothing. |
| Manager.Find | navmenu/menu_manager.py:44-46 | The registry entry with that name, or None for an unknown name. |
| Manager.FirstAlias | navmenu/menu_manager.py:86-88 | The first menu, in registry order, whose aliases contain the key; None when none does. |
| Manager.EnterMessages | navmenu/menu_manager.py:28-32 | The message `enter` returned, as a one-element output; nothing when `enter` returns no Message. |
| Manager.Switch | navmenu/menu_manager.py:25-32 | The user is moved to the menu before it is looked up, so an unknown name fails with the state already pointing at it. A known menu gives its enter message. |
| Manager.ApplyResponse | navmenu/menu_manager.py:73-81 | One Response applied. The output only grows, starting with the Response's message when it has one, and no other user's menu or history changes. `ResponseEffectsInOrder` and `FalsyResponseFieldsAreSkipped` state the order and the skipped fields. |
| Manager.ApplyYield | navmenu/menu_manager.py:69-81 | One selection result applied. The output only grows, and no other user is touched. An exception stops the run with the state and output as they were. |
| Manager.ApplyAll | navmenu/menu_manager.py:69-81 | The results applied in order. The output only grows, no other user is touched, and nothing is applied once an exception has been met. `ApplyAllAppend`, `RaisedKeepsEarlierEffects` and `PassiveResultsOnlySend` state the rest. |
| Manager.SelectOutcome | navmenu/menu_manager.py:48-90 | `select` on a store value. An unknown current menu fails with nothing changed, and a selection never changes another user's menu or history. `UnmatchedActionUsesAliases`, `MessageItemSendsOneMessage`, `SwitchStep`, `BackStep` and `SubmenuThenBack` state its outcomes. |
| Manager.ResponseEffectsInOrder | navmenu/menu_manager.py:74-81 | A Response's message is queued first, then the go-back applies, then the switch, then the new menu's enter message. |
| Manager.FalsyResponseFieldsAreSkipped | navmenu/menu_manager.py:74-81 | A Response with no message, a count of 0 or none, and an empty or missing menu name changes nothing. |
| Manager.ApplyAllAppend | navmenu/menu_manager.py:69-81 | Results are applied one after another: two batches in turn equal the joined batch. |
| Manager.RaisedKeepsEarlierEffects | navmenu/menu_manager.py:69-81 | An exception from a later action stops the selection, but what the earlier results did stays done. |
| Manager.PassiveResultsOnlySend | navmenu/menu_manager.py:70-71 | Results that are only Messages, or skipped values, send those messages in order and change no state. |
| Manager.MessageItemSendsOneMessage | tests/test_menu_manager.py:34-39 | Selecting an item whose one action is a MessageAction returns exactly that message and leaves the state unchanged. |
| Manager.UnmatchedActionUsesAliases | navmenu/menu_manager.py:85-90 | When the current menu answers None, an alias switches to the first menu listing the lower-cased action. With no such alias the result is InvalidAction, with state and history unchanged. |
| Manager.CapitalAliasNeverMatches | navmenu/menu_manager.py:87 | Aliases are not lower-cased, so a menu whose aliases all contain a capital letter is never reached by alias. |
| Manager.SwitchStep | navmenu/menu_manager.py:80-81 | A selection answering with only a switch to a static menu sends nothing and moves the user there, pushing the old menu on the history. |
| Manager.BackStep | navmenu/menu_manager.py:77-78 | A selection answering with only a go-back of one step sends nothing and goes back one step, which cannot fail. |
| Manager.SubmenuThenBack | navmenu/menu_manager.py:48-83 | Opening a submenu and then going back one step returns the user to the starting menu and history, sending nothing. |
| Manager.SwitchKeepsValid | navmenu/menu_manager.py:25-32 | Switching menus keeps the store invariant, even for an unknown name. |
| Manager.ApplyYieldKeepsValid | navmenu/menu_manager.py:69-81 | Applying one selection result keeps the store invariant. |
| Manager.ApplyAllKeepsValid | navmenu/menu_manager.py:69-81 | Applying any sequence of results keeps the store invariant. |
| Manager.SelectOutcomeKeepsValid | navmenu/menu_manager.py:48-90 | `select` keeps the store invariant. With `EmptyIsValid`, every store a manager reaches is valid, so `SubmenuThenBack` and `NewUserIsAtDefault` apply to all of them. |
| Manager.MenuManager.constructor | navmenu/menu_manager.py:18-20 | The registry and the state handler are stored. |
| Manager.MenuManager.SwitchMenu | navmenu/menu_manager.py:25-32 | The output and the new state are `Switch`. |
| Manager.MenuManager.GetMessage | navmenu/menu_manager.py:34-46 | The current menu's message; it changes no user's state or history, since it modifies nothing. |
| Manager.MenuManager.Apply | navmenu/menu_manager.py:69-81 | One result applied to the state handler and the output list, as `ApplyYield` states. |
| Manager.MenuManager.Respond | navmenu/menu_manager.py:73-81 | One Response applied to the state handler and the output list, as `ApplyResponse` states: the message, then the go-back, then the switch. A failing go-back or switch stops with the messages queued so far. |
| Manager.MenuManager.Select | navmenu/menu_manager.py:48-90 | The messages (or the error) and the new state are `SelectOutcome` of the old state. |
| Manager.MenuManager.ApplyResults | navmenu/menu_manager.py:67-83 | The source's loop over the results ends in `ApplyAll` of the old state. An exception ends it with the effects of the earlier results kept. |
| Manager.MenuManager.SwitchByAlias | navmenu/menu_manager.py:85-90 | The source's alias scan switches to the `FirstAlias` menu, or fails with InvalidAction and leaves the state unchanged. |

## Left out

- Transport adapters, the deserializer, the examples and the `ExecuteAction` action, which runs arbitrary code: outside the core.
- The `StateHandler` abstract base and its docstrings: `MemoryStateHandler` is the only implementation modelled.
- The class-name `type` tags `serialize` adds for nested objects, `Menu.serialize`, item and menu-manager serialization, and `repr`: they only name Python classes.
- `str.format` beyond `{key}` fields and doubled braces (format specs, conversions, indexing). `str.lower` beyond ASCII letters.
- Formatting.Format: in Python, `{}` and `{0}` are positional fields. The source passes only `**payload`, so they raise `IndexError`. The model looks them up as the payload keys `""` and `"0"`, which fails with a missing-key error unless the payload has that key.
- Payload values are strings and payload keys are strings. Keyboard button payloads are item names, which is what `Menu.get_message` gives them.
- Content is only `Content` with its single `text` field; other `BaseContent` kinds are not part of this model.
- Actions.Action.Process: a template selected by key is the same shared object in the source, and its payload is overwritten in place. The model returns a value with the payload put in, so the sharing between calls is not captured.
- Items.MenuItem.IsAvailable: a `ConditionalItem` condition is a string the source `eval`s. The model takes the predicate it evaluates to.
- Items.MenuItem.Name: a `LineBreakItem` constructed with a name is not modelled; line breaks here never have a name.
- Keyboards.Keyboard.constructor: lines given as tuples are immutable in the source, so appending to them would raise. The model's lines are always appendable. The source also stores the caller's list object itself, so `add_button` and `add_line` grow the caller's list too. The model copies the lines, and that sharing is not captured.
- State.Store.Create: a second `create` returns None in the source, modelled as false.
- State.MemoryStateHandler.GoBack: a count of None (the parameter is `Optional`) raises a `TypeError` in the source; counts here are integers. The manager never passes None.
- Menus.BaseMenu.Select: a handler's result is a sequence or a single value. A string is a sequence in Python and would be iterated character by character; that case is not modelled.
- Contents.Content.Get: Python's `getattr` also finds the methods `keys` and `serialize` and inherited attributes such as `__class__`. The model has only the `text` field and rejects those names with NoSuchAttribute. No code in the core looks up such a name: keys come from `keys()`.
- Menus.Menu.constructor: the source stores the caller's item list object itself, so `add_item` also grows the caller's list. The model copies the items, and that sharing is not captured.
- Manager.Find: the registry is a sequence of name and menu pairs, so that the alias scan can follow the dict's insertion order. A Python dict cannot hold a name twice; the model does not forbid duplicates, and a lookup takes the first entry with the name.
- Concurrency: the source runs one request at a time, and so does the model.
