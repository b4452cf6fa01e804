/**
  * The menu manager: finds the user's current menu, passes the action to it,
  * and applies what comes back (messages to send, go-back counts, menu
  * switches) to the state handler, in order.
  */
module Manager {
  import opened Wrappers
  import opened Formatting
  import opened Errors
  import opened Contents
  import opened Responses
  import opened Actions
  import opened Items
  import opened Menus
  import opened State

  /** The menus by name, in insertion order (the alias scan follows it). */
  type Registry = seq<(string, BaseMenu)>

  /** `menus[name]`: the position of the first entry with that name. */
  function Find(menus: Registry, name: string): (r: Option<nat>)
    ensures r.Some? ==> r.value < |menus| && menus[r.value].0 == name
    ensures r.Some? ==> forall j :: 0 <= j < r.value ==> menus[j].0 != name
    ensures r.None? ==> forall j :: 0 <= j < |menus| ==> menus[j].0 != name
    decreases |menus|
  {
    if menus == [] then None
    else if menus[0].0 == name then Some(0)
    else
      match Find(menus[1..], name)
      case None => None
      case Some(k) => Some(k + 1)
  }

  /** The first menu, in registry order, that lists `key` among its aliases. */
  function FirstAlias(menus: Registry, key: string): (r: Option<nat>)
    ensures r.Some? ==> r.value < |menus| && key in menus[r.value].1.Aliases()
    ensures r.Some? ==> forall j :: 0 <= j < r.value ==> key !in menus[j].1.Aliases()
    ensures r.None? ==> forall j :: 0 <= j < |menus| ==> key !in menus[j].1.Aliases()
    decreases |menus|
  {
    if menus == [] then None
    else if key in menus[0].1.Aliases() then Some(0)
    else
      match FirstAlias(menus[1..], key)
      case None => None
      case Some(k) => Some(k + 1)
  }

  ghost function MenuObjects(menus: Registry): set<object> {
    set i | 0 <= i < |menus| && menus[i].1.StaticMenu? :: menus[i].1.menu
  }

  /** What entering a menu adds to the output: its `enter` message, if any. */
  function EnterMessages(m: BaseMenu, payload: Option<Payload>): (r: seq<Message>)
    ensures |r| <= 1
    ensures r == [] <==> m.Enter(payload).None?
    ensures m.Enter(payload).Some? ==> r == [m.Enter(payload).value]
  {
    if m.Enter(payload).Some? then [m.Enter(payload).value] else []
  }

  /** `_switch_menu`: the user is moved to `name` first; only then is the menu looked up,
      so an unknown name fails with the store already pointing at it. */
  function Switch(menus: Registry, default: string, s: Store, user: UserId, name: string, payload: Option<Payload>)
    : (r: (Result<seq<Message>, Error>, Store))
    ensures r.1 == s.Set(default, user, name)
    ensures r.1.Get(default, user) == name
    ensures Find(menus, name).None? ==> r.0 == Failure(UnknownMenu(name))
    ensures Find(menus, name).Some? ==> r.0 == Success(EnterMessages(menus[Find(menus, name).value].1, payload))
  {
    var s1 := s.Set(default, user, name);
    match Find(menus, name)
    case None => (Failure(UnknownMenu(name)), s1)
    case Some(k) => (Success(EnterMessages(menus[k].1, payload)), s1)
  }

  /** The manager's progress through the selection results. */
  datatype Run = Run(store: Store, out: seq<Message>, error: Option<Error>)

  /** One Response: its message first, then its go-back count, then its menu switch.
      A count of 0 and an empty menu name are skipped like absent ones. */
  function ApplyResponse(menus: Registry, default: string, user: UserId, payload: Option<Payload>, run: Run, resp: Response): (r: Run)
    ensures run.out <= r.out
    ensures OthersUnchanged(run.store, r.store, default, user)
    ensures resp.message.Some? ==> run.out + [resp.message.value] <= r.out
  {
    var out := run.out + (if resp.message.Some? then [resp.message.value] else []);
    var back :=
      if resp.goBackCount.Some? && resp.goBackCount.value != 0
      then run.store.GoBack(default, user, resp.goBackCount.value)
      else Success(run.store);
    if back.Failure? then Run(run.store, out, Some(back.error))
    else if resp.menu.Some? && resp.menu.value != "" then
      var (switched, s) := Switch(menus, default, back.value, user, resp.menu.value, payload);
      if switched.Failure? then Run(s, out, Some(switched.error)) else Run(s, out + switched.value, None)
    else Run(back.value, out, None)
  }

  /** One selection result: a Message is sent, a Response applied, an exception stops
      the run, anything else is skipped. */
  function ApplyYield(menus: Registry, default: string, user: UserId, payload: Option<Payload>, run: Run, y: Yielded): (r: Run)
    ensures run.out <= r.out
    ensures OthersUnchanged(run.store, r.store, default, user)
    ensures y.Raised? ==> r.error == Some(y.error) && r.store == run.store && r.out == run.out
  {
    match y
    case Raised(e) => run.(error := Some(e))
    case Ignored => run
    case Produced(MessageResult(m)) => run.(out := run.out + [m])
    case Produced(ResponseResult(resp)) => ApplyResponse(menus, default, user, payload, run, resp)
  }

  /** The results applied in order, stopping at the first exception. */
  function ApplyAll(menus: Registry, default: string, user: UserId, payload: Option<Payload>, run: Run, ys: seq<Yielded>): (r: Run)
    ensures run.out <= r.out
    ensures OthersUnchanged(run.store, r.store, default, user)
    ensures run.error.Some? ==> r == run
    decreases |ys|
  {
    if run.error.Some? || ys == [] then run
    else ApplyAll(menus, default, user, payload, ApplyYield(menus, default, user, payload, run, ys[0]), ys[1..])
  }

  /** `MenuManager.select` on a store value: the messages (or the error) and the new store. */
  function SelectOutcome(menus: Registry, default: string, s: Store, action: string, user: UserId, payload: Option<Payload>)
    : (r: (Result<seq<Message>, Error>, Store))
    reads MenuObjects(menus)
    ensures Find(menus, s.Get(default, user)).None? ==> r == (Failure(UnknownMenu(s.Get(default, user))), s)
    ensures OthersUnchanged(s, r.1, default, user)
  {
    var current := s.Get(default, user);
    match Find(menus, current)
    case None => (Failure(UnknownMenu(current)), s)
    case Some(k) =>
      match menus[k].1.Select(action, payload)
      case Some(ys) =>
        var run := ApplyAll(menus, default, user, payload, Run(s, [], None), ys);
        (if run.error.Some? then Failure(run.error.value) else Success(run.out), run.store)
      case None =>
        match FirstAlias(menus, Lower(action))
        case None => (Failure(InvalidAction), s)
        case Some(j) => Switch(menus, default, s, user, menus[j].0, payload)
  }

  /** `MenuManager.get_message` on a store value. */
  function MessageOutcome(menus: Registry, default: string, s: Store, user: UserId, payload: Option<Payload>)
    : Result<Option<Message>, Error>
    reads MenuObjects(menus)
  {
    var current := s.Get(default, user);
    match Find(menus, current)
    case None => Failure(UnknownMenu(current))
    case Some(k) => menus[k].1.Rendered(payload)
  }

  /** A Response with every field set acts in a fixed order: its message is queued,
      then the user goes back, then the user is switched (pushing the menu reached
      by going back onto the history), then the new menu's enter message is queued. */
  lemma ResponseEffectsInOrder(menus: Registry, default: string, user: UserId, payload: Option<Payload>,
                               run: Run, m: Message, name: string, count: int)
    requires run.error.None? && count >= 1 && name != "" && Find(menus, name).Some?
    ensures var after := ApplyYield(menus, default, user, payload, run, Produced(ResponseResult(Response(Some(m), Some(name), Some(count)))));
      var back := run.store.GoBack(default, user, count);
      && back.Success?
      && after.error.None?
      && after.store == back.value.Set(default, user, name)
      && after.out == run.out + [m] + EnterMessages(menus[Find(menus, name).value].1, payload)
  {
    GoBackLanding(run.store, default, user, count);
  }

  /** Response fields Python reads as false do nothing: no message, a go-back count of 0,
      and a missing or empty menu name. */
  lemma FalsyResponseFieldsAreSkipped(menus: Registry, default: string, user: UserId, payload: Option<Payload>,
                                      run: Run, resp: Response)
    requires run.error.None?
    requires resp.message.None?
    requires resp.goBackCount.None? || resp.goBackCount == Some(0)
    requires resp.menu.None? || resp.menu == Some("")
    ensures ApplyYield(menus, default, user, payload, run, Produced(ResponseResult(resp))) == run
  {
  }

  /** Applying two batches of results one after the other is applying them joined. */
  lemma {:induction false} ApplyAllAppend(menus: Registry, default: string, user: UserId, payload: Option<Payload>,
                                          run: Run, ys: seq<Yielded>, zs: seq<Yielded>)
    ensures ApplyAll(menus, default, user, payload, run, ys + zs)
         == ApplyAll(menus, default, user, payload, ApplyAll(menus, default, user, payload, run, ys), zs)
    decreases |ys|
  {
    if run.error.None? {
      if ys == [] {
        assert ys + zs == zs;
      } else {
        assert (ys + zs)[0] == ys[0] && (ys + zs)[1..] == ys[1..] + zs;
        ApplyAllAppend(menus, default, user, payload, ApplyYield(menus, default, user, payload, run, ys[0]), ys[1..], zs);
      }
    }
  }

  /** An exception from a later action ends the selection, but what the earlier
      actions did (messages queued, menus switched) stays done. */
  lemma RaisedKeepsEarlierEffects(menus: Registry, default: string, user: UserId, payload: Option<Payload>,
                                  run: Run, ys: seq<Yielded>, e: Error, zs: seq<Yielded>)
    requires ApplyAll(menus, default, user, payload, run, ys).error.None?
    ensures ApplyAll(menus, default, user, payload, run, ys + [Raised(e)] + zs)
         == ApplyAll(menus, default, user, payload, run, ys).(error := Some(e))
  {
    assert ys + [Raised(e)] + zs == ys + ([Raised(e)] + zs);
    ApplyAllAppend(menus, default, user, payload, run, ys, [Raised(e)] + zs);
    assert ([Raised(e)] + zs)[0] == Raised(e);
  }

  /** A result that touches no state: a Message, or something the manager skips. */
  predicate Passive(y: Yielded) {
    y.Ignored? || (y.Produced? && y.result.MessageResult?)
  }

  /** The messages among the results, in order. */
  function MessagesOf(ys: seq<Yielded>): seq<Message> {
    if ys == [] then []
    else (if ys[0].Produced? && ys[0].result.MessageResult? then [ys[0].result.message] else []) + MessagesOf(ys[1..])
  }

  /** Results that are only Messages (or skipped values) send those messages, in order,
      and leave every user's menu and history as they were. */
  lemma {:induction false} PassiveResultsOnlySend(menus: Registry, default: string, user: UserId, payload: Option<Payload>,
                                                  run: Run, ys: seq<Yielded>)
    requires run.error.None?
    requires forall i :: 0 <= i < |ys| ==> Passive(ys[i])
    ensures ApplyAll(menus, default, user, payload, run, ys) == Run(run.store, run.out + MessagesOf(ys), None)
    decreases |ys|
  {
    if ys == [] {
      assert run.out + MessagesOf(ys) == run.out;
    } else {
      var next := PassiveHead(menus, default, user, payload, run, ys);
      PassiveResultsOnlySend(menus, default, user, payload, next, ys[1..]);
      MessagesOfCons(ys);
      Associative(run.out, MessagesOf([ys[0]]), MessagesOf(ys[1..]));
    }
  }

  /** Applying passive results: the first one only adds its message, and the rest stay passive. */
  lemma PassiveHead(menus: Registry, default: string, user: UserId, payload: Option<Payload>, run: Run, ys: seq<Yielded>)
    returns (next: Run)
    requires run.error.None? && ys != []
    requires forall i :: 0 <= i < |ys| ==> Passive(ys[i])
    ensures next == Run(run.store, run.out + MessagesOf([ys[0]]), None)
    ensures ApplyAll(menus, default, user, payload, run, ys) == ApplyAll(menus, default, user, payload, next, ys[1..])
    ensures forall i :: 0 <= i < |ys[1..]| ==> Passive(ys[1..][i])
  {
    ApplyAllStep(menus, default, user, payload, run, ys);
    PassiveStep(menus, default, user, payload, run, ys[0]);
    next := Run(run.store, run.out + MessagesOf([ys[0]]), None);
    forall i | 0 <= i < |ys[1..]| ensures Passive(ys[1..][i]) {
      assert ys[1..][i] == ys[i + 1];
    }
  }

  /** One step of `ApplyAll` while no exception has been met. */
  lemma ApplyAllStep(menus: Registry, default: string, user: UserId, payload: Option<Payload>, run: Run, ys: seq<Yielded>)
    requires run.error.None? && ys != []
    ensures ApplyAll(menus, default, user, payload, run, ys)
         == ApplyAll(menus, default, user, payload, ApplyYield(menus, default, user, payload, run, ys[0]), ys[1..])
  {
  }

  /** `ApplyAllStep` on the results from position `i` on. */
  lemma ApplyAllAt(menus: Registry, default: string, user: UserId, payload: Option<Payload>, run: Run, ys: seq<Yielded>, i: nat)
    requires run.error.None? && i < |ys|
    ensures ApplyAll(menus, default, user, payload, run, ys[i..])
         == ApplyAll(menus, default, user, payload, ApplyYield(menus, default, user, payload, run, ys[i]), ys[i + 1..])
  {
    assert ys[i..][0] == ys[i] && ys[i..][1..] == ys[i + 1..];
    ApplyAllStep(menus, default, user, payload, run, ys[i..]);
  }

  /** Once an exception is met, the remaining results are not applied. */
  lemma ApplyAllStopped(menus: Registry, default: string, user: UserId, payload: Option<Payload>, run: Run, ys: seq<Yielded>)
    requires run.error.Some?
    ensures ApplyAll(menus, default, user, payload, run, ys) == run
  {
  }

  /** A passive result adds its message, if it is one, and nothing else. */
  lemma PassiveStep(menus: Registry, default: string, user: UserId, payload: Option<Payload>, run: Run, y: Yielded)
    requires Passive(y)
    ensures ApplyYield(menus, default, user, payload, run, y) == Run(run.store, run.out + MessagesOf([y]), run.error)
  {
    assert [y][1..] == [];
  }

  lemma MessagesOfCons(ys: seq<Yielded>)
    requires ys != []
    ensures MessagesOf(ys) == MessagesOf([ys[0]]) + MessagesOf(ys[1..])
  {
    assert [ys[0]][1..] == [];
  }

  /** When the current menu answers, the selection's outcome is what applying the answer gives. */
  lemma SelectOutcomeOnAnswer(menus: Registry, default: string, s: Store, action: string, user: UserId,
                              payload: Option<Payload>, ys: seq<Yielded>)
    requires Find(menus, s.Get(default, user)).Some?
    requires menus[Find(menus, s.Get(default, user)).value].1.Select(action, payload) == Some(ys)
    ensures var run := ApplyAll(menus, default, user, payload, Run(s, [], None), ys);
      SelectOutcome(menus, default, s, action, user, payload)
      == (if run.error.Some? then Failure(run.error.value) else Success(run.out), run.store)
  {
  }

  /** Selecting an item whose one action is a MessageAction sends exactly that
      action's message, carrying the request payload, and changes no state. */
  lemma MessageItemSendsOneMessage(menus: Registry, default: string, s: Store, action: string, user: UserId,
                                   payload: Option<Payload>, m: Menu, i: nat, text: string)
    requires Find(menus, s.Get(default, user)).Some? && menus[Find(menus, s.Get(default, user)).value].1 == StaticMenu(m)
    requires i < |m.items| && Matches(m.items[i], action, payload)
    requires forall j :: 0 <= j < i ==> !Matches(m.items[j], action, payload)
    requires m.items[i].ActionSeq() == [MessageAction(text)]
    ensures SelectOutcome(menus, default, s, action, user, payload)
         == (Success([Message(Some(Content(Some(text))), None, OrEmpty(payload))]), s)
  {
    MessageItemSelect(m, action, payload, i, text);
    var msg := Message(Some(Content(Some(text))), None, OrEmpty(payload));
    var ys := [Produced(MessageResult(msg))];
    PassiveResultsOnlySend(menus, default, user, payload, Run(s, [], None), ys);
    assert ys[1..] == [];
    assert MessagesOf(ys) == [msg];
    var k := Find(menus, s.Get(default, user)).value;
    assert menus[k].1.Select(action, payload) == m.Select(action, payload) == Some(ys);
    SelectOutcomeOnAnswer(menus, default, s, action, user, payload, ys);
    assert ApplyAll(menus, default, user, payload, Run(s, [], None), ys) == Run(s, [msg], None);
  }

  /** An action no item takes and no menu lists as an alias (after lower-casing)
      is InvalidAction and changes nothing; an alias switches to the first menu,
      in registry order, that lists it. */
  lemma UnmatchedActionUsesAliases(menus: Registry, default: string, s: Store, action: string, user: UserId,
                                   payload: Option<Payload>, k: nat)
    requires Find(menus, s.Get(default, user)) == Some(k)
    requires menus[k].1.Select(action, payload).None?
    ensures var (r, t) := SelectOutcome(menus, default, s, action, user, payload);
      && (r == Failure(InvalidAction) <==> forall j :: 0 <= j < |menus| ==> Lower(action) !in menus[j].1.Aliases())
      && (r == Failure(InvalidAction) ==> t == s)
      && (r != Failure(InvalidAction) ==>
            exists j :: 0 <= j < |menus| && Lower(action) in menus[j].1.Aliases()
              && (forall i :: 0 <= i < j ==> Lower(action) !in menus[i].1.Aliases())
              && t == s.Set(default, user, menus[j].0) && r.Success?)
  {
    match FirstAlias(menus, Lower(action))
    case None =>
    case Some(j) =>
      assert Find(menus, menus[j].0).Some?;
  }

  /** An alias with an upper-case letter is never reached: the action is lower-cased first. */
  lemma CapitalAliasNeverMatches(menus: Registry, action: string, j: nat)
    requires j < |menus|
    requires forall a :: a in menus[j].1.Aliases() ==> exists t :: 0 <= t < |a| && 'A' <= a[t] <= 'Z'
    ensures FirstAlias(menus, Lower(action)) != Some(j)
  {
    if FirstAlias(menus, Lower(action)) == Some(j) {
      var a := Lower(action);
      assert a in menus[j].1.Aliases();
      var t :| 0 <= t < |a| && 'A' <= a[t] <= 'Z';
      LowerHasNoCapitals(action, a, t);
    }
  }

  /** A bare menu switch to a static menu sends nothing and moves the user there. */
  lemma SwitchStep(menus: Registry, default: string, s: Store, action: string, user: UserId,
                   payload: Option<Payload>, sub: string)
    requires Find(menus, s.Get(default, user)).Some?
    requires menus[Find(menus, s.Get(default, user)).value].1.Select(action, payload)
          == Some([Produced(ResponseResult(Response(None, Some(sub), None)))])
    requires sub != "" && Find(menus, sub).Some? && menus[Find(menus, sub).value].1.StaticMenu?
    ensures SelectOutcome(menus, default, s, action, user, payload) == (Success([]), s.Set(default, user, sub))
  {
    var y := Produced(ResponseResult(Response(None, Some(sub), None)));
    SelectOutcomeOnAnswer(menus, default, s, action, user, payload, [y]);
    ApplyAllStep(menus, default, user, payload, Run(s, [], None), [y]);
    assert [y][1..] == [];
    assert EnterMessages(menus[Find(menus, sub).value].1, payload) == [];
    assert ApplyYield(menus, default, user, payload, Run(s, [], None), y) == Run(s.Set(default, user, sub), [], None);
  }

  /** A bare go-back of one step sends nothing and goes back one step. */
  lemma BackStep(menus: Registry, default: string, s: Store, action: string, user: UserId, payload: Option<Payload>)
    requires Find(menus, s.Get(default, user)).Some?
    requires menus[Find(menus, s.Get(default, user)).value].1.Select(action, payload)
          == Some([Produced(ResponseResult(Response(None, None, Some(1))))])
    ensures s.GoBack(default, user, 1).Success?
    ensures SelectOutcome(menus, default, s, action, user, payload) == (Success([]), s.GoBack(default, user, 1).value)
  {
    var y := Produced(ResponseResult(Response(None, None, Some(1))));
    SelectOutcomeOnAnswer(menus, default, s, action, user, payload, [y]);
    ApplyAllStep(menus, default, user, payload, Run(s, [], None), [y]);
    assert [y][1..] == [];
    assert ApplyYield(menus, default, user, payload, Run(s, [], None), y) == Run(s.GoBack(default, user, 1).value, [], None);
  }

  /** Opening a submenu and then going back one step brings the user back to the
      menu and history they started with, sending nothing (static menus have no
      enter message). */
  lemma SubmenuThenBack(menus: Registry, default: string, s: Store, user: UserId, payload: Option<Payload>,
                        open: string, back: string, sub: string)
    requires s.Valid(default)
    requires Find(menus, s.Get(default, user)).Some?
    requires menus[Find(menus, s.Get(default, user)).value].1.Select(open, payload)
          == Some([Produced(ResponseResult(Response(None, Some(sub), None)))])
    requires sub != "" && Find(menus, sub).Some? && menus[Find(menus, sub).value].1.StaticMenu?
    requires menus[Find(menus, sub).value].1.Select(back, payload)
          == Some([Produced(ResponseResult(Response(None, None, Some(1))))])
    ensures var s1 := s.Set(default, user, sub);
      && SelectOutcome(menus, default, s, open, user, payload) == (Success([]), s1)
      && s1.Get(default, user) == sub
      && s1.HistoryOf(user) == s.HistoryOf(user) + [s.Get(default, user)]
      && SelectOutcome(menus, default, s1, back, user, payload).0 == Success([])
      && SelectOutcome(menus, default, s1, back, user, payload).1.Get(default, user) == s.Get(default, user)
      && SelectOutcome(menus, default, s1, back, user, payload).1.HistoryOf(user) == s.HistoryOf(user)
  {
    SwitchStep(menus, default, s, open, user, payload, sub);
    var s1 := s.Set(default, user, sub);
    BackStep(menus, default, s1, back, user, payload);
    SetThenGoBack(s, default, user, sub);
  }

  /** Moving a user to a menu keeps the store invariant, whether or not the menu exists. */
  lemma SwitchKeepsValid(menus: Registry, default: string, s: Store, user: UserId, name: string, payload: Option<Payload>)
    requires s.Valid(default)
    ensures Switch(menus, default, s, user, name, payload).1.Valid(default)
  {
    SetKeepsValid(s, default, user, name);
  }

  /** Applying one selection result keeps the store invariant, also when it stops the run. */
  lemma ApplyYieldKeepsValid(menus: Registry, default: string, user: UserId, payload: Option<Payload>, run: Run, y: Yielded)
    requires run.store.Valid(default)
    ensures ApplyYield(menus, default, user, payload, run, y).store.Valid(default)
  {
    if y.Produced? && y.result.ResponseResult? {
      var resp := y.result.response;
      var back := run.store;
      if resp.goBackCount.Some? && resp.goBackCount.value != 0 {
        GoBackKeepsValid(run.store, default, user, resp.goBackCount.value);
        var b := run.store.GoBack(default, user, resp.goBackCount.value);
        if b.Success? {
          back := b.value;
        }
      }
      if resp.menu.Some? && resp.menu.value != "" {
        SwitchKeepsValid(menus, default, back, user, resp.menu.value, payload);
      }
    }
  }

  /** Applying any sequence of results keeps the store invariant. */
  lemma {:induction false} ApplyAllKeepsValid(menus: Registry, default: string, user: UserId, payload: Option<Payload>,
                                              run: Run, ys: seq<Yielded>)
    requires run.store.Valid(default)
    ensures ApplyAll(menus, default, user, payload, run, ys).store.Valid(default)
    decreases |ys|
  {
    if run.error.None? && ys != [] {
      ApplyYieldKeepsValid(menus, default, user, payload, run, ys[0]);
      ApplyAllKeepsValid(menus, default, user, payload, ApplyYield(menus, default, user, payload, run, ys[0]), ys[1..]);
    }
  }

  /** Every store the manager reaches from a valid one by `select` is valid; with
      `EmptyIsValid` this covers every store a handler goes through, so lemmas that
      assume a valid store apply to them. */
  lemma SelectOutcomeKeepsValid(menus: Registry, default: string, s: Store, action: string, user: UserId,
                                payload: Option<Payload>)
    requires s.Valid(default)
    ensures SelectOutcome(menus, default, s, action, user, payload).1.Valid(default)
  {
    match Find(menus, s.Get(default, user))
    case None =>
    case Some(k) =>
      match menus[k].1.Select(action, payload)
      case Some(ys) =>
        ApplyAllKeepsValid(menus, default, user, payload, Run(s, [], None), ys);
      case None =>
        match FirstAlias(menus, Lower(action))
        case None =>
        case Some(j) =>
          SwitchKeepsValid(menus, default, s, user, menus[j].0, payload);
  }

  class MenuManager {
    const menus: Registry
    const stateHandler: MemoryStateHandler

    constructor (menus: Registry, stateHandler: MemoryStateHandler)
      ensures this.menus == menus && this.stateHandler == stateHandler
    {
      this.menus := menus;
      this.stateHandler := stateHandler;
    }

    method SwitchMenu(user: UserId, name: string, payload: Option<Payload>) returns (r: Result<seq<Message>, Error>)
      modifies stateHandler
      ensures (r, stateHandler.Snapshot()) == Switch(menus, stateHandler.defaultState, old(stateHandler.Snapshot()), user, name, payload)
    {
      stateHandler.Set(user, name);
      var k := Find(menus, name);
      if k.None? {
        return Failure(UnknownMenu(name));
      }
      var entered := menus[k.value].1.Enter(payload);
      if entered.Some? {
        r := Success([entered.value]);
      } else {
        r := Success([]);
      }
    }

    /** Reads the current menu and renders it; no user's state or history changes. */
    method GetMessage(user: UserId, payload: Option<Payload>) returns (r: Result<Option<Message>, Error>)
      ensures r == MessageOutcome(menus, stateHandler.defaultState, stateHandler.Snapshot(), user, payload)
    {
      var current := stateHandler.Get(user);
      var k := Find(menus, current);
      if k.None? {
        return Failure(UnknownMenu(current));
      }
      r := menus[k.value].1.GetMessage(payload);
    }

    /** One selection result applied to the state handler and the outgoing messages. */
    method Apply(y: Yielded, user: UserId, payload: Option<Payload>, messages: seq<Message>)
      returns (out: seq<Message>, error: Option<Error>)
      modifies stateHandler
      ensures Run(stateHandler.Snapshot(), out, error)
           == ApplyYield(menus, stateHandler.defaultState, user, payload, Run(old(stateHandler.Snapshot()), messages, None), y)
    {
      out, error := messages, None;
      match y {
        case Raised(e) =>
          error := Some(e);
        case Ignored =>
        case Produced(MessageResult(m)) =>
          out := out + [m];
        case Produced(ResponseResult(resp)) =>
          out, error := Respond(resp, user, payload, messages);
      }
    }

    /** A Response: its message is queued, then the user goes back, then the menu is switched. */
    method Respond(resp: Response, user: UserId, payload: Option<Payload>, messages: seq<Message>)
      returns (out: seq<Message>, error: Option<Error>)
      modifies stateHandler
      ensures Run(stateHandler.Snapshot(), out, error)
           == ApplyResponse(menus, stateHandler.defaultState, user, payload, Run(old(stateHandler.Snapshot()), messages, None), resp)
    {
      out, error := messages, None;
      if resp.message.Some? {
        out := out + [resp.message.value];
      }
      if resp.goBackCount.Some? && resp.goBackCount.value != 0 {
        var back := stateHandler.GoBack(user, resp.goBackCount.value);
        if back.Failure? {
          return out, Some(back.error);
        }
      }
      if resp.menu.Some? && resp.menu.value != "" {
        var switched := SwitchMenu(user, resp.menu.value, payload);
        if switched.Failure? {
          return out, Some(switched.error);
        }
        out := out + switched.value;
      }
    }

    /** `select`: the current menu's results applied in order, or, when the menu does
        not take the action, a switch to the first menu listing it as an alias. */
    method Select(action: string, user: UserId, payload: Option<Payload>) returns (r: Result<seq<Message>, Error>)
      modifies stateHandler
      ensures (r, stateHandler.Snapshot())
           == SelectOutcome(menus, stateHandler.defaultState, old(stateHandler.Snapshot()), action, user, payload)
    {
      var current := stateHandler.Get(user);
      var k := Find(menus, current);
      if k.None? {
        return Failure(UnknownMenu(current));
      }
      var actions := menus[k.value].1.Select(action, payload);
      if actions.Some? {
        r := ApplyResults(actions.value, user, payload);
      } else {
        r := SwitchByAlias(action, user, payload);
      }
    }

    /** The loop over a menu's results: each is applied in turn, and the first
        exception ends the loop with what was applied before it kept. */
    method ApplyResults(ys: seq<Yielded>, user: UserId, payload: Option<Payload>) returns (r: Result<seq<Message>, Error>)
      modifies stateHandler
      ensures var run := ApplyAll(menus, stateHandler.defaultState, user, payload, Run(old(stateHandler.Snapshot()), [], None), ys);
        && r == (if run.error.Some? then Failure(run.error.value) else Success(run.out))
        && stateHandler.Snapshot() == run.store
    {
      ghost var target := ApplyAll(menus, stateHandler.defaultState, user, payload, Run(stateHandler.Snapshot(), [], None), ys);
      assert ys[0..] == ys;
      var messages: seq<Message> := [];
      var i := 0;
      while i < |ys|
        invariant 0 <= i <= |ys|
        invariant target == ApplyAll(menus, stateHandler.defaultState, user, payload, Run(stateHandler.Snapshot(), messages, None), ys[i..])
        decreases |ys| - i
      {
        ApplyAllAt(menus, stateHandler.defaultState, user, payload, Run(stateHandler.Snapshot(), messages, None), ys, i);
        var error;
        messages, error := Apply(ys[i], user, payload, messages);
        if error.Some? {
          ApplyAllStopped(menus, stateHandler.defaultState, user, payload, Run(stateHandler.Snapshot(), messages, error), ys[i + 1..]);
          return Failure(error.value);
        }
        i := i + 1;
      }
      assert ys[i..] == [];
      return Success(messages);
    }

    /** The alias scan: the lower-cased action is looked up in each menu's aliases in
        registry order; the first hit is switched to, and no hit is InvalidAction. */
    method SwitchByAlias(action: string, user: UserId, payload: Option<Payload>) returns (r: Result<seq<Message>, Error>)
      modifies stateHandler
      ensures FirstAlias(menus, Lower(action)).None? ==>
        r == Failure(InvalidAction) && stateHandler.Snapshot() == old(stateHandler.Snapshot())
      ensures FirstAlias(menus, Lower(action)).Some? ==>
        (r, stateHandler.Snapshot())
        == Switch(menus, stateHandler.defaultState, old(stateHandler.Snapshot()), user, menus[FirstAlias(menus, Lower(action)).value].0, payload)
    {
      var key := Lower(action);
      var j := 0;
      while j < |menus|
        invariant 0 <= j <= |menus|
        invariant forall t :: 0 <= t < j ==> key !in menus[t].1.Aliases()
      {
        if key in menus[j].1.Aliases() {
          r := SwitchMenu(user, menus[j].0, payload);
          return;
        }
        j := j + 1;
      }
      return Failure(InvalidAction);
    }
  }
}
