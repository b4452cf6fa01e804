/**
 * The per-user state store: each user's current menu and the stack of menus
 * they came from. `Store` describes it as a value; `MemoryStateHandler` is the
 * in-memory handler that updates its two maps in place.
 */
module State {
  import opened Wrappers
  import opened Errors

  /** A user identifier; None is the anonymous user. */
  type UserId = Option<int>

  /** `h[:-count]` for count >= 1: everything but the last `count` entries. */
  function DropLast(h: seq<string>, count: nat): (r: seq<string>)
    ensures r == h[..if count < |h| then |h| - count else 0]
  {
    if count < |h| then h[..|h| - count] else []
  }

  datatype Store = Store(state: map<UserId, string>, history: map<UserId, seq<string>>) {

    /** `get`: the current menu, or the default one for a user with no entry. */
    function Get(default: string, user: UserId): (s: string)
      ensures user !in state ==> s == default
      ensures user in state ==> s == state[user]
    {
      if user in state then state[user] else default
    }

    /** The history of a user, empty when they have none. */
    function HistoryOf(user: UserId): seq<string> {
      if user in history then history[user] else []
    }

    /** `set`: the user's current menu goes on their history, and `menu` becomes current. */
    function Set(default: string, user: UserId, menu: string): (s: Store)
      ensures s.Get(default, user) == menu
      ensures s.HistoryOf(user) == HistoryOf(user) + [Get(default, user)]
      ensures user in s.history
      ensures forall u :: u != user ==> s.Get(default, u) == Get(default, u) && s.HistoryOf(u) == HistoryOf(u)
      ensures forall u :: u != user ==> (u in s.state <==> u in state) && (u in s.history <==> u in history)
    {
      Store(state[user := menu], history[user := HistoryOf(user) + [Get(default, user)]])
    }

    /** `create`: true and a fresh entry the first time; false (None in the source) and no change after. */
    function Create(default: string, user: UserId): (r: (bool, Store))
      ensures r.0 <==> user !in state
      ensures !r.0 ==> r.1 == this
      ensures r.0 ==> r.1 == Store(state[user := default], history[user := []])
    {
      if user !in state then (true, Store(state[user := default], history[user := []])) else (false, this)
    }

    /** `go_back`: closed form of the source's loop and slice. */
    function GoBack(default: string, user: UserId, count: int): (r: Result<Store, Error>)
      ensures r.Failure? <==> count < 1
      ensures r.Failure? ==> r.error == InvalidGoBackCount
      ensures r.Success? ==> OthersUnchanged(this, r.value, default, user)
    {
      if count < 1 then Failure(InvalidGoBackCount)
      else if user !in history then Success(this)
      else
        var h := history[user];
        var n := |h|;
        Success(Store(state[user := if count < n then h[n - count] else default],
                      history[user := DropLast(h, count)]))
    }

    /** The store's invariant: a user has a current menu iff they have a history; a
        non-empty history starts at the default menu; an empty one means the user is
        at the default menu. */
    ghost predicate Valid(default: string) {
      && (forall u :: u in state <==> u in history)
      && (forall u :: u in history && |history[u]| > 0 ==> history[u][0] == default)
      && (forall u :: u in history && |history[u]| == 0 ==> state[u] == default)
    }
  }

  /** Every user other than `user` has the same current menu and history in `t` as in `s`. */
  ghost predicate OthersUnchanged(s: Store, t: Store, default: string, user: UserId) {
    forall u :: u != user ==> t.Get(default, u) == s.Get(default, u) && t.HistoryOf(u) == s.HistoryOf(u)
  }

  const Empty := Store(map[], map[])

  /** A handler starts out satisfying the store invariant. */
  lemma EmptyIsValid(default: string)
    ensures Empty.Valid(default)
  {
  }

  /** A user nobody has set or created is at the default menu. */
  lemma NewUserIsAtDefault(s: Store, default: string, user: UserId)
    requires s.Valid(default) && user !in s.state
    ensures s.Get(default, user) == default && s.HistoryOf(user) == []
  {
  }

  /** Counts below 1 are refused before anything changes; that includes -1, so the
      source's `count == -1` branch never runs. */
  lemma GoBackRejectsSmallCounts(s: Store, default: string, user: UserId, count: int)
    requires count < 1
    ensures s.GoBack(default, user, count) == Failure(InvalidGoBackCount)
    ensures s.GoBack(default, user, -1).Failure?
  {
  }

  /** Where go_back lands: the count-th previous menu with the history cut below it,
      or the default menu with no history when the count reaches the history's depth.
      A user without history, and every other user, are left alone. */
  lemma GoBackLanding(s: Store, default: string, user: UserId, count: int)
    requires count >= 1
    ensures s.GoBack(default, user, count).Success?
    ensures user !in s.history ==> s.GoBack(default, user, count).value == s
    ensures var h := s.HistoryOf(user); var n := |h|; var t := s.GoBack(default, user, count).value;
      user in s.history ==>
        && (count < n ==> t.Get(default, user) == h[n - count] && t.HistoryOf(user) == h[..n - count])
        && (count >= n ==> t.Get(default, user) == default && t.HistoryOf(user) == [])
    ensures var t := s.GoBack(default, user, count).value;
      forall u :: u != user ==> t.Get(default, u) == s.Get(default, u) && t.HistoryOf(u) == s.HistoryOf(u)
  {
  }

  /** Going back a steps and then b steps is going back a + b steps. */
  lemma GoBackTwice(s: Store, default: string, user: UserId, a: int, b: int)
    requires a >= 1 && b >= 1
    ensures s.GoBack(default, user, a).Success?
    ensures s.GoBack(default, user, a).value.GoBack(default, user, b) == s.GoBack(default, user, a + b)
  {
    if user in s.history {
      var h := s.history[user];
      var n := |h|;
      var t := s.GoBack(default, user, a).value;
      var h' := t.history[user];
      assert h' == DropLast(h, a);
      if a < n {
        assert |h'| == n - a;
        if b < n - a {
          assert h'[|h'| - b] == h[n - (a + b)];
          assert h'[..|h'| - b] == h[..n - (a + b)];
          assert t.state[user := h'[|h'| - b]] == s.state[user := h[n - (a + b)]];
          assert t.history[user := h'[..|h'| - b]] == s.history[user := h[..n - (a + b)]];
        } else {
          assert t.state[user := default] == s.state[user := default];
          assert t.history[user := []] == s.history[user := []];
        }
      } else {
        assert t.state[user := default] == s.state[user := default];
        assert t.history[user := []] == s.history[user := []];
      }
    }
  }

  lemma SetKeepsValid(s: Store, default: string, user: UserId, menu: string)
    requires s.Valid(default)
    ensures s.Set(default, user, menu).Valid(default)
  {
    var t := s.Set(default, user, menu);
    assert t.history[user][0] == default by {
      if user in s.history && |s.history[user]| > 0 {
        assert t.history[user][0] == s.history[user][0];
      }
    }
  }

  lemma CreateKeepsValid(s: Store, default: string, user: UserId)
    requires s.Valid(default)
    ensures s.Create(default, user).1.Valid(default)
  {
  }

  lemma GoBackKeepsValid(s: Store, default: string, user: UserId, count: int)
    requires s.Valid(default)
    ensures s.GoBack(default, user, count).Success? ==> s.GoBack(default, user, count).value.Valid(default)
  {
    if count >= 1 && user in s.history {
      var h := s.history[user];
      var t := s.GoBack(default, user, count).value;
      if count < |h| {
        assert t.history[user][0] == h[0];
      }
    }
  }

  /** Round trip: switching to a menu and going back one step restores the user's
      current menu and history; other users are untouched. */
  lemma {:induction false} SetThenGoBack(s: Store, default: string, user: UserId, menu: string)
    requires s.Valid(default)
    ensures s.Set(default, user, menu).GoBack(default, user, 1).Success?
    ensures var t := s.Set(default, user, menu).GoBack(default, user, 1).value;
      && t.Get(default, user) == s.Get(default, user)
      && t.HistoryOf(user) == s.HistoryOf(user)
      && forall u :: u != user ==> t.Get(default, u) == s.Get(default, u) && t.HistoryOf(u) == s.HistoryOf(u)
  {
    var m := s.Set(default, user, menu);
    GoBackLanding(m, default, user, 1);
    var h := m.HistoryOf(user);
    assert h == s.HistoryOf(user) + [s.Get(default, user)];
    if |h| == 1 {
      assert s.HistoryOf(user) == [];
      if user in s.state {
        assert user in s.history && |s.history[user]| == 0;
      } else {
        NewUserIsAtDefault(s, default, user);
      }
    } else {
      assert h[|h| - 1] == s.Get(default, user);
      assert h[..|h| - 1] == s.HistoryOf(user);
    }
  }

  class MemoryStateHandler {
    const defaultState: string
    var state: map<UserId, string>
    var history: map<UserId, seq<string>>

    constructor (defaultState: string)
      ensures this.defaultState == defaultState && Snapshot() == Empty
      ensures Snapshot().Valid(defaultState)
    {
      this.defaultState := defaultState;
      state := map[];
      history := map[];
    }

    function Snapshot(): Store
      reads this
    {
      Store(state, history)
    }

    function Get(user: UserId): (s: string)
      reads this
      ensures s == Snapshot().Get(defaultState, user)
    {
      if user !in state then defaultState else state[user]
    }

    method Set(user: UserId, newState: string)
      modifies this
      ensures Snapshot() == old(Snapshot()).Set(defaultState, user, newState)
    {
      ghost var s0 := Snapshot();
      if user !in history {
        history := history[user := []];
      }
      assert history[user] == s0.HistoryOf(user);
      history := history[user := history[user] + [if user in state then state[user] else defaultState]];
      state := state[user := newState];
      assert history == s0.history[user := s0.HistoryOf(user) + [s0.Get(defaultState, user)]];
    }

    method Create(user: UserId) returns (created: bool)
      modifies this
      ensures (created, Snapshot()) == old(Snapshot()).Create(defaultState, user)
    {
      created := false;
      if user !in state {
        state := state[user := defaultState];
        history := history[user := []];
        created := true;
      }
    }

    /** The source's loop: step back through the history until `count` steps are
        taken or the history runs out, then cut the history with `h[:-count]`. */
    method GoBack(user: UserId, count: int) returns (r: Result<(), Error>)
      modifies this
      ensures r.Failure? <==> old(Snapshot()).GoBack(defaultState, user, count).Failure?
      ensures r.Failure? ==> r.error == old(Snapshot()).GoBack(defaultState, user, count).error && Snapshot() == old(Snapshot())
      ensures r.Success? ==> Snapshot() == old(Snapshot()).GoBack(defaultState, user, count).value
    {
      var c := count;
      if c < 1 {
        return Failure(InvalidGoBackCount);
      } else if c == -1 {
        c := 1000;
      }
      if user !in history {
        return Success(());
      }
      var h := history[user];
      var newState := defaultState;
      var i := 0;
      while i < c
        invariant 0 <= i <= c
        invariant i > 0 ==> i < |h| && newState == h[|h| - i]
      {
        if |h| <= i + 1 {
          newState := defaultState;
          break;
        }
        newState := h[|h| - (i + 1)];
        i := i + 1;
      }
      state := state[user := newState];
      history := history[user := DropLast(h, c)];
      r := Success(());
    }
  }
}
