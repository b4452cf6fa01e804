/** Keyboards: lines of buttons, built in place one button or line at a time. */
module Keyboards {
  import opened Wrappers

  /** ButtonColors. */
  const DEFAULT: int := 0
  const PRIMARY: int := 1
  const POSITIVE: int := 2
  const NEGATIVE: int := 3

  /** A keyboard button; `payload` is the item name the menu renders it from. */
  datatype KeyboardButton = KeyboardButton(payload: string, text: string, color: int := DEFAULT)

  type Lines = seq<seq<KeyboardButton>>

  /** The lines after `add_button(b)`: b goes at the end of the last line,
      which is created first when there is none. */
  function WithButton(lines: Lines, b: KeyboardButton): (r: Lines)
    ensures |lines| == 0 ==> r == [[b]]
    ensures |lines| > 0 ==> |r| == |lines|
    ensures forall i :: 0 <= i < |lines| - 1 ==> r[i] == lines[i]
    ensures |lines| > 0 ==> r[|r| - 1] == lines[|lines| - 1] + [b]
  {
    if |lines| == 0 then [[b]]
    else lines[..|lines| - 1] + [lines[|lines| - 1] + [b]]
  }

  /** The lines after `add_line()`: one more, empty, line. */
  function WithLine(lines: Lines): (r: Lines)
    ensures |r| == |lines| + 1 && r[|lines|] == []
    ensures forall i :: 0 <= i < |lines| ==> r[i] == lines[i]
  {
    lines + [[]]
  }

  /** All buttons, line after line. */
  function Flatten(lines: Lines): seq<KeyboardButton>
    decreases |lines|
  {
    if lines == [] then [] else Flatten(lines[..|lines| - 1]) + lines[|lines| - 1]
  }

  lemma FlattenWithButton(lines: Lines, b: KeyboardButton)
    ensures Flatten(WithButton(lines, b)) == Flatten(lines) + [b]
  {
    var r := WithButton(lines, b);
    if |lines| == 0 {
      assert r[..0] == [];
    } else {
      assert r[..|r| - 1] == lines[..|lines| - 1];
    }
  }

  lemma FlattenWithLine(lines: Lines)
    ensures Flatten(WithLine(lines)) == Flatten(lines)
  {
    assert WithLine(lines)[..|lines|] == lines;
  }

  /** One call on a keyboard. */
  datatype KeyboardCall = AddButton(button: KeyboardButton) | AddLine

  function Replay(lines: Lines, calls: seq<KeyboardCall>): Lines
    decreases |calls|
  {
    if calls == [] then lines
    else
      var before := Replay(lines, calls[..|calls| - 1]);
      match calls[|calls| - 1]
      case AddButton(b) => WithButton(before, b)
      case AddLine => WithLine(before)
  }

  /** The buttons of a call sequence, in call order. */
  function ButtonsOf(calls: seq<KeyboardCall>): seq<KeyboardButton>
    decreases |calls|
  {
    if calls == [] then []
    else ButtonsOf(calls[..|calls| - 1]) + (if calls[|calls| - 1].AddButton? then [calls[|calls| - 1].button] else [])
  }

  /** Every add_button call contributes exactly its button, in call order, and add_line none. */
  lemma {:induction false} ReplayKeepsButtons(lines: Lines, calls: seq<KeyboardCall>)
    ensures Flatten(Replay(lines, calls)) == Flatten(lines) + ButtonsOf(calls)
    decreases |calls|
  {
    if calls != [] {
      var init := calls[..|calls| - 1];
      ReplayKeepsButtons(lines, init);
      match calls[|calls| - 1]
      case AddButton(b) => FlattenWithButton(Replay(lines, init), b);
      case AddLine => FlattenWithLine(Replay(lines, init));
    }
  }

  /** Two buttons, a line break, one button: two lines holding two and one buttons. */
  lemma TwoLinesExample(b1: KeyboardButton, b2: KeyboardButton, b3: KeyboardButton)
    ensures Replay([], [AddButton(b1), AddButton(b2), AddLine, AddButton(b3)]) == [[b1, b2], [b3]]
  {
    var c1 := [AddButton(b1)];
    var c2 := c1 + [AddButton(b2)];
    var c3 := c2 + [AddLine];
    var c4 := c3 + [AddButton(b3)];
    assert c1[..0] == [];
    assert Replay([], c1) == [[b1]];
    assert c2[..1] == c1;
    assert [[b1]][..0] == [] && [b1] + [b2] == [b1, b2];
    assert Replay([], c2) == [[b1, b2]];
    assert c3[..2] == c2;
    assert Replay([], c3) == [[b1, b2], []];
    assert c4[..3] == c3;
    assert [[b1, b2], []][..1] == [[b1, b2]] && [] + [b3] == [b3];
    assert c4 == [AddButton(b1), AddButton(b2), AddLine, AddButton(b3)];
  }

  class Keyboard {
    var lines: Lines

    /** `Keyboard(lines)`: the given lines as they are, or none. */
    constructor (lines: Option<Lines>)
      ensures this.lines == (if lines.Some? then lines.value else [])
    {
      if lines.None? {
        this.lines := [];
      } else {
        this.lines := lines.value;
      }
    }

    method AddButton(button: KeyboardButton)
      modifies this
      ensures lines == WithButton(old(lines), button)
    {
      if |lines| == 0 {
        AddLine();
        assert lines == [[]];
        ghost var e: seq<KeyboardButton> := lines[0];
        assert e == [];
        assert e + [button] == [button];
        assert lines[..0] == [];
      }
      lines := lines[..|lines| - 1] + [lines[|lines| - 1] + [button]];
    }

    method AddLine()
      modifies this
      ensures lines == WithLine(old(lines))
    {
      lines := lines + [[]];
    }
  }
}
