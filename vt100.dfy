/** The control sequences adaptors/vt100.py writes, as the lists of
    strings it passes to `write`, each with what it reads back as under
    ECMA-48: CUP (section 8.3.21), CHA (8.3.9), CUB/CUF/CUU/CUD (8.3.18,
    8.3.20, 8.3.22, 8.3.19), ED (8.3.39), EL (8.3.41) and SGR (8.3.117),
    plus the DEC private modes for the cursor and the mouse. */
module Vt100 {
  import opened Wrappers
  import opened Text
  import opened Constants
  import opened Ecma48

  /** `cursor_to(x, y)`: one-based row, then column. */
  function CursorToPieces(x: int, y: int): seq<string> {
    [CSI, IntToString(y + 1), ";", IntToString(x + 1), "H"]
  }

  /** `cursor_to_x(x)`. */
  function CursorToXPieces(x: int): seq<string> {
    [CSI, IntToString(x + 1), "G"]
  }

  /** `cursor_to_start`. */
  const CursorToStartPieces: seq<string> := [CSI, "1G"]

  /** `clear`, `clear_line` (after `cursor_to_start`), `clear_to_end`. */
  const ClearPieces: seq<string> := [CSI, "2J"]
  const ClearLinePieces: seq<string> := CursorToStartPieces + [CSI, "2K"]
  const ClearToEndPieces: seq<string> := [CSI, "0K"]

  /** `cursor_save`, `cursor_restore`, `style_reset`. */
  const SavePieces: seq<string> := [CSI, "s"]
  const RestorePieces: seq<string> := [CSI, "u"]
  const StyleResetPieces: seq<string> := [CSI, "0m"]

  /** `cursor_set_visible(visible)`. */
  function VisiblePieces(visible: bool): seq<string> {
    [CSI, "?25", if visible then "h" else "l"]
  }

  /** The `MODE_MAP` of `mouse_enable`. */
  const MouseModes: map<string, string> := map["click" := "?1001h", "drag" := "?1002h", "move" := "?1003h"]

  /** What `mouse_enable(mode)` writes: the mode, then UTF-8 coordinates. */
  function MouseOnPieces(mode: string): seq<string>
    requires mode in MouseModes
  {
    [CSI, MouseModes[mode], CSI, "?1005h"]
  }

  /** What `mouse_disable` writes. */
  const MouseOffPieces: seq<string> := [CSI, "?1001l", CSI, "?1002l", CSI, "?1003l"]

  /** The horizontal part of `cursor_move`. */
  function MoveXPieces(x: int): seq<string> {
    if x < 0 then [CSI, IntToString(-x), "D"]
    else if x > 0 then [CSI, IntToString(x), "C"]
    else []
  }

  /** `cursor_move(x, y)` as written: the vertical part takes its count
      from `x`, `abs(int(x))` upwards and `int(x)` downwards. */
  function CursorMovePiecesAsWritten(x: int, y: int): seq<string> {
    MoveXPieces(x) +
    (if y < 0 then [CSI, IntToString(if x < 0 then -x else x), "A"]
     else if y > 0 then [CSI, IntToString(x), "B"]
     else [])
  }

  /** The vertical part of a move by `y` rows. */
  function MoveYPieces(y: int): seq<string> {
    if y < 0 then [CSI, IntToString(-y), "A"]
    else if y > 0 then [CSI, IntToString(y), "B"]
    else []
  }

  /** `cursor_move(x, y)` with the vertical count taken from `y`. */
  function CursorMovePieces(x: int, y: int): seq<string> {
    MoveXPieces(x) + MoveYPieces(y)
  }

  /** Where CUP puts the cursor, zero based: `(column, row)`. */
  function CupTarget(c: Control): Option<(int, int)> {
    if c.final != 'H' then None
    else match Numbers(c)
      case Some(ns) => if |ns| == 2 then Some((ns[1] as int - 1, ns[0] as int - 1)) else None
      case None => None
  }

  /** The column CHA moves to, zero based. */
  function ChaColumn(c: Control): Option<int> {
    if c.final != 'G' then None
    else match Numbers(c)
      case Some(ns) => if |ns| == 1 then Some(ns[0] as int - 1) else None
      case None => None
  }

  /** How far CUU, CUD, CUF or CUB moves the cursor, as `(dx, dy)` with
      rows counted downwards. */
  function Step(c: Control): Option<(int, int)> {
    match Numbers(c)
    case Some(ns) =>
      if |ns| != 1 then None
      else if c.final == 'A' then Some((0, -(ns[0] as int)))
      else if c.final == 'B' then Some((0, ns[0]))
      else if c.final == 'C' then Some((ns[0], 0))
      else if c.final == 'D' then Some((-(ns[0] as int), 0))
      else None
    case None => None
  }

  /** The sum of the steps of a run of cursor movements. */
  function Displacement(cs: seq<Control>): Option<(int, int)>
    decreases |cs|
  {
    if cs == [] then Some((0, 0))
    else Add(Step(cs[0]), Displacement(cs[1..]))
  }

  /** Two moves in turn, if both are moves. */
  function Add(p: Option<(int, int)>, q: Option<(int, int)>): Option<(int, int)> {
    if p.Some? && q.Some? then Some((p.value.0 + q.value.0, p.value.1 + q.value.1)) else None
  }

  /** A list of pieces whose concatenation renders well-formed controls
      reads back as those controls. */
  lemma ReadsAs(pieces: seq<string>, cs: seq<Control>)
    requires Concat(pieces) == RenderAll(cs)
    requires forall i :: 0 <= i < |cs| ==> WellFormed(cs[i])
    ensures Parse(Concat(pieces)) == Some(cs)
  {
    ParseRenderAll(cs);
  }

  lemma RenderSmall(c1: Control, c2: Control)
    ensures RenderAll([c1]) == Render(c1)
    ensures RenderAll([c1, c2]) == Render(c1) + Render(c2)
  {
    assert [c1][1..] == [];
    assert [c2][1..] == [];
    assert [c1, c2][1..] == [c2];
    assert Render(c1) + "" == Render(c1);
    assert Render(c2) + "" == Render(c2);
    assert RenderAll([c2]) == Render(c2);
  }

  lemma {:induction false} RenderAllAppend(a: seq<Control>, b: seq<Control>)
    ensures RenderAll(a + b) == RenderAll(a) + RenderAll(b)
    decreases |a|
  {
    if a == [] {
      assert a + b == b;
    } else {
      assert (a + b)[1..] == a[1..] + b;
      assert (a + b)[0] == a[0];
      RenderAllAppend(a[1..], b);
    }
  }

  /** `CSI` then one piece holding the parameters and the final byte. */
  lemma FixedRenders(params: string, final: char, piece: string)
    requires piece == params + [final]
    ensures Concat([CSI, piece]) == RenderAll([Control(params, final)])
  {
    ConcatSmall(CSI, piece, "");
    RenderSmall(Control(params, final), Control(params, final));
  }

  /** `CSI`, a decimal number and a final byte render the control that
      carries that number. */
  lemma OneNumber(n: nat, final: char)
    requires FinalByte(final)
    ensures Concat([CSI, NatToString(n), [final]]) == RenderAll([WithNumbers([n], final)])
    ensures WellFormed(WithNumbers([n], final)) && Numbers(WithNumbers([n], final)) == Some([n])
  {
    NumbersOfWithNumbers([n], final);
    assert NatStrings([n]) == [NatToString(n)];
    assert Join([';'], [NatToString(n)]) == NatToString(n);
    ConcatSmall(CSI, NatToString(n), [final]);
    var c := WithNumbers([n], final);
    RenderSmall(c, c);
  }

  lemma CursorToRenders(x: nat, y: nat)
    ensures Concat(CursorToPieces(x, y)) == RenderAll([WithNumbers([y + 1, x + 1], 'H')])
  {
    var a, b := NatToString(y + 1), NatToString(x + 1);
    var c := WithNumbers([y + 1, x + 1], 'H');
    assert NatStrings([y + 1, x + 1]) == [a, b];
    JoinTwo(a, b);
    assert CursorToPieces(x, y) == [CSI, a, ";", b, "H"];
    ConcatFive(CSI, a, ";", b, "H");
    RenderSmall(c, c);
  }

  /** `cursor_to(x, y)` writes one CUP that puts the cursor at `(x, y)`. */
  lemma CursorToReadsBack(x: nat, y: nat)
    ensures Parse(Concat(CursorToPieces(x, y))) == Some([WithNumbers([y + 1, x + 1], 'H')])
    ensures CupTarget(WithNumbers([y + 1, x + 1], 'H')) == Some((x, y))
  {
    var c := WithNumbers([y + 1, x + 1], 'H');
    assert WellFormed(c) && CupTarget(c) == Some((x, y)) by {
      NumbersOfWithNumbers([y + 1, x + 1], 'H');
    }
    CursorToRenders(x, y);
    ReadsAs(CursorToPieces(x, y), [c]);
  }

  /** `cursor_to_x(x)` writes one CHA to column `x`. */
  lemma CursorToXReadsBack(x: nat)
    ensures Parse(Concat(CursorToXPieces(x))) == Some([WithNumbers([x + 1], 'G')])
    ensures ChaColumn(WithNumbers([x + 1], 'G')) == Some(x)
  {
    OneNumber(x + 1, 'G');
    ReadsAs(CursorToXPieces(x), [WithNumbers([x + 1], 'G')]);
  }

  /** The controls of a move by `x` columns: CUB or CUF, none for 0. */
  function MoveXControls(x: int): seq<Control> {
    if x < 0 then [WithNumbers([-x], 'D')] else if x > 0 then [WithNumbers([x], 'C')] else []
  }

  /** The controls of a move by `y` rows: CUU or CUD, none for 0. */
  function MoveYControls(y: int): seq<Control> {
    if y < 0 then [WithNumbers([-y], 'A')] else if y > 0 then [WithNumbers([y], 'B')] else []
  }

  lemma MoveXRenders(x: int)
    ensures Concat(MoveXPieces(x)) == RenderAll(MoveXControls(x))
    ensures forall i :: 0 <= i < |MoveXControls(x)| ==> WellFormed(MoveXControls(x)[i])
    ensures Displacement(MoveXControls(x)) == Some((x, 0))
  {
    if x != 0 {
      var n: nat := if x < 0 then -x else x;
      var f := if x < 0 then 'D' else 'C';
      OneNumber(n, f);
      assert MoveXPieces(x) == [CSI, NatToString(n), [f]];
      assert MoveXControls(x)[1..] == [];
    }
  }

  lemma MoveYRenders(y: int)
    ensures Concat(MoveYPieces(y)) == RenderAll(MoveYControls(y))
    ensures forall i :: 0 <= i < |MoveYControls(y)| ==> WellFormed(MoveYControls(y)[i])
    ensures Displacement(MoveYControls(y)) == Some((0, y))
  {
    if y != 0 {
      var n: nat := if y < 0 then -y else y;
      var f := if y < 0 then 'A' else 'B';
      OneNumber(n, f);
      assert MoveYPieces(y) == [CSI, NatToString(n), [f]];
      assert MoveYControls(y)[1..] == [];
    }
  }

  /** Moves add up, and a run holding anything but moves is no move. */
  lemma {:induction false} DisplacementAppend(a: seq<Control>, b: seq<Control>)
    ensures Displacement(a + b) == Add(Displacement(a), Displacement(b))
    decreases |a|
  {
    if a == [] {
      assert a + b == b;
    } else {
      var t := a[1..];
      assert (a + b)[1..] == t + b;
      assert (a + b)[0] == a[0];
      DisplacementAppend(t, b);
      AddAssociates(Step(a[0]), Displacement(t), Displacement(b));
    }
  }

  lemma AddAssociates(p: Option<(int, int)>, q: Option<(int, int)>, r: Option<(int, int)>)
    ensures Add(p, Add(q, r)) == Add(Add(p, q), r)
  {
  }

  /** `cursor_move(x, y)` writes controls that move the cursor by exactly
      `(x, y)`. */
  lemma CursorMoveReadsBack(x: int, y: int)
    ensures Parse(Concat(CursorMovePieces(x, y))) == Some(MoveXControls(x) + MoveYControls(y))
    ensures Displacement(MoveXControls(x) + MoveYControls(y)) == Some((x, y))
  {
    CursorMoveParses(x, y);
    MoveXRenders(x);
    MoveYRenders(y);
    DisplacementAppend(MoveXControls(x), MoveYControls(y));
  }

  /** The pieces of `cursor_move(x, y)` are the horizontal controls, then
      the vertical ones. */
  lemma CursorMoveParses(x: int, y: int)
    ensures Parse(Concat(CursorMovePieces(x, y))) == Some(MoveXControls(x) + MoveYControls(y))
  {
    var hs, vs := MoveXControls(x), MoveYControls(y);
    MoveXRenders(x);
    MoveYRenders(y);
    assert Concat(CursorMovePieces(x, y)) == RenderAll(hs + vs) by {
      ConcatAppend(MoveXPieces(x), MoveYPieces(y));
      RenderAllAppend(hs, vs);
    }
    forall i | 0 <= i < |hs + vs| ensures WellFormed((hs + vs)[i]) {
      if i < |hs| { assert (hs + vs)[i] == hs[i]; } else { assert (hs + vs)[i] == vs[i - |hs|]; }
    }
    ReadsAs(CursorMovePieces(x, y), hs + vs);
  }

  /** A move three columns right and one row up, as written, is a move
      three rows up. */
  lemma CursorMoveAsWrittenMisreads()
    ensures CursorMovePiecesAsWritten(3, -1) == CursorMovePieces(3, -3)
    ensures Parse(Concat(CursorMovePiecesAsWritten(3, -1))).Some?
    ensures Displacement(Parse(Concat(CursorMovePiecesAsWritten(3, -1))).value) == Some((3, -3))
  {
    CursorMoveReadsBack(3, -3);
  }

  /** The erasing sequences read back as ED 2 (whole display), CHA 1
      then EL 2 (whole line), and EL 0 (to the end of the line). */
  lemma ClearPiecesReadBack()
    ensures Parse(Concat(ClearPieces)) == Some([Control("2", 'J')])
    ensures Parse(Concat(CursorToStartPieces)) == Some([Control("1", 'G')])
    ensures Parse(Concat(ClearLinePieces)) == Some([Control("1", 'G'), Control("2", 'K')])
    ensures Parse(Concat(ClearToEndPieces)) == Some([Control("0", 'K')])
  {
    ClearDisplayReadsBack();
    CursorToStartReadsBack();
    ClearLineReadsBack();
    ClearToEndReadsBack();
  }

  lemma ClearDisplayReadsBack()
    ensures Parse(Concat(ClearPieces)) == Some([Control("2", 'J')])
  {
    FixedRenders("2", 'J', "2J");
    ReadsAs(ClearPieces, [Control("2", 'J')]);
  }

  lemma CursorToStartReadsBack()
    ensures Parse(Concat(CursorToStartPieces)) == Some([Control("1", 'G')])
  {
    FixedRenders("1", 'G', "1G");
    ReadsAs(CursorToStartPieces, [Control("1", 'G')]);
  }

  lemma ClearLineReadsBack()
    ensures Parse(Concat(ClearLinePieces)) == Some([Control("1", 'G'), Control("2", 'K')])
  {
    FixedRenders("1", 'G', "1G");
    FixedRenders("2", 'K', "2K");
    ConcatAppend(CursorToStartPieces, [CSI, "2K"]);
    RenderAllAppend([Control("1", 'G')], [Control("2", 'K')]);
    ReadsAs(ClearLinePieces, [Control("1", 'G'), Control("2", 'K')]);
  }

  lemma ClearToEndReadsBack()
    ensures Parse(Concat(ClearToEndPieces)) == Some([Control("0", 'K')])
  {
    FixedRenders("0", 'K', "0K");
    ReadsAs(ClearToEndPieces, [Control("0", 'K')]);
  }

  /** Save and restore read back as the private finals `s` and `u`, and
      the style reset as SGR 0. */
  lemma CursorPiecesReadBack()
    ensures Parse(Concat(SavePieces)) == Some([Control("", 's')])
    ensures Parse(Concat(RestorePieces)) == Some([Control("", 'u')])
    ensures Parse(Concat(StyleResetPieces)) == Some([Control("0", 'm')])
  {
    FixedRenders("", 's', "s");
    ReadsAs(SavePieces, [Control("", 's')]);
    FixedRenders("", 'u', "u");
    ReadsAs(RestorePieces, [Control("", 'u')]);
    FixedRenders("0", 'm', "0m");
    ReadsAs(StyleResetPieces, [Control("0", 'm')]);
  }

  /** `mouse_disable` resets the three mouse modes. */
  lemma MouseOffReadsBack()
    ensures Parse(Concat(MouseOffPieces)) ==
            Some([Control("?1001", 'l'), Control("?1002", 'l'), Control("?1003", 'l')])
  {
    var c1, c2, c3 := Control("?1001", 'l'), Control("?1002", 'l'), Control("?1003", 'l');
    var p1, p2, p3 := [CSI, "?1001l"], [CSI, "?1002l"], [CSI, "?1003l"];
    FixedRenders("?1001", 'l', "?1001l");
    FixedRenders("?1002", 'l', "?1002l");
    FixedRenders("?1003", 'l', "?1003l");
    assert MouseOffPieces == p1 + p2 + p3;
    ConcatAppend(p1 + p2, p3);
    ConcatAppend(p1, p2);
    RenderAllAppend([c1] + [c2], [c3]);
    RenderAllAppend([c1], [c2]);
    assert [c1] + [c2] + [c3] == [c1, c2, c3];
    ReadsAs(MouseOffPieces, [c1, c2, c3]);
  }

  /** `cursor_set_visible` sets (`h`) or resets (`l`) private mode 25. */
  lemma VisibleReadsBack(visible: bool)
    ensures Parse(Concat(VisiblePieces(visible))) == Some([Control("?25", if visible then 'h' else 'l')])
  {
    var f := if visible then 'h' else 'l';
    var c := Control("?25", f);
    ConcatSmall(CSI, "?25", [f]);
    RenderSmall(c, c);
    ReadsAs(VisiblePieces(visible), [c]);
  }

  /** `mouse_enable(mode)` sets the private mode of `mode`, then 1005. */
  lemma MouseOnReadsBack(mode: string)
    requires mode in MouseModes
    ensures Parse(Concat(MouseOnPieces(mode))) ==
            Some([Control(MouseModes[mode][..5], 'h'), Control("?1005", 'h')])
  {
    var m := MouseModes[mode];
    var c1, c2 := Control(m[..5], 'h'), Control("?1005", 'h');
    assert m == m[..5] + ['h'];
    FixedRenders(m[..5], 'h', m);
    FixedRenders("?1005", 'h', "?1005h");
    assert MouseOnPieces(mode) == [CSI, m] + [CSI, "?1005h"];
    ConcatAppend([CSI, m], [CSI, "?1005h"]);
    RenderAllAppend([c1], [c2]);
    assert [c1] + [c2] == [c1, c2];
    ReadsAs(MouseOnPieces(mode), [c1, c2]);
  }
}
