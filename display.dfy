/** The virtual screen of display.py: a grid of characters, each with the
    style it was written in and a dirty flag, a cursor that wraps at the
    right edge and stops at the last row, and a refresh that sends the
    dirty cells to the terminal. Colours and SGR styles are opaque values
    here; the terminal a `VirtualTerminal` draws on is its size and the log
    of what it is sent. */
module Display {
  import opened Wrappers
  import opened Text
  import opened Base

  /** What `add_styles` looks at in an argument: a `Style`, a `Color` and
      its background flag, or anything else. */
  datatype ArgKind = StyleKind | ColorKind(bg: bool) | OtherKind

  /** A style argument: its kind and an opaque identity. */
  datatype StyleArg = StyleArg(kind: ArgKind, id: nat)

  /** The three parts of a `VirtualStyle`, as `copy` takes them. */
  datatype Look = Look(colorfg: StyleArg, colorbg: StyleArg, style: StyleArg)

  /** `NamedColor("white")`, `NamedColor("black", bg=True)` and `Style()`. */
  const White := StyleArg(ColorKind(false), 0)
  const Black := StyleArg(ColorKind(true), 1)
  const Plain := StyleArg(StyleKind, 2)
  const DefaultLook := Look(White, Black, Plain)

  /** One turn of `add_styles`: a `Style` replaces the style, a `Color`
      replaces the background or the foreground as its flag says, and
      anything else is ignored. */
  function Route(look: Look, arg: StyleArg): Look {
    match arg.kind
    case StyleKind => look.(style := arg)
    case ColorKind(bg) => if bg then look.(colorbg := arg) else look.(colorfg := arg)
    case OtherKind => look
  }

  /** `add_styles(*args)`: every argument routed in turn. */
  function Routed(look: Look, args: seq<StyleArg>): Look
    decreases |args|
  {
    if args == [] then look else Route(Routed(look, args[..|args| - 1]), args[|args| - 1])
  }

  /** The part of a look that arguments of kind `kind` replace. */
  function Part(look: Look, kind: ArgKind): StyleArg
    requires kind != OtherKind
  {
    match kind
    case StyleKind => look.style
    case ColorKind(bg) => if bg then look.colorbg else look.colorfg
  }

  /** `args[k]` is the last argument of kind `kind`. */
  predicate LastOfKind(args: seq<StyleArg>, k: int, kind: ArgKind) {
    && 0 <= k < |args| && args[k].kind == kind
    && forall j :: k < j < |args| ==> args[j].kind != kind
  }

  /** No argument has kind `kind`. */
  predicate NoneOfKind(args: seq<StyleArg>, kind: ArgKind) {
    forall j :: 0 <= j < |args| ==> args[j].kind != kind
  }

  /** One argument replaces the part of its own kind only. */
  lemma RoutePart(look: Look, arg: StyleArg, kind: ArgKind)
    requires kind != OtherKind
    ensures Part(Route(look, arg), kind) == if arg.kind == kind then arg else Part(look, kind)
  {
  }

  /** Each part ends as the last argument of its kind, and keeps its value
      when no argument has that kind; arguments of other kinds, and those
      that are neither styles nor colours, leave it alone. */
  lemma {:induction false} RoutedLast(look: Look, args: seq<StyleArg>, kind: ArgKind)
    requires kind != OtherKind
    ensures forall k :: LastOfKind(args, k, kind) ==> Part(Routed(look, args), kind) == args[k]
    ensures NoneOfKind(args, kind) ==> Part(Routed(look, args), kind) == Part(look, kind)
    decreases |args|
  {
    if args != [] {
      var init, last := args[..|args| - 1], args[|args| - 1];
      RoutedLast(look, init, kind);
      RoutePart(Routed(look, init), last, kind);
      forall k | LastOfKind(args, k, kind)
        ensures Part(Routed(look, args), kind) == args[k]
      {
        if k < |init| {
          assert LastOfKind(init, k, kind);
        }
      }
      if NoneOfKind(args, kind) {
        assert NoneOfKind(init, kind);
      }
    }
  }

  /** `VirtualStyle(*styles)` as written: the tuple of arguments is handed
      to `add_styles` as one argument, which is neither a `Style` nor a
      `Color`. */
  function InitialLookAsWritten(args: seq<StyleArg>): Look {
    Routed(DefaultLook, [StyleArg(OtherKind, |args|)])
  }

  /** `VirtualStyle(*styles)` with the arguments passed on one by one. */
  function InitialLook(args: seq<StyleArg>): Look {
    Routed(DefaultLook, args)
  }

  /** A bold `Style` given to the constructor is dropped as written. */
  lemma InitialLookDropsArgs()
    ensures InitialLookAsWritten([StyleArg(StyleKind, 7)]) == DefaultLook
    ensures InitialLook([StyleArg(StyleKind, 7)]) == Look(White, Black, StyleArg(StyleKind, 7))
  {
    assert [StyleArg(StyleKind, 7)][..0] == [];
    assert [StyleArg(OtherKind, 1)][..0] == [];
  }

  /** `VirtualStyle`: two colours and a style that `add_styles` replaces
      in place. */
  class VirtualStyle {
    var colorfg: StyleArg
    var colorbg: StyleArg
    var style: StyleArg

    function Snapshot(): Look
      reads this
    {
      Look(colorfg, colorbg, style)
    }

    /** `__init__(*styles)`, the arguments routed one by one. */
    constructor (args: seq<StyleArg>)
      ensures Snapshot() == InitialLook(args)
    {
      colorfg, colorbg, style := White, Black, Plain;
      new;
      AddStyles(args);
    }

    /** `add_styles(*styles)`. */
    method AddStyles(args: seq<StyleArg>)
      modifies this
      ensures Snapshot() == Routed(old(Snapshot()), args)
    {
      for i := 0 to |args|
        invariant Snapshot() == Routed(old(Snapshot()), args[..i])
      {
        match args[i].kind {
          case StyleKind => style := args[i];
          case ColorKind(bg) =>
            if bg {
              colorbg := args[i];
            } else {
              colorfg := args[i];
            }
          case OtherKind =>
        }
        assert args[..i + 1][..i] == args[..i];
      }
      assert args[..|args|] == args;
    }
  }

  /** `VirtualChar`: a character, the style it was written in, and
      whether the terminal has yet to show it. */
  datatype Cell = Cell(value: char, look: Look, dirty: bool)

  /** `VirtualChar()`: a space in the default style, dirty. */
  const Blank := Cell(' ', DefaultLook, true)

  /** The grid `[[VirtualChar() ...] ...]` of `h` rows of `w` cells. */
  function BlankGrid(w: nat, h: nat): (cells: seq<seq<Cell>>)
    ensures Shaped(cells, w, h)
    ensures forall y, x :: 0 <= y < h && 0 <= x < w ==> cells[y][x] == Blank
  {
    seq(h, y => seq(w, x => Blank))
  }

  /** `h` rows of `w` cells each. */
  predicate Shaped(cells: seq<seq<Cell>>, w: nat, h: nat) {
    |cells| == h && forall y :: 0 <= y < h ==> |cells[y]| == w
  }

  /** A Python list index `i` into a list of length `n`: negative indices
      count from the end, and anything else raises `IndexError`. */
  function PyIndex(i: int, n: nat): (r: Option<nat>)
    ensures r.Some? <==> -(n as int) <= i < n
    ensures r.Some? ==> r.value < n && (r.value == i || r.value == i + n)
  {
    if 0 <= i < n then Some(i) else if -(n as int) <= i < 0 then Some(i + n) else None
  }

  /** The cursor move at the end of `writech`: one column right, and past
      the last column to the first column of the next row, never below
      the last row. */
  function Advance(cursor: (int, int), w: int, h: int): (int, int) {
    var x := cursor.0 + 1;
    if x >= w then (0, Min(cursor.1 + 1, h - 1)) else (x, cursor.1)
  }

  /** The place of a cell in row-major order. */
  function Place(cursor: (int, int), w: int): int {
    cursor.1 * w + cursor.0
  }

  /** A cursor on a screen of at least one cell stays on it, moving to
      the next cell in row-major order, except that past the last cell it
      goes back to the start of the last row. */
  lemma AdvanceInBounds(cursor: (int, int), w: int, h: int)
    requires 0 <= cursor.0 < w && 0 <= cursor.1 < h
    ensures var next := Advance(cursor, w, h);
            && 0 <= next.0 < w && 0 <= next.1 < h
            && (Place(cursor, w) < w * h - 1 ==> Place(next, w) == Place(cursor, w) + 1)
            && (Place(cursor, w) == w * h - 1 ==> next == (0, h - 1))
  {
    var next := Advance(cursor, w, h);
    if cursor.0 + 1 >= w {
      if cursor.1 + 1 < h {
        assert Place(next, w) == (cursor.1 + 1) * w;
      } else {
        assert Place(cursor, w) == (h - 1) * w + w - 1 == w * h - 1;
      }
    } else {
      assert Place(cursor, w) < (cursor.1 + 1) * w <= w * h;
    }
  }

  /** The cells and the cursor of a `VirtualTerminal`. */
  datatype Screen = Screen(cells: seq<seq<Cell>>, cursor: (int, int))

  /** What writing leaves behind: the screen, and the error that stopped
      it, if any. */
  datatype Written = Written(screen: Screen, error: Option<Error>)

  /** `writech(ch)` on a screen the terminal reports `w` wide and `h` high:
      the cell under the cursor takes the character, a copy of the style
      and the dirty flag, and the cursor advances; a cursor off the grid
      raises `IndexError` and changes nothing. */
  function WriteChar(s: Screen, w: int, h: int, look: Look, ch: char): (r: Written)
    ensures r.error.Some? ==> r.error == Some(IndexError) && r.screen == s
    ensures r.error.None? <==>
              exists y, x :: PyIndex(s.cursor.1, |s.cells|) == Some(y) && PyIndex(s.cursor.0, |s.cells[y]|) == Some(x)
    ensures r.error.None? ==>
              && r.screen.cursor == Advance(s.cursor, w, h)
              && |r.screen.cells| == |s.cells|
              && (forall y :: 0 <= y < |s.cells| ==> |r.screen.cells[y]| == |s.cells[y]|)
              && exists y, x :: PyIndex(s.cursor.1, |s.cells|) == Some(y) && PyIndex(s.cursor.0, |s.cells[y]|) == Some(x) &&
                   r.screen.cells[y][x] == Cell(ch, look, true) &&
                   forall y', x' :: 0 <= y' < |s.cells| && 0 <= x' < |s.cells[y']| && (y', x') != (y, x) ==>
                     r.screen.cells[y'][x'] == s.cells[y'][x']
  {
    match PyIndex(s.cursor.1, |s.cells|)
    case None => Written(s, Some(IndexError))
    case Some(y) =>
      match PyIndex(s.cursor.0, |s.cells[y]|)
      case None => Written(s, Some(IndexError))
      case Some(x) =>
        var cells := s.cells[y := s.cells[y][x := Cell(ch, look, true)]];
        Written(Screen(cells, Advance(s.cursor, w, h)), None)
  }

  /** `writech` over each character of `text` in turn, stopping at the
      first error. */
  function WriteText(s: Screen, w: int, h: int, look: Look, text: string): Written
    decreases |text|
  {
    if text == [] then Written(s, None)
    else
      var r := WriteText(s, w, h, look, text[..|text| - 1]);
      if r.error.Some? then r else WriteChar(r.screen, w, h, look, text[|text| - 1])
  }

  /** Writing `a + b` is writing `a`, then `b` unless `a` failed. */
  lemma {:induction false} WriteTextAppend(s: Screen, w: int, h: int, look: Look, a: string, b: string)
    ensures WriteText(s, w, h, look, a + b) ==
              var r := WriteText(s, w, h, look, a);
              if r.error.Some? then r else WriteText(r.screen, w, h, look, b)
    decreases |b|
  {
    if b != [] {
      assert (a + b)[..|a + b| - 1] == a + b[..|b| - 1];
      assert (a + b)[|a + b| - 1] == b[|b| - 1];
      WriteTextAppend(s, w, h, look, a, b[..|b| - 1]);
    } else {
      assert a + b == a;
    }
  }

  /** On a grid shaped like the terminal with the cursor on it, writing
      never fails, keeps the shape and leaves the cursor on the grid. */
  lemma {:induction false} WriteTextInBounds(s: Screen, w: nat, h: nat, look: Look, text: string)
    requires Shaped(s.cells, w, h) && 0 <= s.cursor.0 < w && 0 <= s.cursor.1 < h
    ensures var r := WriteText(s, w, h, look, text);
            && r.error.None? && Shaped(r.screen.cells, w, h)
            && 0 <= r.screen.cursor.0 < w && 0 <= r.screen.cursor.1 < h
    decreases |text|
  {
    if text != [] {
      WriteTextInBounds(s, w, h, look, text[..|text| - 1]);
      var r := WriteText(s, w, h, look, text[..|text| - 1]);
      AdvanceInBounds(r.screen.cursor, w, h);
      assert PyIndex(r.screen.cursor.1, |r.screen.cells|) == Some(r.screen.cursor.1);
    }
  }

  /** What `refresh` sends the terminal: a cell drawn at `(x, y)` (the
      cursor move, the style and the character), or the flush. */
  datatype Sent = Drawn(x: nat, y: nat, look: Look, value: char) | Flushed

  /** The dirty cells among the first `|row|` of row `y`, left to right. */
  function RowDraws(y: nat, row: seq<Cell>): (r: seq<Sent>)
    ensures forall i :: 0 <= i < |r| ==> r[i].Drawn? && r[i].y == y && r[i].x < |row|
    ensures forall i, j :: 0 <= i < j < |r| ==> r[i].x < r[j].x
    ensures forall x :: 0 <= x < |row| ==>
              (row[x].dirty <==> Drawn(x, y, row[x].look, row[x].value) in r)
    ensures forall i :: 0 <= i < |r| ==> row[r[i].x].dirty && r[i] == Drawn(r[i].x, y, row[r[i].x].look, row[r[i].x].value)
    decreases |row|
  {
    if row == [] then []
    else
      var x := |row| - 1;
      var init := RowDraws(y, row[..x]);
      assert forall i :: 0 <= i < x ==> row[..x][i] == row[i];
      if row[x].dirty then init + [Drawn(x, y, row[x].look, row[x].value)] else init
  }

  /** The dirty cells of the first `|rows|` rows, in row-major order. */
  function DirtyDraws(rows: seq<seq<Cell>>): (r: seq<Sent>)
    ensures forall i :: 0 <= i < |r| ==> r[i].Drawn? && r[i].y < |rows| && r[i].x < |rows[r[i].y]|
    ensures forall i, j :: 0 <= i < j < |r| ==> r[i].y < r[j].y || (r[i].y == r[j].y && r[i].x < r[j].x)
    ensures forall y, x :: 0 <= y < |rows| && 0 <= x < |rows[y]| ==>
              (rows[y][x].dirty <==> Drawn(x, y, rows[y][x].look, rows[y][x].value) in r)
    ensures forall i :: 0 <= i < |r| ==> rows[r[i].y][r[i].x].dirty
    decreases |rows|
  {
    if rows == [] then []
    else
      var y := |rows| - 1;
      var init := DirtyDraws(rows[..y]);
      var last := RowDraws(y, rows[y]);
      assert forall k :: 0 <= k < y ==> rows[..y][k] == rows[k];
      init + last
  }

  /** Row `row` with every dirty flag cleared. */
  function CleanRow(row: seq<Cell>): (r: seq<Cell>)
    ensures |r| == |row|
    ensures forall x :: 0 <= x < |row| ==> r[x] == row[x].(dirty := false)
  {
    seq(|row|, x requires 0 <= x < |row| => row[x].(dirty := false))
  }

  /** The grid after `refresh`: every cell clean, nothing else changed. */
  function Cleaned(rows: seq<seq<Cell>>): (r: seq<seq<Cell>>)
    ensures |r| == |rows|
    ensures forall y :: 0 <= y < |rows| ==> r[y] == CleanRow(rows[y])
  {
    seq(|rows|, y requires 0 <= y < |rows| => CleanRow(rows[y]))
  }

  /** A row with no dirty cell draws nothing. */
  lemma {:induction false} RowDrawsClean(y: nat, row: seq<Cell>)
    requires forall x :: 0 <= x < |row| ==> !row[x].dirty
    ensures RowDraws(y, row) == []
    decreases |row|
  {
    if row != [] {
      var init := row[..|row| - 1];
      assert forall x :: 0 <= x < |init| ==> init[x] == row[x];
      RowDrawsClean(y, init);
    }
  }

  /** A second `refresh` straight after the first sends nothing but the
      flush. */
  lemma {:induction false} RefreshTwice(rows: seq<seq<Cell>>)
    ensures DirtyDraws(Cleaned(rows)) == []
    decreases |rows|
  {
    if rows != [] {
      var y := |rows| - 1;
      var clean := Cleaned(rows);
      RefreshTwice(rows[..y]);
      assert clean[..y] == Cleaned(rows[..y]);
      RowDrawsClean(y, clean[y]);
    }
  }

  /** `VirtualTerminal`: the grid, the cursor, the style characters are
      written in, and the terminal's size and what it has been sent. */
  class VirtualTerminal {
    /** `terminal.w` and `terminal.h`, as the last `resize` saw them. */
    var w: nat
    var h: nat
    /** `_buffer`, rows of cells. */
    var cells: seq<seq<Cell>>
    var cursor: (int, int)
    /** A copy of `_style`, which nothing here changes. */
    const look: Look
    /** What `refresh` has sent the terminal. */
    var sent: seq<Sent>

    ghost predicate Valid()
      reads this
    {
      Shaped(cells, w, h)
    }

    /** `__init__`: cursor at the origin, default style, and the grid of
        the terminal's size. */
    constructor (tw: nat, th: nat)
      ensures Valid()
      ensures w == tw && h == th && cells == BlankGrid(tw, th)
      ensures cursor == (0, 0) && look == DefaultLook && sent == []
    {
      w, h := tw, th;
      cursor := (0, 0);
      look := DefaultLook;
      sent := [];
      cells := BlankGrid(tw, th);
    }

    /** `resize`, the handler run when the terminal's size changes: a fresh
        grid of blank dirty cells; the cursor is left where it was. */
    method Resize(tw: nat, th: nat)
      modifies this
      ensures Valid()
      ensures w == tw && h == th && cells == BlankGrid(tw, th)
      ensures cursor == old(cursor) && sent == old(sent)
    {
      w, h := tw, th;
      cells := BlankGrid(tw, th);
    }

    /** `writech(ch)`. */
    method WriteCh(ch: char) returns (err: Option<Error>)
      requires Valid()
      modifies this
      ensures Valid()
      ensures Written(Screen(cells, cursor), err) == WriteChar(old(Screen(cells, cursor)), w, h, look, ch)
      ensures w == old(w) && h == old(h) && sent == old(sent)
    {
      var y := PyIndex(cursor.1, |cells|);
      if y.None? {
        return Some(IndexError);
      }
      var x := PyIndex(cursor.0, |cells[y.value]|);
      if x.None? {
        return Some(IndexError);
      }
      cells := cells[y.value := cells[y.value][x.value := Cell(ch, look, true)]];
      cursor := (cursor.0 + 1, cursor.1);
      if cursor.0 >= w {
        cursor := (0, Min(cursor.1 + 1, h - 1));
      }
      return None;
    }

    /** The characters of one thing through `writech`, in order,
        stopping at the first error. */
    method WriteThing(thing: string) returns (err: Option<Error>)
      requires Valid()
      modifies this
      ensures Valid()
      ensures Written(Screen(cells, cursor), err) == WriteText(old(Screen(cells, cursor)), w, h, look, thing)
      ensures w == old(w) && h == old(h) && sent == old(sent)
    {
      ghost var before := Screen(cells, cursor);
      for j := 0 to |thing|
        invariant Valid() && w == old(w) && h == old(h) && sent == old(sent)
        invariant Written(Screen(cells, cursor), None) == WriteText(before, w, h, look, thing[..j])
      {
        err := WriteCh(thing[j]);
        WriteTextStep(before, w, h, look, thing, j);
        if err.Some? {
          StopsWithin(before, w, h, look, thing, j + 1);
          return;
        }
      }
      assert thing[..|thing|] == thing;
      err := None;
    }

    /** `write(*things)`: each character of each thing through `writech`,
        in order. */
    method Write(things: seq<string>) returns (err: Option<Error>)
      requires Valid()
      modifies this
      ensures Valid()
      ensures Written(Screen(cells, cursor), err) == WriteText(old(Screen(cells, cursor)), w, h, look, Concat(things))
      ensures w == old(w) && h == old(h) && sent == old(sent)
    {
      ghost var start := Screen(cells, cursor);
      for i := 0 to |things|
        invariant Valid() && w == old(w) && h == old(h) && sent == old(sent)
        invariant Written(Screen(cells, cursor), None) == WriteText(start, w, h, look, Concat(things[..i]))
      {
        err := WriteThing(things[i]);
        WriteTextAppend(start, w, h, look, Concat(things[..i]), things[i]);
        ConcatAt(things, i);
        if err.Some? {
          StopsAtError(start, w, h, look, Concat(things[..i + 1]), Concat(things[i + 1..]));
          return;
        }
      }
      assert things[..|things|] == things;
      err := None;
    }

    /** `cursor_to(x, y)`: both coordinates must be on the terminal. */
    method CursorTo(x: int, y: int) returns (err: Option<Error>)
      modifies this
      ensures err.None? <==> 0 <= x < w && 0 <= y < h
      ensures err.Some? ==> err == Some(AssertionError) && cursor == old(cursor)
      ensures err.None? ==> cursor == (x, y)
      ensures w == old(w) && h == old(h) && cells == old(cells) && sent == old(sent)
    {
      if !(x >= 0 && y >= 0) {
        return Some(AssertionError);
      }
      if !(x < w && y < h) {
        return Some(AssertionError);
      }
      cursor := (x, y);
      return None;
    }

    /** The inner loop of `refresh` over row `y`: its dirty cells drawn
        left to right and made clean. */
    method RefreshRow(y: nat)
      requires Valid() && y < h
      modifies this
      ensures Valid()
      ensures cells == old(cells)[y := CleanRow(old(cells)[y])]
      ensures sent == old(sent) + RowDraws(y, old(cells)[y])
      ensures w == old(w) && h == old(h) && cursor == old(cursor)
    {
      ghost var row := cells[y];
      CleanedUpToNone(row);
      assert cells == old(cells)[y := CleanedUpTo(row, 0)];
      for x := 0 to w
        invariant w == old(w) && h == old(h) && cursor == old(cursor)
        invariant cells == old(cells)[y := CleanedUpTo(row, x)]
        invariant sent == old(sent) + RowDraws(y, row[..x])
      {
        CleanedUpToStep(row, x);
        RowDrawsStep(old(sent), y, row, x);
        RefreshCell(y, x);
        if row[x].dirty {
          UpdateTwice(old(cells), y, CleanedUpTo(row, x), CleanedUpTo(row, x + 1));
        }
      }
      assert row[..w] == row;
      CleanedUpToAll(row);
    }

    /** The body of the inner loop of `refresh`: a dirty cell is drawn
        and made clean; a clean one is left alone. */
    method RefreshCell(y: nat, x: nat)
      requires y < |cells| && x < |cells[y]|
      modifies this
      ensures old(cells)[y][x].dirty ==>
                && cells == old(cells)[y := old(cells)[y][x := old(cells)[y][x].(dirty := false)]]
                && sent == old(sent) + [Drawn(x, y, old(cells)[y][x].look, old(cells)[y][x].value)]
      ensures !old(cells)[y][x].dirty ==> cells == old(cells) && sent == old(sent)
      ensures w == old(w) && h == old(h) && cursor == old(cursor)
    {
      var cell := cells[y][x];
      if cell.dirty {
        sent := sent + [Drawn(x, y, cell.look, cell.value)];
        cells := cells[y := cells[y][x := cell.(dirty := false)]];
      }
    }

    /** `refresh`: every dirty cell, row by row, is drawn and made clean;
        then the terminal is flushed. */
    method Refresh()
      requires Valid()
      modifies this
      ensures Valid()
      ensures sent == old(sent) + DirtyDraws(old(cells)) + [Flushed]
      ensures cells == Cleaned(old(cells))
      ensures w == old(w) && h == old(h) && cursor == old(cursor)
    {
      ghost var start := cells;
      for y := 0 to h
        invariant Valid() && w == old(w) && h == old(h) && cursor == old(cursor)
        invariant forall k :: 0 <= k < y ==> cells[k] == CleanRow(start[k])
        invariant forall k :: y <= k < h ==> cells[k] == start[k]
        invariant sent == old(sent) + DirtyDraws(start[..y])
      {
        ghost var before := sent;
        assert cells[y] == start[y];
        RefreshRow(y);
        assert sent == before + RowDraws(y, start[y]);
        DrawsStep(old(sent), start, y);
      }
      assert start[..h] == start;
      CleanedRows(start, cells);
      sent := sent + [Flushed];
    }
  }

  /** Refreshing one more row appends that row's draws. */
  /** A second update of the same row overrides the first. */
  lemma UpdateTwice(rows: seq<seq<Cell>>, y: nat, a: seq<Cell>, b: seq<Cell>)
    requires y < |rows|
    ensures rows[y := a][y := b] == rows[y := b]
  {
  }

  /** Row `row` with the dirty flags of its first `x` cells cleared. */
  function CleanedUpTo(row: seq<Cell>, x: nat): (r: seq<Cell>)
    requires x <= |row|
    ensures |r| == |row|
  {
    CleanRow(row[..x]) + row[x..]
  }

  /** Clearing cell `x` of a row cleaned up to `x` cleans it up to `x + 1`. */
  lemma CleanedUpToStep(row: seq<Cell>, x: nat)
    requires x < |row|
    ensures CleanedUpTo(row, x)[x] == row[x]
    ensures CleanedUpTo(row, x + 1) == CleanedUpTo(row, x)[x := row[x].(dirty := false)]
    ensures !row[x].dirty ==> CleanedUpTo(row, x + 1) == CleanedUpTo(row, x)
  {
  }

  /** A row cleaned up to nothing is the row itself. */
  lemma CleanedUpToNone(row: seq<Cell>)
    ensures CleanedUpTo(row, 0) == row
  {
    assert row[0..] == row;
  }

  /** A row cleaned up to its end is the cleaned row. */
  lemma CleanedUpToAll(row: seq<Cell>)
    ensures CleanedUpTo(row, |row|) == CleanRow(row)
  {
  }

  lemma RowDrawsStep(prefix: seq<Sent>, y: nat, row: seq<Cell>, x: nat)
    requires x < |row|
    ensures prefix + RowDraws(y, row[..x + 1]) ==
            if row[x].dirty then prefix + RowDraws(y, row[..x]) + [Drawn(x, y, row[x].look, row[x].value)]
            else prefix + RowDraws(y, row[..x])
  {
    assert row[..x + 1][..x] == row[..x];
  }

  lemma DrawsStep(prefix: seq<Sent>, rows: seq<seq<Cell>>, y: nat)
    requires y < |rows|
    ensures prefix + DirtyDraws(rows[..y]) + RowDraws(y, rows[y]) == prefix + DirtyDraws(rows[..y + 1])
  {
    assert rows[..y + 1][..y] == rows[..y];
  }

  /** A grid whose every row is the cleaned row of `rows` is `Cleaned(rows)`. */
  lemma CleanedRows(rows: seq<seq<Cell>>, cells: seq<seq<Cell>>)
    requires |cells| == |rows|
    requires forall k :: 0 <= k < |rows| ==> cells[k] == CleanRow(rows[k])
    ensures cells == Cleaned(rows)
  {
  }

  /** Writing one more character of `text`: its prefix, then that
      character unless the prefix failed. */
  lemma WriteTextStep(s: Screen, w: int, h: int, look: Look, text: string, j: nat)
    requires j < |text|
    ensures WriteText(s, w, h, look, text[..j + 1]) ==
              var r := WriteText(s, w, h, look, text[..j]);
              if r.error.Some? then r else WriteChar(r.screen, w, h, look, text[j])
  {
    assert text[..j + 1][..j] == text[..j];
  }

  /** A prefix of `text` that failed decides the whole of `text`. */
  lemma StopsWithin(s: Screen, w: int, h: int, look: Look, text: string, j: nat)
    requires j <= |text|
    requires WriteText(s, w, h, look, text[..j]).error.Some?
    ensures WriteText(s, w, h, look, text) == WriteText(s, w, h, look, text[..j])
  {
    StopsAtError(s, w, h, look, text[..j], text[j..]);
    assert text[..j] + text[j..] == text;
  }

  /** A write that failed stays failed whatever comes after it. */
  lemma {:induction false} StopsAtError(s: Screen, w: int, h: int, look: Look, a: string, b: string)
    requires WriteText(s, w, h, look, a).error.Some?
    ensures WriteText(s, w, h, look, a + b) == WriteText(s, w, h, look, a)
  {
    WriteTextAppend(s, w, h, look, a, b);
  }

  /** The characters of `things` up to item `i` and after it. */
  lemma ConcatAt(things: seq<string>, i: nat)
    requires i < |things|
    ensures Concat(things[..i + 1]) == Concat(things[..i]) + things[i]
    ensures Concat(things) == Concat(things[..i + 1]) + Concat(things[i + 1..])
  {
    ConcatLast(things[..i + 1]);
    assert things[..i + 1][..i] == things[..i];
    ConcatSplit(things, i + 1);
  }

  lemma ConcatLast(parts: seq<string>)
    requires parts != []
    ensures Concat(parts) == Concat(parts[..|parts| - 1]) + parts[|parts| - 1]
  {
  }

  lemma ConcatSplit(things: seq<string>, k: nat)
    requires k <= |things|
    ensures Concat(things) == Concat(things[..k]) + Concat(things[k..])
  {
    assert things == things[..k] + things[k..];
    ConcatAppend(things[..k], things[k..]);
  }
}
