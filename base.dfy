/** The box filling of adaptors/base.py (and terminal.py, which repeats
    it): for each row of the box on screen, move the cursor to the box's
    first visible column and write a run of the fill string. */
module Base {
  import opened Text
  import opened Vt100

  function Max(a: int, b: int): int { if a >= b then a else b }

  function Min(a: int, b: int): int { if a <= b then a else b }

  /** `range(lo, hi)`. */
  function Span(lo: int, hi: int): (rows: seq<int>)
    ensures |rows| == if hi <= lo then 0 else hi - lo
    ensures forall k :: 0 <= k < |rows| ==> rows[k] == lo + k
  {
    if hi <= lo then [] else seq(hi - lo, k requires 0 <= k < hi - lo => lo + k)
  }

  /** The writes of the row loop: `cursor_to(col, row)`, then `run`, for
      each row in turn. */
  function Draws(col: int, rows: seq<int>, run: string): seq<string>
    decreases |rows|
  {
    if rows == [] then []
    else Draws(col, rows[..|rows| - 1], run) + CursorToPieces(col, rows[|rows| - 1]) + [run]
  }

  /** One more row of the loop appends its move and its run. */
  lemma DrawsNextRow(prefix: seq<string>, col: int, lo: int, i: int, run: string)
    requires lo <= i
    ensures prefix + Draws(col, Span(lo, i), run) + CursorToPieces(col, i) + [run] ==
            prefix + Draws(col, Span(lo, i + 1), run)
  {
    assert Span(lo, i + 1)[..i - lo] == Span(lo, i);
  }

  /** Row `k` of the box is the cursor move to `(col, rows[k])` followed by
      the run, at six pieces per row. */
  lemma {:induction false} DrawsShape(col: int, rows: seq<int>, run: string)
    ensures |Draws(col, rows, run)| == 6 * |rows|
    ensures forall k :: 0 <= k < |rows| ==>
              Draws(col, rows, run)[6 * k..6 * k + 6] == CursorToPieces(col, rows[k]) + [run]
    decreases |rows|
  {
    if rows != [] {
      var init := rows[..|rows| - 1];
      DrawsShape(col, init, run);
      var d := Draws(col, rows, run);
      var d0 := Draws(col, init, run);
      assert d == d0 + (CursorToPieces(col, rows[|rows| - 1]) + [run]);
      forall k | 0 <= k < |rows|
        ensures d[6 * k..6 * k + 6] == CursorToPieces(col, rows[k]) + [run]
      {
        if k < |init| {
          assert d[6 * k..6 * k + 6] == d0[6 * k..6 * k + 6];
          assert init[k] == rows[k];
        } else {
          assert d[6 * k..6 * k + 6] == CursorToPieces(col, rows[|rows| - 1]) + [run];
        }
      }
    }
  }

  /** `fill_box` as written: rows stop at the width `self.w`, and the run
      is `min(min(w, w + x), self.w - x)` long. */
  function FillBoxPiecesAsWritten(x: int, y: int, bw: int, bh: int, ch: string, selfW: int): seq<string> {
    Draws(Max(x, 0), Span(Max(y, 0), Min(selfW, y + bh)), Repeat(ch, Min(Min(bw, bw + x), selfW - x)))
  }

  /** The length of the visible part of columns `x .. x + bw - 1` on a
      screen `screenW` wide. */
  function FillRun(x: int, bw: int, screenW: int): int {
    Min(bw + Min(x, 0), screenW - Max(x, 0))
  }

  /** `fill_box` with rows bounded by the height and the run measured from
      the first visible column. */
  function FillBoxPieces(x: int, y: int, bw: int, bh: int, ch: string, screenW: int, screenH: int): seq<string> {
    Draws(Max(x, 0), Span(Max(y, 0), Min(screenH, y + bh)), Repeat(ch, FillRun(x, bw, screenW)))
  }

  /** Row `r` belongs to the box and is on the screen. */
  predicate BoxRow(r: int, y: int, bh: int, screenH: int) {
    y <= r < y + bh && 0 <= r < screenH
  }

  /** Column `c` belongs to the box and is on the screen. */
  predicate BoxColumn(c: int, x: int, bw: int, screenW: int) {
    x <= c < x + bw && 0 <= c < screenW
  }

  /** Column `c` is covered by the run written from the first visible
      column. */
  predicate RunColumn(c: int, x: int, bw: int, screenW: int) {
    Max(x, 0) <= c < Max(x, 0) + FillRun(x, bw, screenW)
  }

  /** The rows filled are exactly the rows of the box that are on the
      screen. */
  lemma FillBoxRows(y: int, bh: int, screenH: int)
    ensures forall r :: r in Span(Max(y, 0), Min(screenH, y + bh)) <==> BoxRow(r, y, bh, screenH)
  {
    var rows := Span(Max(y, 0), Min(screenH, y + bh));
    forall r | BoxRow(r, y, bh, screenH)
      ensures r in rows
    {
      assert rows[r - Max(y, 0)] == r;
    }
  }

  /** The run covers exactly the columns of the box that are on the
      screen, starting at the first of them. */
  lemma FillBoxColumns(x: int, bw: int, screenW: int)
    ensures forall c :: RunColumn(c, x, bw, screenW) <==> BoxColumn(c, x, bw, screenW)
  {
    if x < 0 {
      assert FillRun(x, bw, screenW) == Min(bw + x, screenW);
    } else {
      assert FillRun(x, bw, screenW) == Min(bw, screenW - x);
    }
  }

  /** On a screen 80 wide and 24 high, a box 10 high from row 20 gets ten
      rows as written, the last of them row 29, below the screen; bounded
      by the height it gets the four rows 20 to 23. */
  lemma FillBoxAsWrittenRowsOverflow()
    ensures |FillBoxPiecesAsWritten(0, 20, 10, 10, "#", 80)| == 6 * 10
    ensures FillBoxPiecesAsWritten(0, 20, 10, 10, "#", 80)[54..60] == CursorToPieces(0, 29) + [Repeat("#", 10)]
    ensures |FillBoxPieces(0, 20, 10, 10, "#", 80, 24)| == 6 * 4
  {
    var rows := Span(20, 30);
    assert rows[9] == 29;
    DrawsShape(0, rows, Repeat("#", 10));
    DrawsShape(0, Span(20, 24), Repeat("#", 10));
  }

  /** A box 100 wide from column -2 on a screen 80 wide gets runs of 82
      as written, two columns more than the screen has. */
  lemma FillBoxAsWrittenRunOverflow()
    ensures FillBoxPiecesAsWritten(-2, 0, 100, 1, "#", 80) == CursorToPieces(0, 0) + [Repeat("#", 82)]
    ensures FillBoxPieces(-2, 0, 100, 1, "#", 80, 24) == CursorToPieces(0, 0) + [Repeat("#", 80)]
  {
    assert Span(0, 1) == [0];
    assert [0][..0] == [];
  }

  /** With `self.w == 0`, as every adaptor has, nothing is filled. */
  lemma FillBoxZeroWidth(x: int, y: int, bw: int, bh: int, ch: string)
    ensures FillBoxPiecesAsWritten(x, y, bw, bh, ch, 0) == []
    ensures FillBoxPieces(x, y, bw, bh, ch, 0, 0) == []
  {
  }
}
