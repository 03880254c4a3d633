/** The Unix adaptor: the write buffer of adaptors/base.py, the escape
    methods of adaptors/vt100.py and the cbreak flag, cursor query and
    size detection of adaptors/unix.py, in one class, as the class
    `UnixAdaptor` inherits them. adaptors/__init__.py selects
    `VT100Adaptor` instead as the platform adaptor, so nothing in the
    library builds this one; the model puts it behind `Terminal` in its
    place (module Terminals). The terminal device is the log `output` of the strings
    each flush emits; what the terminal answers comes in as parameters. */
module Adaptors {
  import opened Wrappers
  import opened Text
  import opened Constants
  import opened Vt100
  import opened Base
  import opened Unix
  import Colors

  /** What one try of `get_size` writes before it reads: save the cursor,
      send it to the far corner, ask for its position. */
  function ProbePieces(): seq<string> {
    SavePieces + CursorToPieces(9999, 9999) + [CSI, "6n"]
  }

  /** The flushes of `n` tries of `get_size`: the first one also carries
      what was buffered before. */
  function ProbeFlushes(first: seq<string>, n: nat): (r: seq<string>)
    ensures |r| == n
    ensures n > 0 ==> r[0] == Concat(first + ProbePieces())
    ensures forall k :: 0 < k < n ==> r[k] == Concat(ProbePieces())
  {
    if n == 0 then []
    else if n == 1 then [Concat(first + ProbePieces())]
    else ProbeFlushes(first, n - 1) + [Concat(ProbePieces())]
  }

  lemma ProbeFlushesNext(first: seq<string>, n: nat)
    ensures ProbeFlushes(first, n) + [Concat((if n == 0 then first else []) + ProbePieces())] == ProbeFlushes(first, n + 1)
  {
    if n > 0 {
      assert [] + ProbePieces() == ProbePieces();
    }
  }

  /** `n` copies of `pieces`, one after the other. */
  function Repeated(pieces: seq<string>, n: nat): (r: seq<string>)
    ensures |r| == n * |pieces|
  {
    if n == 0 then [] else Repeated(pieces, n - 1) + pieces
  }

  lemma RepeatedNext(first: seq<string>, pieces: seq<string>, n: nat)
    ensures first + Repeated(pieces, n) + pieces == first + Repeated(pieces, n + 1)
  {
  }

  /** How many tries of the counted `get_size` loop write and flush a
      query: up to the first answer that parses, one more for the try that
      waits when the answers run out, at most `tries`. */
  function SizeTries(answers: seq<string>, tries: nat): (n: nat)
    ensures n <= tries
  {
    if tries == 0 then 0
    else if answers == [] || SizeOf(answers[0]).Success? then 1
    else 1 + SizeTries(answers[1..], tries - 1)
  }

  class Adaptor {
    /** `_buffer`: the strings written since the last flush. */
    var buffer: seq<string>
    /** What each flush has emitted, in order. */
    var output: seq<string>
    /** `w` and `h` of the base class; nothing assigns them after `__init__`. */
    var w: int
    var h: int
    var colorMode: Colors.ColorMode
    var cursorVisible: bool
    /** `_mouse`: the mouse mode, `None` when off. */
    var mouse: Option<string>
    /** `_cbreak`: `None` until `set_cbreak` first runs, since no
        constructor assigns it and reading it raises `AttributeError`. */
    var cbreak: Option<bool>

    /** Everything but the buffer, the log and the cbreak flag. */
    ghost function Modes(): (Colors.ColorMode, bool, Option<string>, int, int)
      reads this
    {
      (colorMode, cursorVisible, mouse, w, h)
    }

    constructor ()
      ensures buffer == [] && output == [] && w == 0 && h == 0
      ensures colorMode == Colors.Mode256 && !cursorVisible && mouse.None? && cbreak.None?
    {
      buffer := [];
      output := [];
      w := 0;
      h := 0;
      colorMode := Colors.Mode256;
      cursorVisible := false;
      mouse := None;
      cbreak := None;
    }

    /** `write(*things)`: one string per argument, in order. */
    method Write(things: seq<string>)
      modifies this
      ensures buffer == old(buffer) + things
      ensures output == old(output) && cbreak == old(cbreak) && Modes() == old(Modes())
    {
      buffer := buffer + things;
    }

    /** `writeln(*things)`: `write(*things, "\n")`. */
    method WriteLn(things: seq<string>)
      modifies this
      ensures buffer == old(buffer) + things + ["\n"]
      ensures output == old(output) && cbreak == old(cbreak) && Modes() == old(Modes())
    {
      Write(things + ["\n"]);
    }

    /** `flush`: emit the buffer joined, then empty it. */
    method Flush()
      modifies this
      ensures output == old(output) + [Concat(old(buffer))] && buffer == []
      ensures cbreak == old(cbreak) && Modes() == old(Modes())
    {
      output := output + [Concat(buffer)];
      buffer := [];
    }

    /** `fill_box(x, y, w, h, ch)`, its rows bounded by the height. */
    method FillBox(x: int, y: int, bw: int, bh: int, ch: string)
      modifies this
      ensures buffer == old(buffer) + FillBoxPieces(x, y, bw, bh, ch, w, h)
      ensures output == old(output) && cbreak == old(cbreak) && Modes() == old(Modes())
    {
      var col := Max(x, 0);
      var lo, hi := Max(y, 0), Min(h, y + bh);
      var run := Repeat(ch, FillRun(x, bw, w));
      var i := lo;
      while i < hi
        invariant lo <= i && (i <= hi || i == lo)
        invariant buffer == old(buffer) + Draws(col, Span(lo, i), run)
        invariant output == old(output) && cbreak == old(cbreak) && Modes() == old(Modes())
        decreases hi - i
      {
        CursorTo(col, i);
        Write([run]);
        DrawsNextRow(old(buffer), col, lo, i, run);
        i := i + 1;
      }
      assert Span(lo, i) == Span(lo, hi);
    }

    /** `clear_box`: `fill_box` with spaces. */
    method ClearBox(x: int, y: int, bw: int, bh: int)
      modifies this
      ensures buffer == old(buffer) + FillBoxPieces(x, y, bw, bh, " ", w, h)
      ensures output == old(output) && cbreak == old(cbreak) && Modes() == old(Modes())
    {
      FillBox(x, y, bw, bh, " ");
    }

    /** `mouse_enable(mode)`: needs cbreak and a known mode; writes the
        mode and UTF-8 reporting, and flushes. */
    method MouseEnable(mode: string) returns (err: Option<Error>)
      modifies this
      ensures old(cbreak).None? ==> err == Some(AttributeError)
      ensures old(cbreak) == Some(false) ==> err == Some(ValueError)
      ensures old(cbreak) == Some(true) && mode !in MouseModes ==> err == Some(AssertionError)
      ensures err.Some? ==> buffer == old(buffer) && output == old(output) && mouse == old(mouse)
      ensures err.None? <==> old(cbreak) == Some(true) && mode in MouseModes
      ensures err.None? ==>
                && mouse == Some(mode)
                && output == old(output) + [Concat(old(buffer) + MouseOnPieces(mode))]
                && buffer == []
      ensures cbreak == old(cbreak) && colorMode == old(colorMode)
      ensures cursorVisible == old(cursorVisible) && w == old(w) && h == old(h)
    {
      if cbreak.None? {
        return Some(AttributeError);
      }
      if !cbreak.value {
        return Some(ValueError);
      }
      if mode !in MouseModes {
        return Some(AssertionError);
      }
      mouse := Some(mode);
      Write([CSI, MouseModes[mode]]);
      Write([CSI, "?1005h"]);
      assert old(buffer) + [CSI, MouseModes[mode]] + [CSI, "?1005h"] == old(buffer) + MouseOnPieces(mode);
      Flush();
      return None;
    }

    /** `mouse_disable`: nothing without a mode; otherwise write the three
        resets, flush and forget the mode. */
    method MouseDisable()
      modifies this
      ensures old(mouse).None? ==> buffer == old(buffer) && output == old(output)
      ensures old(mouse).Some? ==> output == old(output) + [Concat(old(buffer) + MouseOffPieces)] && buffer == []
      ensures mouse.None? && cbreak == old(cbreak) && colorMode == old(colorMode)
      ensures cursorVisible == old(cursorVisible) && w == old(w) && h == old(h)
    {
      if mouse.None? {
        return;
      }
      Write([CSI, "?1001l"]);
      Write([CSI, "?1002l"]);
      Write([CSI, "?1003l"]);
      assert old(buffer) + [CSI, "?1001l"] + [CSI, "?1002l"] + [CSI, "?1003l"] == old(buffer) + MouseOffPieces;
      Flush();
      mouse := None;
    }

    /** `set_color_mode(mode)`: anything but a colour mode (`None` here)
        is a `ValueError` and changes nothing. */
    method SetColorMode(mode: Option<Colors.ColorMode>) returns (err: Option<Error>)
      modifies this
      ensures mode.None? ==> err == Some(ValueError) && colorMode == old(colorMode)
      ensures mode.Some? ==> err.None? && colorMode == mode.value
      ensures buffer == old(buffer) && output == old(output) && cbreak == old(cbreak)
      ensures cursorVisible == old(cursorVisible) && mouse == old(mouse) && w == old(w) && h == old(h)
    {
      if mode.None? {
        return Some(ValueError);
      }
      colorMode := mode.value;
      return None;
    }

    /** `clear`. */
    method Clear()
      modifies this
      ensures buffer == old(buffer) + ClearPieces
      ensures output == old(output) && cbreak == old(cbreak) && Modes() == old(Modes())
    {
      Write(ClearPieces);
    }

    /** `clear_line`: to the start of the line, then erase it. */
    method ClearLine()
      modifies this
      ensures buffer == old(buffer) + ClearLinePieces
      ensures output == old(output) && cbreak == old(cbreak) && Modes() == old(Modes())
    {
      CursorToStart();
      Write([CSI, "2K"]);
    }

    /** `clear_to_end`. */
    method ClearToEnd()
      modifies this
      ensures buffer == old(buffer) + ClearToEndPieces
      ensures output == old(output) && cbreak == old(cbreak) && Modes() == old(Modes())
    {
      Write(ClearToEndPieces);
    }

    /** `reset`: flush, leave cbreak, turn the mouse off, reset the style,
        show the cursor, flush again. */
    method Reset()
      modifies this
      ensures output == old(output) + [Concat(old(buffer))] +
                        (if old(mouse).Some? then [Concat(MouseOffPieces)] else []) +
                        [Concat(StyleResetPieces + VisiblePieces(true))]
      ensures buffer == [] && cbreak == Some(false) && mouse.None? && cursorVisible
      ensures colorMode == old(colorMode) && w == old(w) && h == old(h)
    {
      Flush();
      SetCbreak(false);
      MouseDisable();
      assert [] + MouseOffPieces == MouseOffPieces;
      StyleReset();
      CursorSetVisible(true);
      assert [] + StyleResetPieces + VisiblePieces(true) == StyleResetPieces + VisiblePieces(true);
      Flush();
    }

    /** `cursor_set_visible(visible)`. */
    method CursorSetVisible(visible: bool)
      modifies this
      ensures buffer == old(buffer) + VisiblePieces(visible) && cursorVisible == visible
      ensures output == old(output) && cbreak == old(cbreak) && colorMode == old(colorMode)
      ensures mouse == old(mouse) && w == old(w) && h == old(h)
    {
      Write(VisiblePieces(visible));
      cursorVisible := visible;
    }

    /** `cursor_save`. */
    method CursorSave()
      modifies this
      ensures buffer == old(buffer) + SavePieces
      ensures output == old(output) && cbreak == old(cbreak) && Modes() == old(Modes())
    {
      Write(SavePieces);
    }

    /** `cursor_restore`. */
    method CursorRestore()
      modifies this
      ensures buffer == old(buffer) + RestorePieces
      ensures output == old(output) && cbreak == old(cbreak) && Modes() == old(Modes())
    {
      Write(RestorePieces);
    }

    /** `cursor_to(x, y)`. */
    method CursorTo(x: int, y: int)
      modifies this
      ensures buffer == old(buffer) + CursorToPieces(x, y)
      ensures output == old(output) && cbreak == old(cbreak) && Modes() == old(Modes())
    {
      Write(CursorToPieces(x, y));
    }

    /** `cursor_to_x(x)`. */
    method CursorToX(x: int)
      modifies this
      ensures buffer == old(buffer) + CursorToXPieces(x)
      ensures output == old(output) && cbreak == old(cbreak) && Modes() == old(Modes())
    {
      Write(CursorToXPieces(x));
    }

    /** `cursor_move(x, y)`, the vertical count taken from `y`. */
    method CursorMove(x: int, y: int)
      modifies this
      ensures buffer == old(buffer) + CursorMovePieces(x, y)
      ensures output == old(output) && cbreak == old(cbreak) && Modes() == old(Modes())
    {
      if x < 0 {
        Write([CSI, IntToString(-x), "D"]);
      } else if x > 0 {
        Write([CSI, IntToString(x), "C"]);
      }
      if y < 0 {
        Write([CSI, IntToString(-y), "A"]);
      } else if y > 0 {
        Write([CSI, IntToString(y), "B"]);
      }
      assert old(buffer) + MoveXPieces(x) + MoveYPieces(y) == old(buffer) + CursorMovePieces(x, y);
    }

    /** `cursor_to_start`. */
    method CursorToStart()
      modifies this
      ensures buffer == old(buffer) + CursorToStartPieces
      ensures output == old(output) && cbreak == old(cbreak) && Modes() == old(Modes())
    {
      Write(CursorToStartPieces);
    }

    /** `style_reset`. */
    method StyleReset()
      modifies this
      ensures buffer == old(buffer) + StyleResetPieces
      ensures output == old(output) && cbreak == old(cbreak) && Modes() == old(Modes())
    {
      Write(StyleResetPieces);
    }

    /** `set_cbreak(c)`: the terminal attributes are left out; the flag is
        recorded. */
    method SetCbreak(c: bool)
      modifies this
      ensures cbreak == Some(c)
      ensures buffer == old(buffer) && output == old(output) && Modes() == old(Modes())
    {
      cbreak := Some(c);
    }

    /** `readch`: the next input character, only in cbreak mode. */
    method ReadCh(next: char) returns (r: Result<char>)
      ensures old(cbreak).None? ==> r == Failure(AttributeError)
      ensures old(cbreak) == Some(false) ==> r == Failure(ValueError)
      ensures old(cbreak) == Some(true) ==> r == Success(next)
    {
      if cbreak.None? {
        return Failure(AttributeError);
      }
      if !cbreak.value {
        return Failure(ValueError);
      }
      return Success(next);
    }

    /** `cursor_get_pos`: enter cbreak mode if needed (never leaving it
        again), ask with DSR 6, flush, and parse the answer; `reply` is
        the group the input daemon hands back, `None` while none comes,
        which leaves the call blocked (result `None`). */
    method CursorGetPos(reply: Option<string>) returns (r: Option<Result<(int, int)>>)
      modifies this
      ensures old(cbreak).None? ==>
                r == Some(Failure(AttributeError)) && buffer == old(buffer) && output == old(output) && cbreak.None?
      ensures old(cbreak).Some? ==>
                && cbreak == Some(true)
                && output == old(output) + [Concat(old(buffer) + [CSI, "6n"])]
                && buffer == []
                && r == (if reply.None? then None else Some(ParseCpr(reply.value)))
      ensures Modes() == old(Modes())
    {
      if cbreak.None? {
        return Some(Failure(AttributeError));
      }
      if !cbreak.value {
        SetCbreak(true);
      }
      Write([CSI, "6n"]);
      Flush();
      if reply.None? {
        return None;
      }
      return Some(ParseCpr(reply.value));
    }

    /** One try of `f` inside `get_size`, up to the parse of the answer:
        save the cursor, send it to the far corner, ask for its position. */
    method SizeTry(reply: Option<string>) returns (pos: Option<Result<(int, int)>>)
      modifies this
      ensures old(cbreak).None? ==>
                && pos == Some(Failure(AttributeError)) && cbreak.None? && output == old(output)
                && buffer == old(buffer) + (SavePieces + CursorToPieces(9999, 9999))
      ensures old(cbreak).Some? ==>
                && cbreak == Some(true)
                && output == old(output) + [Concat(old(buffer) + ProbePieces())]
                && buffer == []
                && pos == (if reply.None? then None else Some(ParseCpr(reply.value)))
      ensures Modes() == old(Modes())
    {
      CursorSave();
      CursorTo(9999, 9999);
      ghost var before := buffer;
      pos := CursorGetPos(reply);
      assert before + [CSI, "6n"] == old(buffer) + ProbePieces();
    }

    /** Where the loop of `get_size` stands after `tries` failed tries,
        from the buffer `ob`, output `oo` and cbreak flag `ocb` it started
        with: without the flag each try stops at the query and leaves its
        writes in the buffer; with it each try flushes the query and the
        answers read so far have failed to parse. */
    ghost predicate TriesFailed(ob: seq<string>, oo: seq<string>, ocb: Option<bool>, replies: seq<string>, tries: nat)
      reads this
    {
      && (ocb.None? ==>
            && cbreak.None? && output == oo
            && buffer == ob + Repeated(SavePieces + CursorToPieces(9999, 9999), tries))
      && (ocb.Some? ==>
            && cbreak.Some? && (tries > 0 ==> cbreak == Some(true))
            && tries <= |replies|
            && (forall k :: 0 <= k < tries ==> SizeOf(replies[k]).Failure?)
            && output == oo + ProbeFlushes(ob, tries)
            && buffer == (if tries == 0 then ob else []))
    }

    /** The end of a try that stops the loop of `get_size`: no answer
        left to read, or one that parses, after which the cursor is
        restored and the size returned. */
    method SizeStop(replies: seq<string>, tries: nat, pos: Option<Result<(int, int)>>, ghost ob: seq<string>, ghost oo: seq<string>)
      returns (r: SizeOutcome)
      requires tries < 3 && tries <= |replies|
      requires forall k :: 0 <= k < tries ==> SizeOf(replies[k]).Failure?
      requires pos.None? ==> tries == |replies|
      requires pos.Some? ==> tries < |replies| && pos.value == ParseCpr(replies[tries]) && pos.value.Success?
      requires cbreak == Some(true) && output == oo + ProbeFlushes(ob, tries + 1) && buffer == []
      modifies this
      ensures r == SizeLoop(replies, 3)
      ensures cbreak == Some(true)
      ensures output == oo + ProbeFlushes(ob, SizeTries(replies, 3))
      ensures buffer == (if r.Sized? then RestorePieces else [])
      ensures Modes() == old(Modes())
    {
      SizeTriesAt(replies, 3, tries);
      if pos.None? {
        SizeLoopWaits(replies, 3);
        return Pending;
      }
      SizeLoopFirst(replies, 3, tries);
      CursorRestore();
      var p := pos.value.value;
      return Sized(p.0 + 1, p.1 + 1);
    }

    /** One turn of the loop of `get_size`: the try, then the stop when
        it ends the loop. */
    method SizeRound(replies: seq<string>, tries: nat, ghost ob: seq<string>, ghost oo: seq<string>, ghost ocb: Option<bool>)
      returns (done: Option<SizeOutcome>)
      requires tries < 3 && TriesFailed(ob, oo, ocb, replies, tries)
      modifies this
      ensures done.None? ==> TriesFailed(ob, oo, ocb, replies, tries + 1)
      ensures done.Some? ==>
                && ocb.Some?
                && done.value == SizeLoop(replies, 3)
                && cbreak == Some(true)
                && output == oo + ProbeFlushes(ob, SizeTries(replies, 3))
                && buffer == (if done.value.Sized? then RestorePieces else [])
      ensures Modes() == old(Modes())
    {
      var reply := if tries < |replies| then Some(replies[tries]) else None;
      var pos := SizeTry(reply);
      ProbeFlushesNext(ob, tries);
      RepeatedNext(ob, SavePieces + CursorToPieces(9999, 9999), tries);
      if pos.None? || pos.value.Success? {
        var r := SizeStop(replies, tries, pos, ob, oo);
        return Some(r);
      }
      return None;
    }

    /** `get_size`, its retry loop counting `tries`: each try saves the
        cursor, sends it to the far corner and asks where it is; the first
        answer that parses gives the size and restores the cursor, and
        three failed tries raise `RuntimeError`. `replies` are the groups
        the terminal answers with, in order; when they run out, the try
        waiting for the next one leaves the call `Pending`. */
    method GetSize(replies: seq<string>) returns (r: SizeOutcome)
      modifies this
      ensures old(cbreak).None? ==>
                && r == Failed(RuntimeError) && cbreak.None? && output == old(output)
                && buffer == old(buffer) + Repeated(SavePieces + CursorToPieces(9999, 9999), 3)
      ensures old(cbreak).Some? ==>
                && r == SizeLoop(replies, 3)
                && cbreak == Some(true)
                && output == old(output) + ProbeFlushes(old(buffer), SizeTries(replies, 3))
                && buffer == (if r.Sized? then RestorePieces else [])
      ensures Modes() == old(Modes())
    {
      var tries := 0;
      while tries < 3
        invariant 0 <= tries <= 3 && Modes() == old(Modes())
        invariant TriesFailed(old(buffer), old(output), old(cbreak), replies, tries)
      {
        var done := SizeRound(replies, tries, old(buffer), old(output), old(cbreak));
        if done.Some? {
          return done.value;
        }
        tries := tries + 1;
      }
      if old(cbreak).Some? {
        SizeTriesAllFail(replies, 3);
        SizeLoopOutcome(replies, 3);
      }
      return Failed(RuntimeError);
    }
  }

  /** The try that finds an answer that parses, or finds none left, is
      the last one counted. */
  lemma {:induction false} SizeTriesAt(answers: seq<string>, tries: nat, k: nat)
    requires k < tries
    requires k == |answers| || (k < |answers| && SizeOf(answers[k]).Success?)
    requires forall j :: 0 <= j < k ==> j < |answers| && SizeOf(answers[j]).Failure?
    ensures SizeTries(answers, tries) == k + 1
    decreases k
  {
    if k > 0 {
      assert SizeOf(answers[0]).Failure?;
      assert forall j :: 0 <= j < k - 1 ==> answers[1..][j] == answers[j + 1];
      SizeTriesAt(answers[1..], tries - 1, k - 1);
    }
  }

  /** When every try fails, every try is counted. */
  lemma {:induction false} SizeTriesAllFail(answers: seq<string>, tries: nat)
    requires |answers| >= tries && forall j :: 0 <= j < tries ==> SizeOf(answers[j]).Failure?
    ensures SizeTries(answers, tries) == tries
  {
    if tries > 0 {
      assert SizeOf(answers[0]).Failure?;
      assert forall j :: 0 <= j < tries - 1 ==> answers[1..][j] == answers[j + 1];
      SizeTriesAllFail(answers[1..], tries - 1);
    }
  }

  /** With the answers used up before the tries and none of them
      parsing, the counted loop is still waiting. */
  lemma {:induction false} SizeLoopWaits(answers: seq<string>, tries: nat)
    requires |answers| < tries
    requires forall j :: 0 <= j < |answers| ==> SizeOf(answers[j]).Failure?
    ensures SizeLoop(answers, tries) == Pending
  {
    if answers != [] {
      assert SizeOf(answers[0]).Failure?;
      assert forall j :: 0 <= j < |answers| - 1 ==> answers[1..][j] == answers[j + 1];
      SizeLoopWaits(answers[1..], tries - 1);
    }
  }
}
