/** The `Terminal` front end of terminal.py: the stored size and its
    update from the adaptor, the resize handlers, `print`, the box filling
    it does itself, and the exit of the managed context. Everything else
    in the class forwards to the adaptor (module Adaptors). */
module Terminals {
  import opened Wrappers
  import opened Text
  import opened Vt100
  import opened Base
  import opened Unix
  import opened Adaptors

  /** What `get_size` of the adaptor ends with, from its cbreak flag and
      the answers the terminal sends: without the flag every try raises,
      and three tries raise `RuntimeError`. */
  function Asked(cbreak: Option<bool>, replies: seq<string>): (r: SizeOutcome)
    ensures r.Failed? ==> r.error == RuntimeError
    ensures cbreak.Some? ==> r == SizeLoop(replies, 3)
  {
    if cbreak.None? then Failed(RuntimeError) else SizeLoop(replies, 3)
  }

  /** `get_size` as written, cut off after `turns` tries. `tries` never
      grows and the bare `except:` swallows every error, so a failed try is
      followed by another: without the cbreak flag every try raises
      `AttributeError`; with it each try reads the next answer. */
  function AskedAsWritten(cbreak: Option<bool>, replies: seq<string>, turns: nat): (r: SizeOutcome)
    ensures !r.Failed?
  {
    if turns == 0 then Pending
    else if cbreak.None? then AskedAsWritten(cbreak, replies, turns - 1)
    else if replies == [] then Pending
    else match SizeOf(replies[0])
      case Success(p) => Sized(p.0, p.1)
      case Failure(_) => AskedAsWritten(cbreak, replies[1..], turns - 1)
  }

  /** As written, the size query of the constructor never ends: however
      many tries are made without the cbreak flag, none gives a size or an
      error, whatever the terminal answers. */
  lemma {:induction false} UnsetNeverReturns(replies: seq<string>, turns: nat)
    ensures AskedAsWritten(None, replies, turns) == Pending
  {
    if turns > 0 {
      UnsetNeverReturns(replies, turns - 1);
    }
  }

  /** With the flag set and more tries than answers, the loop as written
      ends as `Unix.SizeLoopAsWritten` says: on the first answer that
      parses, or still waiting. */
  lemma {:induction false} AskedAsWrittenWhenSet(b: bool, replies: seq<string>, turns: nat)
    requires turns > |replies|
    ensures AskedAsWritten(Some(b), replies, turns) == SizeLoopAsWritten(replies)
  {
    if replies != [] && SizeOf(replies[0]).Failure? {
      AskedAsWrittenWhenSet(b, replies[1..], turns - 1);
    }
  }

  /** What `get_size` hands back when it returns: a size, or the
      `NotImplemented` of the stub in adaptors/base.py, which the platform
      adaptor `VT100Adaptor` inherits. */
  datatype SizeAnswer = SizeTuple(w: int, h: int) | NotImplementedAnswer

  /** `update_size` after a `get_size` that returned without raising: the
      defaults are not consulted, and an answer that differs from the
      stored size is subscripted, which raises `TypeError` for
      `NotImplemented` (never equal to a tuple). The value is whether the
      size changed, and the size then stored. */
  function StoreAnswer(current: (int, int), answer: SizeAnswer): (r: Result<(bool, (int, int))>)
    ensures r.Failure? <==> answer.NotImplementedAnswer?
    ensures r.Failure? ==> r.error == TypeError
    ensures r.Success? ==> r.value.1 == (answer.w, answer.h) && (r.value.0 <==> r.value.1 != current)
  {
    match answer
    case NotImplementedAnswer => Failure(TypeError)
    case SizeTuple(w, h) => Success(((w, h) != current, (w, h)))
  }

  /** As written, `Terminal()` builds a `VT100Adaptor`, whose `get_size`
      is the stub: the first `_handle_resize`, on the size `(0, 0)`, raises
      `TypeError` out of the constructor. */
  lemma PlatformConstructionRaises()
    ensures StoreAnswer((0, 0), NotImplementedAnswer) == Failure(TypeError)
  {
  }

  /** The kind of exception that leaves a `with term.managed():` block. */
  datatype ExitCause = NoException | KeyboardInterrupt | OtherException(name: string)

  class Terminal {
    const adaptor: Adaptor
    var w: int
    var h: int
    /** `_resize_handlers`, each handler named by a number; what a handler
        does is not part of this model. */
    var handlers: seq<nat>
    /** The handlers called so far, in order. */
    var calls: seq<nat>

    /** The field assignments of `__init__`, before its first
        `_handle_resize`. */
    constructor Init()
      ensures fresh(adaptor)
      ensures w == 0 && h == 0 && handlers == [] && calls == []
      ensures adaptor.buffer == [] && adaptor.output == [] && adaptor.cbreak.None?
    {
      adaptor := new Adaptor();
      w := 0;
      h := 0;
      handlers := [];
      calls := [];
    }

    /** `__init__`: a new adaptor, size `(0, 0)`, no handlers, then
        `_handle_resize`. The new adaptor has no cbreak flag yet, so the
        size query fails and the constructor raises `RuntimeError`. */
    static method New(replies: seq<string>) returns (t: Terminal, r: Option<Result<bool>>)
      ensures fresh(t) && fresh(t.adaptor)
      ensures r == Some(Failure(RuntimeError))
      ensures t.w == 0 && t.h == 0 && t.handlers == [] && t.calls == []
    {
      t := new Terminal.Init();
      r := t.HandleResize(replies);
    }

    /** `add_resize_handler`. */
    method AddResizeHandler(handler: nat)
      modifies this
      ensures handlers == old(handlers) + [handler]
      ensures w == old(w) && h == old(h) && calls == old(calls)
    {
      handlers := handlers + [handler];
    }

    /** `update_size(defaults)`: ask the adaptor for the size; when that
        raises, take `defaults` if given and re-raise otherwise; store the
        size and report whether it differs from the one stored before.
        `None` is the call still waiting for the terminal's answer. */
    method UpdateSize(replies: seq<string>, defaults: Option<(int, int)>) returns (r: Option<Result<bool>>)
      modifies this, adaptor
      ensures var got := Asked(old(adaptor.cbreak), replies);
              && (got.Pending? ==> r.None? && w == old(w) && h == old(h))
              && (got.Sized? ==> r == Some(Success((got.w, got.h) != (old(w), old(h)))) && w == got.w && h == got.h)
              && (got.Failed? && defaults.Some? ==>
                    r == Some(Success(defaults.value != (old(w), old(h)))) && (w, h) == defaults.value)
              && (got.Failed? && defaults.None? ==> r == Some(Failure(got.error)) && w == old(w) && h == old(h))
      ensures r == Some(Success(false)) ==> w == old(w) && h == old(h)
      ensures handlers == old(handlers) && calls == old(calls)
      ensures adaptor.Modes() == old(adaptor.Modes())
      ensures old(adaptor.cbreak).None? ==> adaptor.cbreak.None? && adaptor.output == old(adaptor.output)
      ensures old(adaptor.cbreak).Some? ==>
                && adaptor.cbreak == Some(true)
                && adaptor.output == old(adaptor.output) + ProbeFlushes(old(adaptor.buffer), SizeTries(replies, 3))
    {
      var current := (w, h);
      var got := adaptor.GetSize(replies);
      var size;
      match got {
        case Pending =>
          return None;
        case Sized(gw, gh) =>
          size := (gw, gh);
        case Failed(e) =>
          if defaults.None? {
            return Some(Failure(e));
          }
          size := defaults.value;
      }
      if size != current {
        w, h := size.0, size.1;
        return Some(Success(true));
      }
      return Some(Success(false));
    }

    /** `_handle_resize`: update the size without defaults and, only when
        it changed, call every handler once, in the order they were
        added. An exception from the update propagates. */
    method HandleResize(replies: seq<string>) returns (r: Option<Result<bool>>)
      modifies this, adaptor
      ensures var got := Asked(old(adaptor.cbreak), replies);
              && (got.Pending? ==> r.None? && w == old(w) && h == old(h))
              && (got.Sized? ==> r == Some(Success((got.w, got.h) != (old(w), old(h)))) && w == got.w && h == got.h)
              && (got.Failed? ==> r == Some(Failure(got.error)) && w == old(w) && h == old(h))
      ensures calls == old(calls) + (if r == Some(Success(true)) then handlers else [])
      ensures handlers == old(handlers)
      ensures adaptor.Modes() == old(adaptor.Modes())
      ensures old(adaptor.cbreak).None? ==> adaptor.cbreak.None? && adaptor.output == old(adaptor.output)
    {
      r := UpdateSize(replies, None);
      if r != Some(Success(true)) {
        return;
      }
      ghost var sized := (w, h);
      for k := 0 to |handlers|
        invariant handlers == old(handlers) && (w, h) == sized
        invariant calls == old(calls) + handlers[..k]
        modifies this
      {
        calls := calls + [handlers[k]];
      }
      assert handlers[..|handlers|] == handlers;
    }

    /** `print(*things, sep, end)`: write the things joined by `sep`, then
        `end`, and flush once. */
    method Print(things: seq<string>, sep: string, end: string)
      modifies adaptor
      ensures adaptor.output == old(adaptor.output) + [Concat(old(adaptor.buffer) + [Join(sep, things), end])]
      ensures adaptor.buffer == []
      ensures adaptor.cbreak == old(adaptor.cbreak) && adaptor.Modes() == old(adaptor.Modes())
    {
      adaptor.Write([Join(sep, things), end]);
      adaptor.Flush();
    }

    /** `fill_box(x, y, w, h, ch)` of the terminal, with its rows bounded
        by the stored height and the run measured from the first visible
        column; the moves and runs go to the adaptor's buffer. */
    method FillBox(x: int, y: int, bw: int, bh: int, ch: string)
      modifies adaptor
      ensures adaptor.buffer == old(adaptor.buffer) + FillBoxPieces(x, y, bw, bh, ch, w, h)
      ensures adaptor.output == old(adaptor.output) && adaptor.cbreak == old(adaptor.cbreak)
      ensures adaptor.Modes() == old(adaptor.Modes())
    {
      var col := Max(x, 0);
      var lo, hi := Max(y, 0), Min(h, y + bh);
      var run := Repeat(ch, FillRun(x, bw, w));
      var i := lo;
      while i < hi
        invariant lo <= i && (i <= hi || i == lo)
        invariant adaptor.buffer == old(adaptor.buffer) + Draws(col, Span(lo, i), run)
        invariant adaptor.output == old(adaptor.output) && adaptor.cbreak == old(adaptor.cbreak)
        invariant adaptor.Modes() == old(adaptor.Modes())
        decreases hi - i
      {
        adaptor.CursorTo(col, i);
        adaptor.Write([run]);
        DrawsNextRow(old(adaptor.buffer), col, lo, i, run);
        i := i + 1;
      }
      assert Span(lo, i) == Span(lo, hi);
    }

    /** `clear_box`: `fill_box` with spaces. */
    method ClearBox(x: int, y: int, bw: int, bh: int)
      modifies adaptor
      ensures adaptor.buffer == old(adaptor.buffer) + FillBoxPieces(x, y, bw, bh, " ", w, h)
      ensures adaptor.output == old(adaptor.output) && adaptor.cbreak == old(adaptor.cbreak)
      ensures adaptor.Modes() == old(adaptor.Modes())
    {
      FillBox(x, y, bw, bh, " ");
    }

    /** `__exit__` of the context `managed()` returns: reset the terminal
        whatever happened, and swallow only a `KeyboardInterrupt`. */
    method ManagedExit(cause: ExitCause) returns (suppress: bool)
      modifies adaptor
      ensures suppress <==> cause == KeyboardInterrupt
      ensures adaptor.output == old(adaptor.output) + [Concat(old(adaptor.buffer))] +
                                (if old(adaptor.mouse).Some? then [Concat(MouseOffPieces)] else []) +
                                [Concat(StyleResetPieces + VisiblePieces(true))]
      ensures adaptor.buffer == [] && adaptor.cbreak == Some(false)
      ensures adaptor.mouse.None? && adaptor.cursorVisible
    {
      adaptor.Reset();
      suppress := cause == KeyboardInterrupt;
    }
  }

  /** The line `print` emits on an empty buffer is the join followed by
      `end`; split at a one-character separator no item contains, its
      front gives the items back. */
  lemma PrintedItems(things: seq<string>, sep: char, end: string)
    requires |things| >= 1
    requires forall k :: 0 <= k < |things| ==> sep !in things[k]
    ensures var line := Concat([] + [Join([sep], things), end]);
            && line == Join([sep], things) + end
            && Split(line[..|line| - |end|], sep) == things
  {
    var joined := Join([sep], things);
    assert [] + [joined, end] == [joined, end];
    ConcatSmall(joined, end, "");
    var line := joined + end;
    assert line[..|line| - |end|] == joined;
    SplitJoin(things, sep);
  }
}
