/** The helpers of tools.py that the model keeps: `print_hcenter` and the
    line editor `read_line`, which reads keys until Enter, editing a list
    of items (keys typed and characters completed) and redrawing the line
    after every key. */
module Tools {
  import opened Wrappers
  import opened Text
  import opened Keys
  import opened Vt100
  import opened Base
  import opened Adaptors
  import opened Terminals

  /** The column `print_hcenter` starts at: half the room left over,
      rounded down as Python's `//` does, and never negative. */
  function CenterColumn(w: int, len: nat): (x: int)
    ensures x >= 0
    ensures len <= w ==> 2 * x + len <= w <= 2 * x + len + 1
    ensures len >= w ==> x == 0
  {
    Max(0, (w - len) / 2)
  }

  /** `print_hcenter(terminal, text, y)`: move to the centring column of
      row `y` and print the text with a newline, flushed at once. */
  method PrintHcenter(term: Terminal, text: string, y: int)
    modifies term.adaptor
    ensures term.adaptor.output ==
              old(term.adaptor.output) + [Concat(old(term.adaptor.buffer) + CursorToPieces(CenterColumn(term.w, |text|), y) + [text, "\n"])]
    ensures term.adaptor.buffer == []
    ensures term.adaptor.cbreak == old(term.adaptor.cbreak) && term.adaptor.Modes() == old(term.adaptor.Modes())
  {
    var x := CenterColumn(term.w, |text|);
    term.adaptor.CursorTo(x, y);
    term.Print([text], " ", "\n");
    assert Join(" ", [text]) == text;
  }

  /** An entry of the `buffer` of `read_line`: a key typed, or a
      character of an accepted completion. */
  datatype Item = KeyItem(k: Key) | CharItem(c: char)

  /** `str(item)`. */
  function ItemText(item: Item): string {
    match item
    case KeyItem(k) => Str(k)
    case CharItem(c) => [c]
  }

  /** `stringify()`: the items' strings joined. */
  function LineText(line: seq<Item>): string
    decreases |line|
  {
    if line == [] then "" else LineText(line[..|line| - 1]) + ItemText(line[|line| - 1])
  }

  /** `buffer += candidate`: a string extends the list by its
      characters. */
  function Chars(s: string): (items: seq<Item>)
    ensures |items| == |s| && forall k :: 0 <= k < |s| ==> items[k] == CharItem(s[k])
  {
    seq(|s|, k requires 0 <= k < |s| => CharItem(s[k]))
  }

  /** The word Tab completes: the text after the last space. */
  function LastWord(line: seq<Item>): string {
    var parts := Split(LineText(line), ' ');
    parts[|parts| - 1]
  }

  /** `ch == key` for the event `getch` returned: only a key can equal a
      key, field by field. */
  predicate IsKey(e: Event, k: Key) {
    e.KeyEvent? && Eq(e.k, k)
  }

  /** Python's `xs[:-n]`: all but the last `n` items, except that `-0` is
      `0`, so `xs[:-0]` is empty. */
  function DropLastAsWritten<T>(xs: seq<T>, n: nat): seq<T> {
    if n == 0 then [] else xs[..Max(0, |xs| - n)]
  }

  /** Tab as written: the last word's length in items is cut from the end
      with `buffer[:-len(word)]`, then the candidate's characters are
      appended. */
  function TabAsWritten(line: seq<Item>, complete: string -> Option<string>): seq<Item> {
    var word := LastWord(line);
    match complete(word)
    case None => line
    case Some(c) => DropLastAsWritten(line, |word|) + Chars(c)
  }

  /** Tab: the last `len(word)` items (none for an empty word) replaced by
      the candidate's characters. */
  function Tab(line: seq<Item>, complete: string -> Option<string>): seq<Item> {
    var word := LastWord(line);
    match complete(word)
    case None => line
    case Some(c) => line[..Max(0, |line| - |word|)] + Chars(c)
  }

  /** The buffer after one key other than Enter: Backspace drops the last
      item, Tab completes, a printable key is appended, anything else
      changes nothing. */
  function Edit(line: seq<Item>, ch: Event, complete: string -> Option<string>): seq<Item> {
    if IsKey(ch, KeyBackspace) then
      if |line| > 0 then line[..|line| - 1] else line
    else if IsKey(ch, KeyTab) then Tab(line, complete)
    else if IsPrintable(ch) then line + [KeyItem(ch.k)]
    else line
  }

  /** What a key writes before the redraw: Backspace on a non-empty line
      moves left and blanks the cell. */
  function Erase(line: seq<Item>, ch: Event): seq<string> {
    if IsKey(ch, KeyBackspace) && |line| > 0 then CursorMovePieces(-1, 0) + [" "] else []
  }

  /** What `terminal.getch()` hands back: a decoded event, or the
      `NotImplemented` of the stub in adaptors/base.py, which is what every
      adaptor of the library returns, since none defines `getch`. */
  datatype GetchAnswer = GotEvent(e: Event) | NotImplementedKey

  /** One turn of the loop of `read_line` on what `getch` returned, as
      written: Enter stops it (`None`), another event edits the line, and
      `NotImplemented`, equal to none of the three keys, reaches
      `ch.is_printable()`, which it lacks, and raises `AttributeError`. */
  function TurnAsWritten(line: seq<Item>, ch: GetchAnswer, complete: string -> Option<string>): (r: Result<Option<seq<Item>>>)
    ensures r.Failure? <==> ch.NotImplementedKey?
    ensures r.Failure? ==> r.error == AttributeError
    ensures r == Success(None) <==> ch.GotEvent? && IsKey(ch.e, KeyEnter)
    ensures r.Success? && r.value.Some? ==> r.value.value == Edit(line, ch.e, complete)
  {
    match ch
    case NotImplementedKey => Failure(AttributeError)
    case GotEvent(e) => if IsKey(e, KeyEnter) then Success(None) else Success(Some(Edit(line, e, complete)))
  }

  /** As written, `read_line` gets the stub's `NotImplemented` for its
      first key: comparing it with a key falls back to identity, since
      `Key.__eq__` answers `NotImplemented` for it, and the first turn
      raises `AttributeError`. */
  lemma StubGetchRaises(line: seq<Item>, complete: string -> Option<string>)
    ensures Equals(KeyEnter, OtherArg) == NotImplemented
    ensures Equals(KeyBackspace, OtherArg) == NotImplemented && Equals(KeyTab, OtherArg) == NotImplemented
    ensures TurnAsWritten(line, NotImplementedKey, complete) == Failure(AttributeError)
  {
  }

  /** The state of `read_line` after the keys it has read: what it has
      flushed, what is still in the write buffer, the line, and whether
      Enter came. */
  datatype Session = Session(flushed: seq<string>, pending: seq<string>, line: seq<Item>, entered: bool)

  /** Reading `keys` from the line `line` with `pending` in the write
      buffer: each key other than Enter edits the line, and its erase,
      the cursor restore and the new line are flushed together; Enter
      stops. */
  function Typing(pending: seq<string>, line: seq<Item>, keys: seq<Event>, complete: string -> Option<string>): Session
    decreases |keys|
  {
    if keys == [] then Session([], pending, line, false)
    else if IsKey(keys[0], KeyEnter) then Session([], pending, line, true)
    else
      var edited := Edit(line, keys[0], complete);
      var rest := Typing([], edited, keys[1..], complete);
      Session([Concat(pending + Erase(line, keys[0]) + RestorePieces + [LineText(edited)])] + rest.flushed,
              rest.pending, rest.line, rest.entered)
  }

  /** One turn of the loop of `read_line` for a key other than Enter: the
      edit, then `redraw()`. */
  method EditKey(a: Adaptor, line: seq<Item>, ch: Event, complete: string -> Option<string>) returns (edited: seq<Item>)
    modifies a
    ensures edited == Edit(line, ch, complete)
    ensures a.output == old(a.output) + [Concat(old(a.buffer) + Erase(line, ch) + RestorePieces + [LineText(edited)])]
    ensures a.buffer == [] && a.cbreak == old(a.cbreak) && a.Modes() == old(a.Modes())
  {
    edited := line;
    if IsKey(ch, KeyBackspace) {
      if |line| > 0 {
        a.CursorMove(-1, 0);
        a.Write([" "]);
        assert a.buffer == old(a.buffer) + Erase(line, ch);
        edited := line[..|line| - 1];
      }
    } else if IsKey(ch, KeyTab) {
      var word := LastWord(line);
      var candidate := complete(word);
      if candidate.Some? {
        edited := line[..Max(0, |line| - |word|)];
        edited := edited + Chars(candidate.value);
      }
    } else if IsPrintable(ch) {
      edited := line + [KeyItem(ch.k)];
    }
    assert a.buffer == old(a.buffer) + Erase(line, ch);
    Redraw(a, LineText(edited));
  }

  /** `redraw()` with the default `update`: restore the cursor, write the
      line, flush. */
  method Redraw(a: Adaptor, text: string)
    modifies a
    ensures a.output == old(a.output) + [Concat(old(a.buffer) + RestorePieces + [text])]
    ensures a.buffer == [] && a.cbreak == old(a.cbreak) && a.Modes() == old(a.Modes())
  {
    a.CursorRestore();
    a.Write([text]);
    a.Flush();
  }

  /** Reading the rest of the keys continues the session `whole` after
      `done` was flushed. */
  ghost predicate Continues(whole: Session, done: seq<string>, s: Session) {
    whole == Session(done + s.flushed, s.pending, s.line, s.entered)
  }

  /** A key other than Enter flushes its erase, the cursor restore and the
      edited line, then the session goes on from the edited line. */
  lemma TypingStep(pending: seq<string>, line: seq<Item>, keys: seq<Event>, complete: string -> Option<string>)
    requires keys != [] && !IsKey(keys[0], KeyEnter)
    ensures var rest := Typing([], Edit(line, keys[0], complete), keys[1..], complete);
            Typing(pending, line, keys, complete) ==
              Session([Concat(pending + Erase(line, keys[0]) + RestorePieces + [LineText(Edit(line, keys[0], complete))])] + rest.flushed,
                      rest.pending, rest.line, rest.entered)
  {
  }

  /** One turn of the loop of `read_line` inside a session: the key's
      flush is added to what is done, and the session goes on from the
      next key. */
  method NextKey(a: Adaptor, line: seq<Item>, keys: seq<Event>, k: nat, complete: string -> Option<string>,
                 ghost whole: Session, ghost done: seq<string>, ghost out0: seq<string>)
    returns (edited: seq<Item>, ghost done': seq<string>)
    requires k < |keys| && !IsKey(keys[k], KeyEnter)
    requires a.output == out0 + done
    requires Continues(whole, done, Typing(a.buffer, line, keys[k..], complete))
    modifies a
    ensures a.output == out0 + done'
    ensures Continues(whole, done', Typing(a.buffer, edited, keys[k + 1..], complete))
    ensures a.cbreak == old(a.cbreak) && a.Modes() == old(a.Modes())
  {
    ghost var flush := Concat(a.buffer + Erase(line, keys[k]) + RestorePieces + [LineText(Edit(line, keys[k], complete))]);
    ghost var rest := Typing([], Edit(line, keys[k], complete), keys[k + 1..], complete);
    TypingAt(a.buffer, line, keys, k, complete);
    ContinuesStep(whole, done, flush, rest);
    edited := EditKey(a, line, keys[k], complete);
    done' := done + [flush];
  }

  /** `TypingStep` at key `k` of `keys`. */
  lemma TypingAt(pending: seq<string>, line: seq<Item>, keys: seq<Event>, k: nat, complete: string -> Option<string>)
    requires k < |keys| && !IsKey(keys[k], KeyEnter)
    ensures var rest := Typing([], Edit(line, keys[k], complete), keys[k + 1..], complete);
            Typing(pending, line, keys[k..], complete) ==
              Session([Concat(pending + Erase(line, keys[k]) + RestorePieces + [LineText(Edit(line, keys[k], complete))])] + rest.flushed,
                      rest.pending, rest.line, rest.entered)
  {
    TypingStep(pending, line, keys[k..], complete);
    assert keys[k..][1..] == keys[k + 1..];
    assert keys[k..][0] == keys[k];
  }

  /** Moving one flush from the session to what is done. */
  lemma ContinuesStep(whole: Session, done: seq<string>, flush: string, rest: Session)
    requires Continues(whole, done, Session([flush] + rest.flushed, rest.pending, rest.line, rest.entered))
    ensures Continues(whole, done + [flush], rest)
  {
    assert done + ([flush] + rest.flushed) == (done + [flush]) + rest.flushed;
  }

  /** The `while True` loop of `read_line`: edit and redraw for each key
      until Enter, or until the keys run out. */
  method EditUntilEnter(a: Adaptor, keys: seq<Event>, complete: string -> Option<string>) returns (line: seq<Item>, entered: bool)
    modifies a
    ensures var whole := Typing(old(a.buffer), [], keys, complete);
            && a.output == old(a.output) + whole.flushed && a.buffer == whole.pending
            && line == whole.line && entered == whole.entered
    ensures a.cbreak == old(a.cbreak) && a.Modes() == old(a.Modes())
  {
    ghost var whole := Typing(a.buffer, [], keys, complete);
    ghost var out0 := a.output;
    ghost var done: seq<string> := [];
    line := [];
    var k := 0;
    while k < |keys| && !IsKey(keys[k], KeyEnter)
      invariant 0 <= k <= |keys|
      invariant a.cbreak == old(a.cbreak) && a.Modes() == old(a.Modes())
      invariant a.output == out0 + done
      invariant Continues(whole, done, Typing(a.buffer, line, keys[k..], complete))
      modifies a
      decreases |keys| - k
    {
      line, done := NextKey(a, line, keys, k, complete, whole, done, out0);
      k := k + 1;
    }
    assert done + [] == done;
    entered := k < |keys|;
  }

  /** `read_line(terminal, autocomplete=complete)` with the default
      `update`, reading the events `keys` in turn. Without a cbreak flag
      yet, reading `_cbreak` raises `AttributeError`. Otherwise it sets
      cbreak, saves the cursor and edits until Enter; then it restores
      the old cbreak flag, writes a newline and returns the line's text.
      `None` is the call still waiting for a key when `keys` runs out. */
  method ReadLine(term: Terminal, keys: seq<Event>, complete: string -> Option<string>) returns (r: Option<Result<string>>)
    modifies term.adaptor
    ensures old(term.adaptor.cbreak).None? ==>
              r == Some(Failure(AttributeError)) && term.adaptor.buffer == old(term.adaptor.buffer) &&
              term.adaptor.output == old(term.adaptor.output) && term.adaptor.cbreak.None?
    ensures old(term.adaptor.cbreak).Some? ==>
              var s := Typing(old(term.adaptor.buffer) + SavePieces, [], keys, complete);
              && term.adaptor.output == old(term.adaptor.output) + s.flushed
              && (s.entered ==> r == Some(Success(LineText(s.line))) && term.adaptor.cbreak == old(term.adaptor.cbreak)
                                && term.adaptor.buffer == s.pending + ["\n"])
              && (!s.entered ==> r.None? && term.adaptor.cbreak == Some(true) && term.adaptor.buffer == s.pending)
    ensures term.adaptor.Modes() == old(term.adaptor.Modes())
  {
    var a := term.adaptor;
    if a.cbreak.None? {
      return Some(Failure(AttributeError));
    }
    var oldStatus := a.cbreak.value;
    a.SetCbreak(true);
    a.CursorSave();
    var line, entered := EditUntilEnter(a, keys, complete);
    if !entered {
      return None;
    }
    a.SetCbreak(oldStatus);
    a.WriteLn([]);
    return Some(Success(LineText(line)));
  }

  /** The text of a line grows by an item's text when the item is
      appended. */
  lemma {:induction false} LineTextAppend(a: seq<Item>, b: seq<Item>)
    ensures LineText(a + b) == LineText(a) + LineText(b)
    decreases |b|
  {
    if b == [] {
      assert a + b == a;
    } else {
      var init := b[..|b| - 1];
      var last := b[|b| - 1];
      LineTextAppend(a, init);
      assert (a + b)[..|a + b| - 1] == a + init;
      assert (a + b)[|a + b| - 1] == last;
      calc {
        LineText(a + b);
        LineText(a + init) + ItemText(last);
        (LineText(a) + LineText(init)) + ItemText(last);
        LineText(a) + (LineText(init) + ItemText(last));
        LineText(a) + LineText(b);
      }
    }
  }

  /** A completion's characters read back as the completion. */
  lemma {:induction false} CharsText(c: string)
    ensures LineText(Chars(c)) == c
    decreases |c|
  {
    if c != [] {
      CharsText(c[..|c| - 1]);
      assert Chars(c)[..|c| - 1] == Chars(c[..|c| - 1]);
    }
  }

  /** Every item of the line shows as one character. */
  predicate OneCharEach(line: seq<Item>) {
    forall k :: 0 <= k < |line| ==> |ItemText(line[k])| == 1
  }

  /** On such a line, item `k` is character `k` of the text, so a prefix
      of items is the same prefix of the text. */
  lemma {:induction false} OneCharPrefix(line: seq<Item>, n: nat)
    requires OneCharEach(line) && n <= |line|
    ensures |LineText(line)| == |line|
    ensures LineText(line[..n]) == LineText(line)[..n]
    decreases |line|
  {
    if line != [] {
      var init := line[..|line| - 1];
      assert OneCharEach(init) by {
        forall k | 0 <= k < |init| ensures |ItemText(init[k])| == 1 {
          assert init[k] == line[k];
        }
      }
      if n == |line| {
        assert line[..n] == line;
        OneCharPrefix(init, 0);
      } else {
        assert line[..n] == init[..n];
        OneCharPrefix(init, n);
      }
    }
  }

  /** The last word is the text after the last space: a suffix of the
      text with no space in it, preceded by a space unless it is the whole
      text. */
  lemma LastWordSuffix(s: string)
    ensures var parts := Split(s, ' ');
            var w := parts[|parts| - 1];
            && |w| <= |s| && s[|s| - |w|..] == w && ' ' !in w
            && (|w| < |s| ==> s[|s| - |w| - 1] == ' ')
  {
    if ' ' in s {
      var i := LastIndexOf(s, ' ');
      var w := s[i + 1..];
      assert |s| - |w| == i + 1;
      assert forall j :: 0 <= j < |w| ==> w[j] == s[i + 1 + j];
    }
  }

  /** A printable key other than Backspace, Tab and Enter adds its own text
      at the end of the line, and Backspace takes it off again. */
  lemma TypeThenBackspace(line: seq<Item>, k: Key, complete: string -> Option<string>)
    requires k.printable && !Eq(k, KeyBackspace) && !Eq(k, KeyTab)
    ensures Edit(line, KeyEvent(k), complete) == line + [KeyItem(k)]
    ensures LineText(Edit(line, KeyEvent(k), complete)) == LineText(line) + Str(k)
    ensures Edit(Edit(line, KeyEvent(k), complete), KeyEvent(KeyBackspace), complete) == line
  {
    assert (line + [KeyItem(k)])[..|line|] == line;
  }

  /** Backspace removes exactly the last item, and its text, of a
      non-empty line and leaves an empty line as it is. */
  lemma BackspaceDropsLast(line: seq<Item>, ch: Event, complete: string -> Option<string>)
    requires IsKey(ch, KeyBackspace)
    ensures line != [] ==>
              && Edit(line, ch, complete) == line[..|line| - 1]
              && LineText(Edit(line, ch, complete)) + ItemText(line[|line| - 1]) == LineText(line)
    ensures line == [] ==> Edit(line, ch, complete) == []
  {
  }

  /** Keys that are neither printable nor Backspace, Tab or Enter change
      nothing. */
  lemma OtherKeysKeepLine(line: seq<Item>, ch: Event, complete: string -> Option<string>)
    requires !IsKey(ch, KeyBackspace) && !IsKey(ch, KeyTab) && !IsPrintable(ch)
    ensures Edit(line, ch, complete) == line
  {
  }

  /** On a line of one-character items, Tab replaces the last word of the
      text by the candidate, and changes nothing when there is none. */
  lemma TabReplacesLastWord(line: seq<Item>, complete: string -> Option<string>)
    requires OneCharEach(line)
    ensures var text := LineText(line);
            var word := LastWord(line);
            && text == text[..|text| - |word|] + word
            && (complete(word).None? ==> Tab(line, complete) == line)
            && (complete(word).Some? ==> LineText(Tab(line, complete)) == text[..|text| - |word|] + complete(word).value)
  {
    var word := LastWord(line);
    LastWordEndsText(line);
    if complete(word).Some? {
      TabCandidateText(line, complete, word, complete(word).value);
    }
  }

  /** The text is what comes before the last word, then the word. */
  lemma LastWordEndsText(line: seq<Item>)
    requires OneCharEach(line)
    ensures var text := LineText(line);
            var word := LastWord(line);
            && |text| == |line| && |word| <= |text|
            && text == text[..|text| - |word|] + word
  {
    var text := LineText(line);
    assert |text| == |line| by { OneCharPrefix(line, 0); }
    var parts := Split(text, ' ');
    var w := parts[|parts| - 1];
    assert LastWord(line) == w;
    assert |w| <= |text| && text[|text| - |w|..] == w by { LastWordSuffix(text); }
    var n := |text| - |w|;
    assert text == text[..n] + text[n..];
  }

  /** With `n` items before the last word, the completed line's text is
      the text before the word followed by the candidate. */
  lemma TabCandidateText(line: seq<Item>, complete: string -> Option<string>, word: string, c: string)
    requires OneCharEach(line)
    requires word == LastWord(line) && |word| <= |line| && complete(word) == Some(c)
    requires |LineText(line)| == |line|
    ensures LineText(Tab(line, complete)) == LineText(line)[..|line| - |word|] + c
  {
    var n := |line| - |word|;
    assert Tab(line, complete) == line[..n] + Chars(c) by {
      assert Max(0, n) == n;
    }
    OneCharPrefix(line, n);
    LineTextAppend(line[..n], Chars(c));
    CharsText(c);
  }

  /** With the text ending in a space the last word is empty, and as
      written `buffer[:-0]` empties the buffer: the completion replaces
      the whole line instead of being added after it. */
  lemma TabAfterSpaceAsWritten(line: seq<Item>, complete: string -> Option<string>)
    requires LineText(line) != [] && LineText(line)[|LineText(line)| - 1] == ' '
    requires complete("").Some?
    ensures LastWord(line) == ""
    ensures TabAsWritten(line, complete) == Chars(complete("").value)
    ensures Tab(line, complete) == line + Chars(complete("").value)
  {
    var text := LineText(line);
    assert ' ' in text;
    assert LastIndexOf(text, ' ') == |text| - 1;
    assert line[..|line|] == line;
  }

  /** For instance `ls ` followed by Tab, with `file` offered for the
      empty word, leaves `file` as written and `ls file` corrected. */
  lemma TabAfterSpaceExample()
    ensures var line := Chars("ls ");
            var complete := (w: string) => Some("file");
            && LineText(TabAsWritten(line, complete)) == "file"
            && LineText(Tab(line, complete)) == "ls file"
  {
    var line := Chars("ls ");
    var complete := (w: string) => Some("file");
    assert LineText(line) == "ls " by { CharsText("ls "); }
    TabAfterSpaceAsWritten(line, complete);
    assert LineText(Chars("file")) == "file" by { CharsText("file"); }
    LineTextAppend(line, Chars("file"));
  }
}
