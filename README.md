# pytermfx in Dafny

A model of the core of pytermfx, a small Python library for
full-screen terminal programs. The model covers both directions of the
terminal.

- **Input.** The input daemon groups raw characters read from the
  terminal into escape sequences. The escape decoder turns each group
  into keys and xterm mouse events. Keys are values with a lower-case
  name and ctrl, alt and shift modifiers.
- **Output.** The VT100 adaptor and its base append ECMA-48 control
  functions to an output buffer and flush it. Colours and SGR styles
  serialise to SGR parameters. The Unix adaptor asks for the cursor
  position (DSR `CSI 6n`) and parses the cursor position report (CPR).
- **On top.** The `Terminal` front end tracks the window size and its
  resize handlers. The markdown renderer toggles bold, italic,
  underline, code and header environments. The virtual screen keeps a
  grid of dirty cells. `read_line` is a line editor, and `print_hcenter`
  centres a line.

## How the model is laid out

There is one Dafny module per source file. `Wrappers` holds
`Option`/`Result` and the Python exceptions the code raises. `Text`
holds the string helpers (`str(int)`, `join`, `split`, ASCII
`lower`/`upper`). `Constants` holds ESC and CSI, and
pytermfx/constants.py is not part of this model.

`Ecma48` is the independent reference the output serialisers are proved
against. It defines a control function `CSI params final` and a parser
`Parse`, with a round-trip proved both ways. Every emitting operation is
stated as "appends exactly these pieces", and a lemma shows that those
pieces parse back to the intended control functions (cursor position
and displacement, SGR codes).

State that the source updates in place is a Dafny `class` with the same
fields:

- `Keys.KeyObject` for `__iadd__`;
- `Escapes.DecodeTable` for `KEY_MAP`/`SEQ_LIST`, built at import;
- `Input.InputDaemon`;
- `Styles.Style`;
- `Adaptors.Adaptor`, one class for the Unix adaptor's base, VT100 and
  Unix layers, as `UnixAdaptor` inherits them;
- `Terminals.Terminal`;
- `Display.VirtualStyle` and `Display.VirtualTerminal`.

Loops in the source are methods with loop invariants, proved against a
specification function:

- `ansi_16`'s palette scan;
- the `register_seq` loop;
- `get_size`'s retry loop;
- `fill_box`;
- `refresh`;
- `render`'s scan;
- `read_line`'s key loop.

Pure code is functions and lemmas.

### What the environment becomes

- **The terminal's output stream** is the log `output`: one string per
  flush.
- **Input the code reads** is a parameter:
  - for the Unix adaptor, the replies to the position query;
  - for `read_line`, the key script and the autocomplete function. The
    key script stands for the keys that a `getch` built on `getch_raw`
    and `parse_escape` would decode. As written, no adaptor defines
    `getch`, so `terminal.getch()` (pytermfx/terminal.py:75-79) reaches
    the stub in pytermfx/adaptors/base.py:31-35, which returns
    `NotImplemented`, and `read_line` raises `AttributeError` at
    pytermfx/tools.py:168 on its first key (`Tools.StubGetchRaises`).
- **The grouper's two threads** become events. "character arrived" is
  `Collect` and then `OnChar`; "timeout" is `OnTimeout`. Timeouts are
  integer units: 0, base, or 10 × base.

### Where the code, not the description, decides

- **The `printable` flag.** `Key` in pytermfx/keys.py:4-8 takes no
  `printable` argument and has no `is_printable`. escapes.py and
  tools.py use both, so the model adds a `printable` flag. Equality and
  the hash ignore it, and the decoder sets it as escapes.py does.
- **`_cbreak` starts unset.** The Unix adaptor never initialises
  `_cbreak`, so it is `Option<bool>`. Reading it before `set_cbreak`
  raises `AttributeError`.
- **The adaptor behind `Terminal`.**
  - pytermfx/adaptors/__init__.py:3 makes `PlatformAdaptor` a
    `VT100Adaptor`, and nothing in the library builds a `UnixAdaptor`.
  - `VT100Adaptor` has no `get_size` of its own, so the stub in
    pytermfx/adaptors/base.py:25-29 returns `NotImplemented`.
    `update_size` finds that different from `(0, 0)` and subscripts it.
    As written, `Terminal()` therefore raises `TypeError`
    (`Terminals.PlatformConstructionRaises`).
  - The model puts the Unix adaptor of pytermfx/adaptors/unix.py behind
    `Terminal` in place of `VT100Adaptor`, so that the size query, the
    cursor position report and cbreak are modelled.
  - On that adaptor the constructor queries the size before cbreak is
    set, so every position query raises `AttributeError`. As written,
    the retry loop of `get_size` swallows each error and never counts
    its tries, so it asks again for ever (`Terminals.UnsetNeverReturns`).
  - The rest of the model takes the loop with the three tries that its
    `raise RuntimeError` says were meant (see Findings). With that
    correction, `Terminals.Terminal.New` on a Unix adaptor ends in
    `RuntimeError`.
- **`Key + x` with a non-`Mod` operand.** `__iadd__` returns
  `NotImplemented`, so `k += other` falls back to `__add__`, which
  recurses. The model reports `RecursionError`.

## Model

| member | source | states |
|---|---|---|
| Keys.NewKey | pytermfx/keys.py:4-8 | the name is `Lower` of the given name, character by character, so it keeps its length and has no upper-case letter; shift is set iff it was asked for or the name is upper case; ctrl and alt are kept |
| Keys.NewKeyIdempotent | pytermfx/keys.py:4-8 | constructing a key again from a constructed key's fields gives the same key |
| Keys.Equals | pytermfx/keys.py:13-24 | against a Key or a str the result is a bool: true iff the four hashed fields agree, a str compared as `Key(str)`; against a Mod it is False; an int in the scalar range compares as `Key(chr(n))`, a surrogate gives False and anything outside the code-point range raises ValueError; anything else gives NotImplemented |
| Keys.ShiftedEqualsUpperString | pytermfx/keys.py:19-20 | `Key("a", shift=True) == "A"` |
| Keys.EqIffSameHashedFields | pytermfx/keys.py:10-18 | two keys are equal exactly when the tuples they hash are equal |
| Keys.EqualKeysHashEqually | pytermfx/keys.py:10-18 | equal keys hash equally, whatever the hash of the tuple is |
| Keys.Compose | pytermfx/keys.py:26-37 | `k + m` keeps k's name and has every modifier that k or m has |
| Keys.ComposeIsUnion | pytermfx/keys.py:34-36 | the modifiers of `k + m` are exactly the OR of both |
| Keys.ComposeCommutes | pytermfx/keys.py:34-36 | `(k + a) + b == (k + b) + a` |
| Keys.ComposeIdempotent | pytermfx/keys.py:34-36 | `(k + a) + a == k + a` |
| Keys.KeyObject.constructor | pytermfx/keys.py:4-8 | the new object's value is the normalised key |
| Keys.KeyObject.IAdd | pytermfx/keys.py:31-37 | with a Mod, the key itself gets the modifiers OR-ed in and `self` is returned; otherwise NotImplemented and nothing changes |
| Keys.KeyObject.Add | pytermfx/keys.py:26-29 | with a Mod, a fresh key with the composed value, the left operand untouched; otherwise RecursionError |
| Keys.StrOfNewKey | pytermfx/keys.py:39-40 | `str(Key(s)) == s` for every name that is all upper case or has no upper case |
| Keys.StrOfSingleChar | pytermfx/keys.py:39-40 | `str(Key(c)) == c` for every single character |
| Keys.NewKeyOfStr | pytermfx/keys.py:39-40 | `Key(str(k))` equals k for a normalised key whose shift can be read back from a lower-case letter |
| Keys.NamedKeysAreConstructed | pytermfx/keys.py:42-65 | the named key constants are keys built from their names |
| Escapes.ParseMouse | pytermfx/escapes.py:14-25 | fewer than 3 characters raise UnknownEscape; otherwise 3 are consumed, `btns` is the first code minus 32, left iff its low two bits are 0, right iff they are 2, down iff the motion bit is clear and left or right holds, down and up are never both set and one of them is set iff the motion bit is clear; x and y are the codes minus 33 |
| Escapes.LeftClickReport | pytermfx/escapes.py:14-25 | a button byte of 32 decodes as a left-button press at the encoded position |
| Escapes.KeyMapEntries | pytermfx/escapes.py:28-31 | a character is in `KEY_MAP` iff its code is 1..26 other than 9 and 10, and then it maps to ctrl plus `chr(code + 96)` |
| Escapes.CarriageReturnIsCtrlM | pytermfx/escapes.py:28-31 | code 13 stays ctrl+m |
| Escapes.DecodeTable.InitKeyMap | pytermfx/escapes.py:28-31 | the loop that fills and trims the key map yields exactly `KEY_MAP` |
| Escapes.DecodeTable.RegisterSeq | pytermfx/escapes.py:36-40 | appends one entry per pattern, in order, with the same value; literal fixed patterns only extend the table |
| Escapes.SeqModsEntries | pytermfx/escapes.py:43-51 | four entries per pattern, with suffixes `~ $ ^ @` for no modifier, shift, ctrl and ctrl+shift |
| Escapes.DecodeTable.RegisterSeqMods | pytermfx/escapes.py:43-51 | appends the four suffixed entries per pattern and changes nothing else |
| Escapes.DecodeTable.RegisterMisc | pytermfx/escapes.py:54-57 | appends the mouse, shift+tab and lone-ESC entries |
| Escapes.DecodeTable.RegisterArrows | pytermfx/escapes.py:59-71 | appends the arrow entries, the first being `[A` for up |
| Escapes.DecodeTable.RegisterFunctionKeys | pytermfx/escapes.py:73-81 | appends the F1-F4 entries |
| Escapes.DecodeTable.RegisterFunctionKeys2 | pytermfx/escapes.py:82-89 | appends the F5-F12 entries |
| Escapes.DecodeTable.RegisterNavigation | pytermfx/escapes.py:91-99 | appends the insert, delete, page, home and end entries |
| Escapes.DecodeTable.constructor | pytermfx/escapes.py:28-99 | the import-time table: `KEY_MAP`, then every registration in source order, and the result is well formed (mouse first, lone ESC present, every later pattern fixed) |
| Escapes.RegisteredTableWellFormed | pytermfx/escapes.py:54-99 | any table built by the misc registrations followed by extensions is well formed |
| Escapes.InsertByLen | pytermfx/escapes.py:105 | inserting into the sorted list adds exactly that entry |
| Escapes.InsertKeepsLongestFirst | pytermfx/escapes.py:105 | insertion keeps the list in descending pattern length |
| Escapes.SortByLen | pytermfx/escapes.py:105 | `sorted(..., key=len, reverse=True)` is a permutation in descending length |
| Escapes.FirstMatch | pytermfx/escapes.py:132-143 | the entry found is in the list and prefixes the input; none is found iff no entry prefixes it |
| Escapes.BestIsLongestEarliest | pytermfx/escapes.py:105-141 | the winner is a longest matching pattern, and among those the earliest registered; none iff nothing matches |
| Escapes.BestIndex | pytermfx/escapes.py:105-141 | when some entry matches, the winner sits at an index no earlier match of equal length precedes |
| Escapes.FirstMatchOfInsert | pytermfx/escapes.py:132-141 | scanning after an insertion finds the new entry exactly when it matches and is longer than the old winner |
| Escapes.FirstMatchOfSortedIsBest | pytermfx/escapes.py:105-141 | the first match in the stably sorted list is the longest, earliest-registered match of the table |
| Escapes.FirstRegistrationIsBest | pytermfx/escapes.py:105-141 | a pattern registered for the first time is its own best match |
| Escapes.Dump | pytermfx/escapes.py:146-149 | one non-printable key per remaining character, in order |
| Escapes.Next | pytermfx/escapes.py:107-143 | every turn of the decoding loop that continues or raises leaves a strictly shorter suffix of the input |
| Escapes.PlainTextDecodes | pytermfx/escapes.py:109-116 | text with no ESC and no control code decodes to one printable key per character |
| Escapes.ControlCodeDecodes | pytermfx/escapes.py:110-115 | a control code 1..26 other than tab and newline yields ctrl plus the letter and consumes one character |
| Escapes.AltKeyDecodes | pytermfx/escapes.py:119-128 | a group `ESC c` with `ord(c) < 127` yields exactly one alt key: the control-map entry plus alt, or a printable literal with alt |
| Escapes.AtMostOneEventPerChar | pytermfx/escapes.py:107-149 | decoding yields no more events than there are characters |
| Escapes.EscapeTakesLongestMatch | pytermfx/escapes.py:130-141 | after ESC, the longest earliest-registered literal pattern is consumed and its key yielded, and decoding goes on after it |
| Escapes.BestEntryRoundTrip | pytermfx/escapes.py:130-136 | ESC followed by a pattern that is its own best match decodes to exactly that entry's key |
| Escapes.RegisteredSequenceRoundTrip | pytermfx/escapes.py:130-136 | ESC followed by any first-registered fixed pattern of the table decodes to exactly its key |
| Escapes.ArrowUpAndLoneEscape | pytermfx/escapes.py:57-60 | `ESC [ A` decodes to up and a lone ESC to the escape key |
| Escapes.MouseReportDecodes | pytermfx/escapes.py:137-140 | `ESC [ M` and three bytes yield the mouse event `parse_mouse` gives, and decoding goes on after them |
| Escapes.TableMatch | pytermfx/escapes.py:132-143 | with the registered table some entry always matches, because `""` is registered, so the `for ... else` never raises |
| Escapes.NextRaisesOnlyOnShortMouse | pytermfx/escapes.py:14-16 | the only turn that raises is a mouse report cut short to fewer than 3 bytes |
| Escapes.OnlyShortMouseReportsRaise | pytermfx/escapes.py:107-151 | strict decoding fails only on a short mouse report at the end of the input |
| Escapes.LenientNeverRaises | pytermfx/escapes.py:144-149 | lenient decoding never raises |
| Escapes.StrictThenLenient | pytermfx/escapes.py:144-151 | strict decoding either succeeds with the lenient events, or raises after a prefix of them that the lenient mode completes with the raw dump of the rest |
| Input.InputDaemon.constructor | pytermfx/adaptors/input.py:9-20 | empty queues, no buffer, not running, event clear, timeout 0 |
| Input.InputDaemon.Start | pytermfx/adaptors/input.py:22-25 | sets running; the workers start once; nothing else changes |
| Input.InputDaemon.Collect | pytermfx/adaptors/input.py:45-50 | appends the character to the bounded input queue (at most 256) and to what was received |
| Input.InputDaemon.DumpGroup | pytermfx/adaptors/input.py:58-67 | a non-empty buffer becomes the next group and the buffer empties with timeout 0; an empty one changes nothing; the characters taken are unchanged |
| Input.InputDaemon.OnChar | pytermfx/adaptors/input.py:69-81 | an ESC dumps the pending group, starts a new one and sets timeout 10 x base; any other character is appended, and the timeout becomes base when it is a third character other than `M`; no character is lost, duplicated or reordered |
| Input.InputDaemon.OnTimeout | pytermfx/adaptors/input.py:82-85 | dumps a non-empty buffer and stops grouping; an empty buffer leaves the groups alone |
| Input.InputDaemon.Read | pytermfx/adaptors/input.py:27-43 | starts the workers at most once; pops the oldest group, FIFO, and the event is set iff groups remain; blocks when none is waiting; every group delivered has ESC only at its start |
| Colors.Clip | pytermfx/color.py:24 | a channel is clamped into 0..255 and kept when already in range |
| Colors.NewColor | pytermfx/color.py:20-27 | every channel is clamped |
| Colors.Hex | pytermfx/color.py:30-37 | red, green and blue are bytes 2, 1 and 0 of the value |
| Colors.HexRoundTrip | pytermfx/color.py:30-37 | `Color.hex(r*65536 + g*256 + b)` gives back (r, g, b) |
| Colors.Id16 | pytermfx/color.py:69 | palette index k maps to id k below 8 and to k + 52 above |
| Colors.Ansi16 | pytermfx/color.py:59-83 | the scan returns the code of a palette entry of least squared distance, the first such entry; a NamedColor gets the corrected code of color.py:136-137 (ids 8..15 give 90..97) |
| Colors.NearestUnique | pytermfx/color.py:77-83 | the first entry of least distance is unique |
| Colors.PaletteIsOwnNearest | pytermfx/color.py:65-68 | every palette colour is its own nearest entry |
| Colors.PaletteColorAnsi16 | pytermfx/color.py:77-83 | an exact palette colour gets its own code |
| Colors.Scale6 | pytermfx/color.py:96 | the scaled channel is 0..5 |
| Colors.Code256Grey | pytermfx/color.py:91-93 | a grey gives 232 + floor(24 v / 256), in 232..255 |
| Colors.Code256Cube | pytermfx/color.py:94-100 | a non-grey gives a code in 16..231 whose base-6 digits are the scaled channels |
| Colors.Ansi256Fields | pytermfx/color.py:85-101 | `ansi_256` is the fields 38 (48 for background), 5 and the code, which reads back as the code |
| Colors.AnsiRgbFields | pytermfx/color.py:103-110 | `ansi_rgb` is five fields, 38 (48) and 2 and the three channels, which read back as the channels |
| Colors.ToMode | pytermfx/color.py:48-57 | dispatches on the three modes and raises ValueError for anything else; a NamedColor gets the corrected code of color.py:136-137 in every mode |
| Colors.BrightNames | pytermfx/color.py:129 | the bright names are "bright" before each base name |
| Colors.NameToId | pytermfx/color.py:126-134 | succeeds iff the normalised name is a base or bright name, giving its index or 60 plus its index; ValueError otherwise |
| Colors.NormalizePlain | pytermfx/color.py:130 | a lower-case name without `li` is its own normal form |
| Colors.NormalizeLight | pytermfx/color.py:130 | "light" + name normalises to "bright" + name |
| Colors.NameIds | pytermfx/color.py:126-134 | each base name gets its index; its bright and light forms get 60 plus it |
| Colors.NamesDistinct | pytermfx/color.py:128-129 | the names are distinct, so `index` finds the one meant |
| Colors.NewNamed | pytermfx/color.py:115-124 | an id in 0..15 is kept; a name goes through `name_to_id`, and an unknown name raises ValueError; any other int reaches `name.lower()` and raises AttributeError |
| Colors.NamedAnsi16Codes | pytermfx/color.py:136-143 | every valid id gives a code in the 3/4-bit ranges 30..37 or 90..97 (40..47 or 100..107 for background), and ids 8 + i and 60 + i agree |
| Colors.NamedByNumberAsWritten | pytermfx/color.py:136-137 | as written, id 9 gives "39" while "bright red" gives "91" |
| Styles.CodesBelowBound | pytermfx/style.py:3-17 | every SGR code in the table is below the bound the serialiser scans |
| Styles.AddTo | pytermfx/style.py:25-29 | "reset" raises ValueError, an unknown name fails the assertion, and otherwise the mapped code is added and nothing else changes |
| Styles.AddIdempotent | pytermfx/style.py:25-29 | adding the same style twice is adding it once |
| Styles.RemoveFrom | pytermfx/style.py:31-32 | removes exactly the mapped code; KeyError when the name is unknown or its code is absent |
| Styles.AddThenRemove | pytermfx/style.py:25-32 | adding a new style and then removing it gives back the set |
| Styles.Style.constructor | pytermfx/style.py:20-21 | the new style is empty |
| Styles.Style.New | pytermfx/style.py:20-23 | the style holds exactly the codes of the names given, or the error of the first name that fails, every name before it being accepted |
| Styles.Style.Add | pytermfx/style.py:25-29 | the set becomes the result of `AddTo`; on an error it is unchanged |
| Styles.Style.Remove | pytermfx/style.py:31-32 | the set becomes the result of `RemoveFrom`; on an error it is unchanged |
| Styles.Style.Clear | pytermfx/style.py:34-35 | the set is empty |
| Styles.Style.Ansi | pytermfx/style.py:37-38 | the SGR string of the style's codes |
| Styles.Ascending | pytermfx/style.py:38 | the codes below a bound, each once, in ascending order |
| Styles.SgrAll | pytermfx/style.py:38 | one `CSI n m` per code, in order |
| Styles.SgrAllReadsBack | pytermfx/style.py:38 | each control is well formed and its parameter reads back as its code |
| Styles.AscendingControls | pytermfx/style.py:38 | the controls are SGR, a code is present iff it is in the set, and no code is repeated |
| Styles.AnsiOfReadsBack | pytermfx/style.py:37-38 | `ansi()` parses as SGR controls whose codes are exactly the set, each once |
| Styles.NoneAnsi | pytermfx/style.py:53-54 | `Style.none.ansi()` parses as the single control `CSI 0 m` |
| Ecma48.ParamRun | pytermfx/adaptors/vt100.py:80 | the parameter run is the longest prefix of parameter bytes |
| Ecma48.ParseRenderAll | pytermfx/adaptors/vt100.py:48-111 | any sequence of well-formed controls renders to a string that parses back to exactly those controls |
| Ecma48.RenderParse | pytermfx/adaptors/vt100.py:48-111 | a string that parses renders back from its controls, which are well formed |
| Ecma48.ParseOne | pytermfx/adaptors/vt100.py:48-111 | one well-formed control parses back to itself |
| Ecma48.FieldValues | pytermfx/adaptors/vt100.py:80 | numeric fields give one number per field |
| Ecma48.FieldValuesOfNats | pytermfx/adaptors/vt100.py:80 | the decimal fields of numbers read back as those numbers |
| Ecma48.NumbersOfWithNumbers | pytermfx/adaptors/vt100.py:80 | a control built from numbers is well formed and its fields read back as them |
| Vt100.CursorToRenders | pytermfx/adaptors/vt100.py:79-80 | `cursor_to(x, y)` renders CUP with parameters y + 1 and x + 1 |
| Vt100.CursorToReadsBack | pytermfx/adaptors/vt100.py:79-80 | what `cursor_to(x, y)` appends parses as one CUP that addresses (x, y) 0-based |
| Vt100.CursorToXReadsBack | pytermfx/adaptors/vt100.py:82-83 | what `cursor_to_x(x)` appends parses as one CHA to column x |
| Vt100.MoveXRenders | pytermfx/adaptors/vt100.py:85-89 | x < 0 appends CUB by abs(x), x > 0 CUF by x, and 0 nothing; the displacement is (x, 0) |
| Vt100.MoveYRenders | pytermfx/adaptors/vt100.py:90-93 | with the count taken from y, the vertical part moves by (0, y) |
| Vt100.DisplacementAppend | pytermfx/adaptors/vt100.py:85-93 | the moves of two runs of controls add up, and a run with any control that is not a move is no move |
| Vt100.CursorMoveReadsBack | pytermfx/adaptors/vt100.py:85-93 | corrected `cursor_move(x, y)` parses back as controls that move the cursor by exactly (x, y) |
| Vt100.CursorMoveAsWrittenMisreads | pytermfx/adaptors/vt100.py:90-93 | as written, `cursor_move(3, -1)` moves up 3 rows instead of 1 |
| Vt100.ClearPiecesReadBack | pytermfx/adaptors/vt100.py:48-58 | clear, clear_to_end, cursor_to_start and clear_line append ED 2, EL 0, CHA 1, and CHA 1 then EL 2 |
| Vt100.CursorPiecesReadBack | pytermfx/adaptors/vt100.py:73-77 | cursor_save, cursor_restore and style_reset append `CSI s`, `CSI u` and SGR 0 |
| Vt100.VisibleReadsBack | pytermfx/adaptors/vt100.py:69-71 | `CSI ?25h` or `CSI ?25l` as the flag says |
| Vt100.MouseOnReadsBack | pytermfx/adaptors/vt100.py:12-25 | the mode's set-mode control, then `CSI ?1005h` |
| Vt100.MouseOffReadsBack | pytermfx/adaptors/vt100.py:27-37 | the three reset-mode controls 1001, 1002 and 1003 |
| Base.Span | pytermfx/adaptors/base.py:70 | `range(lo, hi)`: the integers from lo below hi, in order |
| Base.DrawsShape | pytermfx/adaptors/base.py:70-72 | each filled row appends a cursor move to the row's start and then the run |
| Base.FillBoxRows | pytermfx/adaptors/base.py:70 | the corrected rows are exactly the rows of the box on the screen |
| Base.FillBoxColumns | pytermfx/adaptors/base.py:71-72 | the corrected run covers exactly the columns of the box on the screen, from the first of them |
| Base.FillBoxAsWrittenRowsOverflow | pytermfx/adaptors/base.py:70 | as written, a 10-row box from row 20 on an 80x24 screen draws rows 20 to 29 |
| Base.FillBoxAsWrittenRunOverflow | pytermfx/adaptors/base.py:72 | as written, a 100-wide box from column -2 on an 80-column screen writes 82 characters from column 0 |
| Base.FillBoxZeroWidth | pytermfx/adaptors/base.py:6-72 | with the initial width 0 nothing is drawn |
| Adaptors.Adaptor.constructor | pytermfx/adaptors/vt100.py:6-10 | empty buffer and output, size 0 x 0, 256-colour mode, cursor hidden, no mouse mode, cbreak unset |
| Adaptors.Adaptor.Write | pytermfx/adaptors/base.py:44-48 | appends one string per argument, in order, and nothing else changes |
| Adaptors.Adaptor.WriteLn | pytermfx/adaptors/base.py:50-54 | `write(things, "\n")` |
| Adaptors.Adaptor.Flush | pytermfx/adaptors/base.py:56-60 | emits the buffer's concatenation as one output and empties the buffer |
| Adaptors.Adaptor.FillBox | pytermfx/adaptors/base.py:67-73 | the loop appends the corrected box pieces |
| Adaptors.Adaptor.ClearBox | pytermfx/adaptors/base.py:75-76 | `fill_box` with a space |
| Adaptors.Adaptor.MouseEnable | pytermfx/adaptors/vt100.py:12-25 | without cbreak raises (AttributeError when never set, ValueError when off), an unknown mode fails the assertion, and nothing changes; otherwise records the mode and flushes the enable sequence |
| Adaptors.Adaptor.MouseDisable | pytermfx/adaptors/vt100.py:27-37 | without a mode nothing changes; otherwise flushes the three disables; the mode ends cleared |
| Adaptors.Adaptor.SetColorMode | pytermfx/adaptors/vt100.py:39-46 | a non-mode raises ValueError and leaves the mode; otherwise records it |
| Adaptors.Adaptor.Clear | pytermfx/adaptors/vt100.py:48-51 | appends ED 2 |
| Adaptors.Adaptor.ClearLine | pytermfx/adaptors/vt100.py:53-55 | appends CHA 1 then EL 2 |
| Adaptors.Adaptor.ClearToEnd | pytermfx/adaptors/vt100.py:57-58 | appends EL 0 |
| Adaptors.Adaptor.Reset | pytermfx/adaptors/vt100.py:60-66 | flushes, turns cbreak off, disables the mouse, resets the style and shows the cursor, as two or three outputs |
| Adaptors.Adaptor.CursorSetVisible | pytermfx/adaptors/vt100.py:69-71 | appends the visibility control and records the flag |
| Adaptors.Adaptor.CursorSave | pytermfx/adaptors/vt100.py:73-74 | appends `CSI s` |
| Adaptors.Adaptor.CursorRestore | pytermfx/adaptors/vt100.py:76-77 | appends `CSI u` |
| Adaptors.Adaptor.CursorTo | pytermfx/adaptors/vt100.py:79-80 | appends the CUP pieces |
| Adaptors.Adaptor.CursorToX | pytermfx/adaptors/vt100.py:82-83 | appends the CHA pieces |
| Adaptors.Adaptor.CursorMove | pytermfx/adaptors/vt100.py:85-93 | appends the corrected relative-move pieces |
| Adaptors.Adaptor.CursorToStart | pytermfx/adaptors/vt100.py:95-96 | appends CHA 1 |
| Adaptors.Adaptor.StyleReset | pytermfx/adaptors/vt100.py:108-111 | appends SGR 0 |
| Adaptors.Adaptor.SetCbreak | pytermfx/adaptors/unix.py:29-36 | records the flag and nothing else |
| Adaptors.Adaptor.ReadCh | pytermfx/adaptors/unix.py:38-41 | AttributeError when cbreak was never set, ValueError when it is off, otherwise the next character |
| Adaptors.Adaptor.CursorGetPos | pytermfx/adaptors/unix.py:63-79 | cbreak unset raises AttributeError and nothing changes; otherwise cbreak is turned on and never restored, `CSI 6n` is flushed, and the reply is parsed |
| Adaptors.Adaptor.SizeTry | pytermfx/adaptors/unix.py:47-54 | one try: save, move to (9999, 9999), query and parse |
| Adaptors.Adaptor.GetSize | pytermfx/adaptors/unix.py:43-61 | corrected loop (see Findings): gives the first successful size among three tries, else RuntimeError; each try flushes one query |
| Adaptors.ProbeFlushes | pytermfx/adaptors/unix.py:47-54 | n tries flush n queries, the first carrying what was buffered |
| Adaptors.SizeTriesAt | pytermfx/adaptors/unix.py:55-61 | the loop stops at the first reply that parses, or when replies run out |
| Adaptors.SizeTriesAllFail | pytermfx/adaptors/unix.py:55-61 | in the corrected loop, when every reply fails, all three tries are made |
| Adaptors.SizeLoopWaits | pytermfx/adaptors/unix.py:55-61 | with fewer failing replies than tries, the loop is still waiting |
| Unix.DigitRun | pytermfx/adaptors/unix.py:75 | `\d+` takes the longest run of digits |
| Unix.ParseCpr | pytermfx/adaptors/unix.py:75-79 | a success is a reply starting `ESC [ row ; col R` with decimal digits, giving (col - 1, row - 1); anything else is RuntimeError |
| Unix.ParseCprComplete | pytermfx/adaptors/unix.py:75-79 | every reply of that form parses, whatever follows it |
| Unix.CprRoundTrip | pytermfx/adaptors/unix.py:75-79 | the report for position (x, y), followed by anything, parses back to (x, y) |
| Unix.SizeOf | pytermfx/adaptors/unix.py:47-54 | the size is the parsed position plus one in each direction |
| Unix.SizeOfCornerReport | pytermfx/adaptors/unix.py:47-54 | a report at row h and column w gives the size (w, h) |
| Unix.SizeLoopOutcome | pytermfx/adaptors/unix.py:55-61 | the corrected loop fails iff all the tries fail, and succeeds iff one of them parses |
| Unix.SizeLoopFirst | pytermfx/adaptors/unix.py:55-61 | the size is the one from the first reply that parses |
| Unix.SizeLoopAsWritten | pytermfx/adaptors/unix.py:55-61 | as written the loop never fails; it ends only on a reply that parses |
| Unix.SizeLoopNeverGivesUp | pytermfx/adaptors/unix.py:55-61 | three bad replies leave the loop as written still trying, while the corrected one raises |
| Terminals.Asked | pytermfx/terminal.py:54-60 | corrected loop: the size query gives the adaptor's three-try outcome, and it fails only with RuntimeError |
| Terminals.AskedAsWritten | pytermfx/adaptors/unix.py:55-61 | the loop as written, cut off after a number of tries, never ends in an error |
| Terminals.UnsetNeverReturns | pytermfx/adaptors/unix.py:55-61 | as written, with cbreak unset no number of tries ends the Unix adaptor's size query, so a `Terminal` built on a `UnixAdaptor` never returns |
| Terminals.StoreAnswer | pytermfx/terminal.py:54-67 | after a `get_size` that returns, the defaults are unused; `NotImplemented` raises TypeError, and a size is stored with True iff it differs from the current one |
| Terminals.PlatformConstructionRaises | pytermfx/terminal.py:6-20 | as written, `Terminal()` on the `VT100Adaptor` that adaptors/__init__.py:3 selects raises TypeError from the `get_size` stub |
| Terminals.AskedAsWrittenWhenSet | pytermfx/adaptors/unix.py:55-61 | as written, with cbreak set, enough tries end on the first reply that parses, or keep waiting |
| Terminals.Terminal.Init | pytermfx/terminal.py:6-19 | a fresh adaptor, size 0 x 0, no handlers |
| Terminals.Terminal.New | pytermfx/terminal.py:6-20 | corrected loop: construction queries the size with cbreak unset, so three failed tries end it with RuntimeError |
| Terminals.Terminal.AddResizeHandler | pytermfx/terminal.py:22-25 | appends the handler |
| Terminals.Terminal.UpdateSize | pytermfx/terminal.py:46-67 | stores the new size and returns True iff it differs; uses the defaults only when the query fails and defaults are given; otherwise re-raises |
| Terminals.Terminal.HandleResize | pytermfx/terminal.py:27-31 | calls every handler once, in order, exactly when the size changed |
| Terminals.Terminal.Print | pytermfx/terminal.py:105-110 | writes the joined things and the end, then flushes once |
| Terminals.PrintedItems | pytermfx/terminal.py:105-110 | the printed line minus its end splits back into the things when the separator is not in them |
| Terminals.Terminal.FillBox | pytermfx/terminal.py:160-166 | appends the corrected box pieces for the terminal's size |
| Terminals.Terminal.ClearBox | pytermfx/terminal.py:168-170 | `fill_box` with a space, through the corrected Terminals.Terminal.FillBox |
| Terminals.Terminal.ManagedExit | pytermfx/terminal.py:39-43 | always resets the adaptor, and suppresses only KeyboardInterrupt |
| Display.RoutePart | pytermfx/display.py:13-21 | one argument replaces only the part of its own kind |
| Display.RoutedLast | pytermfx/display.py:13-21 | each part ends as the last argument of its kind, or keeps its value when there is none |
| Display.VirtualStyle.AddStyles | pytermfx/display.py:13-21 | the look becomes the arguments routed in order |
| Display.VirtualStyle.constructor | pytermfx/display.py:7-11 | corrected (see Findings): the default look with the arguments routed one by one, as `add_styles(*styles)` would |
| Display.InitialLookDropsArgs | pytermfx/display.py:7-11 | as written, a style given to the constructor is dropped |
| Display.BlankGrid | pytermfx/display.py:40-44 | an h x w grid of blank dirty cells |
| Display.PyIndex | pytermfx/display.py:50 | Python list indexing: negative indices count from the end, and IndexError outside |
| Display.AdvanceInBounds | pytermfx/display.py:56-58 | the cursor moves one cell in row-major order, wraps at the width, stays on the last row, and stays in bounds |
| Display.WriteChar | pytermfx/display.py:48-58 | writes value, look and dirty to the cursor cell only and advances the cursor, or raises IndexError and changes nothing |
| Display.WriteTextAppend | pytermfx/display.py:60-63 | writing a + b is writing a and then b, stopping at the first error |
| Display.WriteTextInBounds | pytermfx/display.py:56-63 | from a cursor in bounds, writing never fails and keeps the grid's shape and the cursor in bounds |
| Display.StopsAtError | pytermfx/display.py:60-63 | after an error, nothing more is written |
| Display.RowDraws | pytermfx/display.py:72-78 | a row sends exactly its dirty cells, left to right |
| Display.DirtyDraws | pytermfx/display.py:71-78 | the grid sends exactly its dirty cells, in row-major order |
| Display.CleanRow | pytermfx/display.py:78 | every cell of the row is kept with its dirty flag cleared |
| Display.Cleaned | pytermfx/display.py:71-78 | every row is cleaned |
| Display.RowDrawsClean | pytermfx/display.py:74 | a clean row sends nothing |
| Display.RefreshTwice | pytermfx/display.py:70-79 | after a refresh, the next one sends no cell |
| Display.VirtualTerminal.constructor | pytermfx/display.py:35-46 | a blank grid of the terminal's size, cursor (0, 0), default look, nothing sent |
| Display.VirtualTerminal.Resize | pytermfx/display.py:40-44 | the grid becomes a blank grid of the new size |
| Display.VirtualTerminal.WriteCh | pytermfx/display.py:48-58 | the screen becomes what `WriteChar` gives |
| Display.VirtualTerminal.WriteThing | pytermfx/display.py:62-63 | the screen becomes what writing the thing's characters in order gives |
| Display.VirtualTerminal.Write | pytermfx/display.py:60-63 | the screen becomes what writing all the things' characters in order gives |
| Display.VirtualTerminal.CursorTo | pytermfx/display.py:65-68 | moves the cursor iff the target is on the screen, otherwise AssertionError and nothing changes |
| Display.VirtualTerminal.RefreshRow | pytermfx/display.py:72-78 | sends the row's dirty cells and cleans the row |
| Display.VirtualTerminal.Refresh | pytermfx/display.py:70-79 | sends the dirty cells in row-major order, then a flush, and cleans the grid |
| Markdown.ApplyStyle | pytermfx/md.py:82-90 | a reset, then one style call per active environment that has a style-map entry, in the order of the environment dict |
| Markdown.EachItemStyle | pytermfx/md.py:8-19 | bold, italic, underline and code have their styles when on; strikethrough has none; headers 1 to 6 have theirs |
| Markdown.ItemStylesOfEnv | pytermfx/md.py:82-90 | the style calls are those of the active environments, each once, in dict order |
| Markdown.HashRun | pytermfx/md.py:59 | the longest run of `#` |
| Markdown.SpaceRun | pytermfx/md.py:59 | the longest run of Unicode whitespace |
| Markdown.MatchHeader | pytermfx/md.py:59 | a header match has level 1..6 and spans at least the level |
| Markdown.MatchHeaderShape | pytermfx/md.py:59 | the header pattern matches iff the text starts with `#` or with a newline and `#`; the match is the newline, up to six `#` and the whitespace after |
| Markdown.MatchLength | pytermfx/md.py:59-60 | every match consumes at least one character |
| Markdown.FirstMatch | pytermfx/md.py:94-103 | the parser found matches the text at its own length |
| Markdown.FirstMatchNone | pytermfx/md.py:94-104 | no parser is found iff no parser matches |
| Markdown.FirstMatchAt | pytermfx/md.py:94-103 | the scan takes the first matching parser in table order |
| Markdown.FirstMatchSkips | pytermfx/md.py:94-103 | parsers that miss are passed over |
| Markdown.Step | pytermfx/md.py:92-106 | every turn advances by at least one character and stays in the text |
| Markdown.Turn | pytermfx/md.py:92-106 | every turn, matched or not, advances and stays in the text |
| Markdown.FindParser | pytermfx/md.py:94-97 | the loop over `_env_parsers` finds the first parser that matches |
| Markdown.RunParser | pytermfx/md.py:21-50 | the parser's output and new environment |
| Markdown.TakeTurn | pytermfx/md.py:93-106 | one turn of the loop, as `Turn` defines it |
| Markdown.Render | pytermfx/md.py:63-106 | the log of the whole scan from the start environment |
| Markdown.RenderLines | pytermfx/md.py:67-71 | a list of lines renders as its concatenation |
| Markdown.PlainVerbatim | pytermfx/md.py:104-106 | text without markers is written one character at a time, in order |
| Markdown.NoMatchOnPlain | pytermfx/md.py:104-106 | a character that starts no marker matches no parser |
| Markdown.DoubleStarIsBold | pytermfx/md.py:52-61 | `**` is bold, not two italics |
| Markdown.DoubleUnderscoreIsUnderline | pytermfx/md.py:52-61 | `__` is underline, not two italics |
| Markdown.SingleStarIsItalic | pytermfx/md.py:52-61 | a lone `*` is italic |
| Markdown.MarkerToggles | pytermfx/md.py:21-23 | a marker flips its flag, is not written, and the style is reapplied |
| Markdown.MarkersMissOn | pytermfx/md.py:52-58 | no marker matches at `#` or at a newline |
| Markdown.HashStartsHeader | pytermfx/md.py:40-45 | a `#` anywhere sets the header level to its run of `#`, at most 6, and the style is reapplied |
| Markdown.NewlineMatch | pytermfx/md.py:59-60 | a newline not followed by `#` is matched by the newline parser |
| Markdown.NewlineEndsHeader | pytermfx/md.py:47-50 | that newline writes "\n", resets the header to 0, and the style is reapplied |
| Tools.CenterColumn | pytermfx/tools.py:132 | the column is never negative, centres the text with the odd column on the right, and is 0 when the text is too wide |
| Tools.PrintHcenter | pytermfx/tools.py:131-134 | moves to the centre column on row y, then prints the text and flushes |
| Tools.Chars | pytermfx/tools.py:167 | `buffer += candidate` adds one item per character |
| Tools.CharsText | pytermfx/tools.py:145 | the candidate's items stringify back to the candidate |
| Tools.LineTextAppend | pytermfx/tools.py:145 | stringify distributes over concatenation |
| Tools.TypeThenBackspace | pytermfx/tools.py:157-169 | a printable key is appended and adds its text, and a Backspace after it restores the line |
| Tools.BackspaceDropsLast | pytermfx/tools.py:157-161 | Backspace removes exactly the last item, and that item's text, from a non-empty line and leaves an empty line alone |
| Tools.OtherKeysKeepLine | pytermfx/tools.py:157-169 | a key that is neither Backspace, Tab nor printable leaves the line unchanged |
| Tools.LastWordSuffix | pytermfx/tools.py:163 | the last word is a space-free suffix of the text, preceded by a space when shorter than the text |
| Tools.OneCharPrefix | pytermfx/tools.py:166 | on a line of one-character items, dropping items drops the same characters |
| Tools.TabReplacesLastWord | pytermfx/tools.py:162-167 | with no candidate nothing changes; otherwise the last word is replaced by the candidate |
| Tools.TabAfterSpaceAsWritten | pytermfx/tools.py:166 | as written, Tab after a space throws the line away and keeps only the candidate |
| Tools.TabAfterSpaceExample | pytermfx/tools.py:166 | "ls " completed with "file" gives "file" as written and "ls file" when corrected |
| Tools.TypingStep | pytermfx/tools.py:153-170 | with the corrected Tab of tools.py:166: a key other than Enter flushes the edit and the redraw, and the session goes on from the edited line |
| Tools.TurnAsWritten | pytermfx/tools.py:153-170 | as written, one turn on what `getch` returned: Enter stops, another event edits the line, and the stub's `NotImplemented` raises AttributeError |
| Tools.StubGetchRaises | pytermfx/tools.py:154-168 | `NotImplemented` from the `getch` stub equals none of the three keys (`Key.__eq__` answers NotImplemented), so the first turn raises AttributeError |
| Tools.Redraw | pytermfx/tools.py:147-150 | restores the cursor, writes the line and flushes |
| Tools.EditKey | pytermfx/tools.py:157-170 | with the corrected Tab of tools.py:166: the line becomes the edited line; the erase and the redraw are flushed |
| Tools.NextKey | pytermfx/tools.py:153-170 | with the corrected Tab of tools.py:166: one turn of the loop keeps the output a prefix of the session's |
| Tools.EditUntilEnter | pytermfx/tools.py:152-170 | with the corrected Tab of tools.py:166: the loop's output, line and stop are those of the session over the key script |
| Tools.ReadLine | pytermfx/tools.py:137-174 | with the corrected Tab of tools.py:166: with cbreak unset raises AttributeError and changes nothing; otherwise edits until Enter, restores the previous cbreak, writes a newline and returns the stringified line; without an Enter it is still waiting |

## Left out

- Threads and blocking:
  - `Event`, `multiprocessing.Queue` and real timeouts in
    pytermfx/adaptors/input.py. The grouper is a sequential machine fed
    explicit character and timeout events.
  - `Input.InputDaemon.Collect` requires room in the queue, where the
    source would block.
  - `Input.InputDaemon.Read` reports `Blocks` where the source would
    wait.
- `Input.InputDaemon.Read`: the `""` return cannot happen in the model,
  where appending a group and setting the event are one step. In the
  source it can: `read` may pop the group and clear the event between
  the grouper's append (input.py:66) and its `set()` (input.py:67). The
  next `read` then finds the event set on an empty queue and returns
  `""` (input.py:34-36).
- OS plumbing:
  - termios, tty, signal, the SIGWINCH handler and its lock, and file
    reads in pytermfx/adaptors/unix.py;
  - pytermfx/adaptors/win32.py;
  - the platform import fallback in pytermfx/adaptors/__init__.py;
  - the legacy pytermfx.py;
  - `InputAdaptor.getch_raw`, which only forwards to the daemon.
- Not part of this model:
  - `TerminalApp` and `draw_progress` in pytermfx/tools.py;
  - `Color.rgb` and `Color.hsl` (floating point);
  - the demo scripts and setup.py.
- `VT100Adaptor.style` and `Terminal.style` are not modelled: they call
  `to_mode` without its `bg` argument.
- `Colors.Ansi16` compares squared distances instead of `math.sqrt`.
  The order is the same, so the result is the same.
- Display styles are opaque values:
  - `NamedColor(..., bg=True)` and `Color._bg`, used by
    pytermfx/display.py, are not defined in pytermfx/color.py;
  - `Display.VirtualStyle.constructor` takes each argument's kind and
    background flag as given, rather than raising the `TypeError` the
    missing keyword would raise;
  - `apply_to` is not modelled: refresh records which look each cell is
    drawn in, not the SGR bytes.
- `Display.VirtualTerminal.Resize` takes the terminal's size as
  arguments. The model does not capture the `Terminal` object that
  `resize` reads through.
- `Markdown.Render`: each style call's arguments are recorded by name
  (`Style`/`NamedColor`), not as SGR bytes. The regexes are modelled as
  prefix checks, with `\s` as Unicode whitespace.
- `Tools.ReadLine`:
  - the key script replaces `terminal.getch()`. As written, `getch` is
    the stub of pytermfx/adaptors/base.py:31-35 and returns
    `NotImplemented`, which matches none of Enter, Backspace and Tab.
    `read_line` therefore raises `AttributeError` at
    pytermfx/tools.py:168 on its first key, after setting cbreak and
    saving the cursor (`Tools.TurnAsWritten`). The keys of the script
    are those a `getch` built on `getch_raw` and `parse_escape` would
    decode; `parse_escape` is called nowhere in the library;
  - `update` is fixed to its default, which writes the line;
  - `autocomplete` is a total function: the default `lambda: None`
    would raise `TypeError` when called with the word.
- `Tools.TabReplacesLastWord` requires one character per item. Keys
  whose `str` is longer (named keys such as "up") can be buffered, and
  for them the slice counts items, not characters.
- `Keys.NewKey`: `lower()` and `isupper()` are ASCII-only here.
  Python's are Unicode-wide.
- `Unix.DigitRun`: `\d` is the ASCII digits here. Python's `re` also
  matches other Unicode decimal digits.
- `Unix.ParseCpr`: a reply whose digits are not ASCII does not parse
  here, where Python's `\d+` and `int` would accept it.
- `Colors.NameToId`: `lower()` is ASCII-only here. Python's is
  Unicode-wide.
- `Adaptors.Adaptor.GetSize` counts its tries and raises `RuntimeError`
  after three, as the unix.py:55-61 finding corrects. As written,
  `UnixAdaptor.get_size` never gives up, and with cbreak unset it never
  returns (`Terminals.UnsetNeverReturns`).
- `Adaptors.SizeTriesAllFail` is about the corrected three-try loop of
  unix.py:55-61.
- `Terminals.Asked` gives the corrected loop's outcome on a Unix
  adaptor. As written, on that adaptor with cbreak unset the query never
  returns (`Terminals.AskedAsWritten`).
- `Terminals.Terminal.New` builds a Unix adaptor where
  pytermfx/adaptors/__init__.py:3 selects `VT100Adaptor`, and ends in
  `RuntimeError` because it uses the corrected loop. As written,
  `Terminal()` raises `TypeError` from the `get_size` stub
  (`Terminals.PlatformConstructionRaises`); on a `UnixAdaptor` it would
  never return (`Terminals.UnsetNeverReturns`).
- `Terminals.Terminal.UpdateSize` and `Terminals.Terminal.HandleResize`
  go through the corrected loop, by way of `Terminals.Asked`.
- `Adaptors.Adaptor.CursorMove` emits the corrected vertical count
  abs(y), after the vt100.py:90-93 finding. As written,
  `cursor_move(3, -1)` emits `CSI 3 A`.
- `Adaptors.Adaptor.FillBox` bounds rows by the height and writes the
  visible run, after the base.py:70 and base.py:72 findings. With the
  adaptor's width and height of 0, both versions draw nothing.
- `Terminals.Terminal.FillBox` bounds rows by the height and writes the
  visible run, after the base.py:70 and base.py:72 findings
  (terminal.py:163-165 repeats both).
- `Terminals.Terminal.ClearBox` goes through the corrected
  `Terminals.Terminal.FillBox`.
- `Display.VirtualStyle.constructor` routes each argument, as
  `add_styles(*styles)` would, after the display.py:7-11 finding. As
  written, the tuple is passed as one argument and the arguments are
  dropped (`Display.InitialLookDropsArgs`).
- `Colors.Ansi16` gives a `NamedColor` with id 8..15 the corrected code
  90..97 (100..107), after the color.py:136-137 finding. As written it
  gives 38..45 (`Colors.NamedByNumberAsWritten`).
- `Colors.ToMode` gives a `NamedColor` the corrected code in every mode,
  since `ansi_256` and `ansi_rgb` fall back to `ansi_16`.
- `Tools.TypingStep` goes through the corrected Tab of the tools.py:166
  finding. As written, Tab after a space leaves only the candidate
  (`Tools.TabAfterSpaceAsWritten`).
- `Tools.EditKey` applies the corrected Tab of tools.py:166.
- `Tools.NextKey` is one turn of the edit with the corrected Tab of
  tools.py:166.
- `Tools.EditUntilEnter` runs the session with the corrected Tab of
  tools.py:166.
- `Tools.ReadLine` edits with the corrected Tab of tools.py:166. As
  written, "ls " completed with "file" leaves "file", where the model
  leaves "ls file".
- `Styles.Style.Ansi` emits the codes in ascending order. Python's set
  iteration order is an implementation detail, so the model fixes one
  order and proves each code appears exactly once.
- `Terminals.Terminal.New` models the Unix adaptor only. Neither the
  `VT100Adaptor` that pytermfx/adaptors/__init__.py:3 selects nor the
  fallback to `BaseAdaptor` is built by the model; their stub `get_size`
  is captured only by `Terminals.StoreAnswer`.

## Findings

| source | as written | input that shows it | evidently intended | confidence | as-written member | corrected member |
|---|---|---|---|---|---|---|
| pytermfx/color.py:136-137 | `NamedColor.ansi_16` adds 30 (40) to the id for every id | `NamedColor(9).ansi_16()` gives "39", the default-foreground code, not bright red | ids 8..15 are the bright colours, 90..97 (100..107), the same as ids 60..67 from `name_to_id` | medium, not executed | Colors.NamedByNumberAsWritten | Colors.NamedAnsi16Codes |
| pytermfx/adaptors/vt100.py:90-93 | the vertical move's count is taken from x | `cursor_move(3, -1)` emits `CSI 3 A`, up three rows | the count is abs(y) (y for down) | high, not executed | Vt100.CursorMoveAsWrittenMisreads | Vt100.CursorMoveReadsBack |
| pytermfx/adaptors/base.py:70 | `fill_box` rows stop at `self.w`, the width (also pytermfx/terminal.py:163) | a 10-row box from row 20 on an 80x24 screen draws rows 20 to 29 | rows stop at the height `self.h` | high, not executed | Base.FillBoxAsWrittenRowsOverflow | Base.FillBoxRows |
| pytermfx/adaptors/base.py:72 | the run is `min(min(w, w+x), self.w - x)` (also pytermfx/terminal.py:165) | x = -2, w = 100 on 80 columns writes 82 characters from column 0 | the visible part of the box, `min(w + min(x, 0), self.w - max(x, 0))` | high, not executed | Base.FillBoxAsWrittenRunOverflow | Base.FillBoxColumns |
| pytermfx/adaptors/unix.py:55-61 | `tries` is never incremented, so the loop never gives up | three unparsable replies: the loop asks again for ever | three tries, then RuntimeError | high, not executed | Unix.SizeLoopNeverGivesUp | Unix.SizeLoopOutcome |
| pytermfx/display.py:7-11 | `add_styles(styles)` passes the tuple as one argument | if line 9 worked, `VirtualStyle(bold)` would keep the default style; as written, line 9 already raises TypeError, since `NamedColor` takes no `bg` keyword, and the default `VirtualStyle()` at line 29 makes the import itself fail | `add_styles(*styles)` | high, not executed | Display.InitialLookDropsArgs | Display.RoutedLast |
| pytermfx/tools.py:166 | `buffer[:-len(word)]` with an empty word is `buffer[:-0]`, the empty list | "ls " completed with "file" leaves "file" | keep the line and append the candidate: "ls file" | high, not executed | Tools.TabAfterSpaceAsWritten | Tools.TabReplacesLastWord |
