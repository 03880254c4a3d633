/** The markdown renderer of md.py: a scan over the text that, at each
    position, tries the entries of `_env_parsers` in order as prefix
    matches; a marker toggles its environment, a header sets its level, a
    newline ends it, and after each of them the style is reset and the
    styles of the active environments are applied again. Any other
    character is written as it is. The terminal is the log of `write` and
    `style` calls; the styles are named, not rendered. */
module Markdown {
  import opened Wrappers
  import opened Text
  import opened Base

  /** A style argument handed to `terminal.style`: `Style.none`, a `Style`
      of the given SGR names, or a `NamedColor`. */
  datatype StyleRef = NoStyle | Sgr(names: seq<string>) | Named(color: string)

  /** What `render` does to the terminal. */
  datatype Out = Wrote(text: string) | Styled(args: seq<StyleRef>)

  /** The keys of `active_env`, in the order the dict was built. */
  datatype EnvName = Bold | Italic | Underline | Strikethrough | InlineCode | Header

  /** `active_env`: five flags and the header level. */
  datatype Env = Env(bold: bool, italic: bool, underline: bool, strikethrough: bool, code: bool, header: int)

  const StartEnv := Env(false, false, false, false, false, 0)

  function B2I(b: bool): int { if b then 1 else 0 }

  /** `active_env.items()`, with `True` as 1 and `False` as 0 as Python's
      dict keys compare them. */
  function EnvItems(env: Env): seq<(EnvName, int)> {
    [(Bold, B2I(env.bold)), (Italic, B2I(env.italic)), (Underline, B2I(env.underline)),
     (Strikethrough, B2I(env.strikethrough)), (InlineCode, B2I(env.code)), (Header, env.header)]
  }

  /** `_style_map`: the arguments `terminal.style` gets for an item of
      `active_env`, if the map has an entry for it; the strikethrough
      environment has none. */
  function StyleEntry(item: (EnvName, int)): Option<seq<StyleRef>> {
    match item.0
    case Bold => if item.1 == 1 then Some([Sgr(["bold"])]) else None
    case Italic => if item.1 == 1 then Some([Sgr(["italic"])]) else None
    case Underline => if item.1 == 1 then Some([Sgr(["underline"])]) else None
    case Strikethrough => None
    case InlineCode => if item.1 == 1 then Some([Named("light green")]) else None
    case Header => if 1 <= item.1 <= 6 then Some(HeaderStyles(item.1)) else None
  }

  /** The styles of a header of level `level`. */
  function HeaderStyles(level: int): seq<StyleRef> {
    if level <= 2 then
      [Sgr(["bold", "underline"])] + (if level == 2 then [Named("light black")] else [])
    else
      [Sgr(["bold"])] + (if level == 6 then [Named("light black")] else [])
  }

  /** The calls `apply_style` makes, written per environment: the reset,
      then bold, italic, underline, inline code and the header when each
      is on; strikethrough adds nothing. */
  function ActiveStyles(env: Env): seq<Out> {
    [Styled([NoStyle])]
    + When(env.bold, Styled([Sgr(["bold"])]))
    + When(env.italic, Styled([Sgr(["italic"])]))
    + When(env.underline, Styled([Sgr(["underline"])]))
    + When(env.code, Styled([Named("light green")]))
    + When(1 <= env.header <= 6, Styled(HeaderStyles(env.header)))
  }

  /** The call `call` if `on`, and none otherwise. */
  function When(on: bool, call: Out): seq<Out> {
    if on then [call] else []
  }

  /** The calls for the items `items` of `active_env` that are on and have
      an entry in `_style_map`. */
  function ItemStyles(items: seq<(EnvName, int)>): seq<Out>
    decreases |items|
  {
    if items == [] then []
    else
      ItemStyles(items[..|items| - 1]) + ItemStyle(items[|items| - 1])
  }

  /** The call for one item of `active_env`: none when it is off or has no
      entry in `_style_map`. */
  function ItemStyle(item: (EnvName, int)): seq<Out> {
    if item.1 != 0 && StyleEntry(item).Some? then [Styled(StyleEntry(item).value)] else []
  }

  /** `apply_style`: reset, then one `style` call per active environment
      with an entry in `_style_map`, in the order of `active_env`. */
  method ApplyStyle(env: Env) returns (out: seq<Out>)
    ensures out == ActiveStyles(env)
  {
    out := [Styled([NoStyle])];
    var items := EnvItems(env);
    for k := 0 to |items|
      invariant out == [Styled([NoStyle])] + ItemStyles(items[..k])
    {
      var item := items[k];
      var entry := StyleEntry(item);
      if item.1 != 0 && entry.Some? {
        out := out + [Styled(entry.value)];
      }
      assert items[..k + 1][..k] == items[..k];
      assert out == [Styled([NoStyle])] + ItemStyles(items[..k]) + ItemStyle(item);
    }
    assert items[..|items|] == items;
    ItemStylesOfEnv(env);
  }

  /** The loop of `apply_style` over the items of `active_env` makes the
      calls `ActiveStyles` lists. */
  lemma ItemStylesOfEnv(env: Env)
    ensures [Styled([NoStyle])] + ItemStyles(EnvItems(env)) == ActiveStyles(env)
  {
    var items := EnvItems(env);
    var n := [Styled([NoStyle])];
    SixItemStyles(n, items);
    EachItemStyle(env);
    var a3 := n + ItemStyle(items[0]) + ItemStyle(items[1]) + ItemStyle(items[2]);
    assert a3 + ItemStyle(items[3]) == a3;
  }

  /** The calls for six items, after the reset, one item after the
      other. */
  lemma SixItemStyles(n: seq<Out>, items: seq<(EnvName, int)>)
    requires |items| == 6
    ensures n + ItemStyles(items) ==
              n + ItemStyle(items[0]) + ItemStyle(items[1]) + ItemStyle(items[2])
                + ItemStyle(items[3]) + ItemStyle(items[4]) + ItemStyle(items[5])
  {
    var i3, i4, i5 := ItemStyle(items[3]), ItemStyle(items[4]), ItemStyle(items[5]);
    calc {
      n + ItemStyles(items);
      { LastThreeItemStyles(n, items); }
      (n + ItemStyles(items[..3])) + i3 + i4 + i5;
      { FirstThreeItemStyles(n, items); }
      n + ItemStyle(items[0]) + ItemStyle(items[1]) + ItemStyle(items[2]) + i3 + i4 + i5;
    }
  }

  lemma LastThreeItemStyles(n: seq<Out>, items: seq<(EnvName, int)>)
    requires |items| == 6
    ensures n + ItemStyles(items) ==
              (n + ItemStyles(items[..3])) + ItemStyle(items[3]) + ItemStyle(items[4]) + ItemStyle(items[5])
  {
    var i3, i4, i5 := ItemStyle(items[3]), ItemStyle(items[4]), ItemStyle(items[5]);
    calc {
      n + ItemStyles(items);
      { assert items[..6] == items; }
      n + ItemStyles(items[..6]);
      { ItemStylesSnoc(n, items, 5); }
      (n + ItemStyles(items[..5])) + i5;
      { ItemStylesSnoc(n, items, 4); }
      (n + ItemStyles(items[..4])) + i4 + i5;
      { ItemStylesSnoc(n, items, 3); }
      (n + ItemStyles(items[..3])) + i3 + i4 + i5;
    }
  }

  lemma FirstThreeItemStyles(n: seq<Out>, items: seq<(EnvName, int)>)
    requires |items| >= 3
    ensures n + ItemStyles(items[..3]) == n + ItemStyle(items[0]) + ItemStyle(items[1]) + ItemStyle(items[2])
  {
    var i0, i1, i2 := ItemStyle(items[0]), ItemStyle(items[1]), ItemStyle(items[2]);
    calc {
      n + ItemStyles(items[..3]);
      { ItemStylesSnoc(n, items, 2); }
      (n + ItemStyles(items[..2])) + i2;
      { ItemStylesSnoc(n, items, 1); }
      (n + ItemStyles(items[..1])) + i1 + i2;
      { ItemStylesSnoc(n, items, 0); assert n + ItemStyles(items[..0]) == n; }
      n + i0 + i1 + i2;
    }
  }

  /** After the reset, the calls for one more item are those for the items
      before it, then its own. */
  lemma ItemStylesSnoc(n: seq<Out>, items: seq<(EnvName, int)>, k: nat)
    requires k < |items|
    ensures n + ItemStyles(items[..k + 1]) == (n + ItemStyles(items[..k])) + ItemStyle(items[k])
  {
    assert items[..k + 1][..k] == items[..k];
  }

  /** The call each item of `active_env` makes. */
  lemma EachItemStyle(env: Env)
    ensures var items := EnvItems(env);
            && ItemStyle(items[0]) == When(env.bold, Styled([Sgr(["bold"])]))
            && ItemStyle(items[1]) == When(env.italic, Styled([Sgr(["italic"])]))
            && ItemStyle(items[2]) == When(env.underline, Styled([Sgr(["underline"])]))
            && ItemStyle(items[3]) == []
            && ItemStyle(items[4]) == When(env.code, Styled([Named("light green")]))
            && ItemStyle(items[5]) == When(1 <= env.header <= 6, Styled(HeaderStyles(env.header)))
  {
  }

  /** The environments the plain markers toggle. */
  datatype Flag = BoldFlag | ItalicFlag | UnderlineFlag | StrikeFlag | CodeFlag

  /** `_env_parse_flag`: the environment's flag negated. */
  function Flip(env: Env, flag: Flag): Env {
    match flag
    case BoldFlag => env.(bold := !env.bold)
    case ItalicFlag => env.(italic := !env.italic)
    case UnderlineFlag => env.(underline := !env.underline)
    case StrikeFlag => env.(strikethrough := !env.strikethrough)
    case CodeFlag => env.(code := !env.code)
  }

  /** An entry of `_env_parsers`: a literal marker and the flag its parser
      toggles, the header pattern, or the newline. */
  datatype Parser = Marker(marker: string, flag: Flag) | HeaderParser | NewlineParser

  /** `_env_parsers`, in its order. */
  const EnvParsers: seq<Parser> := [
    Marker("**", BoldFlag),
    Marker("__", UnderlineFlag),
    Marker("*", ItalicFlag),
    Marker("_", ItalicFlag),
    Marker("~~", StrikeFlag),
    Marker("`", CodeFlag),
    HeaderParser,
    NewlineParser
  ]

  /** The characters `\s` matches in a `str` pattern: Python's Unicode
      whitespace. */
  predicate IsPySpace(c: char) {
    var n := c as int;
    || 9 <= n <= 13 || 28 <= n <= 32 || n == 0x85 || n == 0xA0 || n == 0x1680
    || 0x2000 <= n <= 0x200A || n == 0x2028 || n == 0x2029 || n == 0x202F
    || n == 0x205F || n == 0x3000
  }

  /** The length of the run of `#` at the front of `s`. */
  function HashRun(s: string): (n: nat)
    ensures n <= |s| && forall k :: 0 <= k < n ==> s[k] == '#'
    ensures n < |s| ==> s[n] != '#'
  {
    if s != [] && s[0] == '#' then 1 + HashRun(s[1..]) else 0
  }

  /** The length of the run of whitespace at the front of `s`. */
  function SpaceRun(s: string): (n: nat)
    ensures n <= |s| && forall k :: 0 <= k < n ==> IsPySpace(s[k])
    ensures n < |s| ==> !IsPySpace(s[n])
  {
    if s != [] && IsPySpace(s[0]) then 1 + SpaceRun(s[1..]) else 0
  }

  /** A match of `(^|\n)(#{1,6})\s*` at the front of the text. */
  datatype HeaderMatch = HeaderMatch(newline: bool, level: nat, length: nat)

  /** `re.match` of the header pattern: `^` always matches at the front,
      so the `\n` branch is taken only when the text starts with a newline;
      then one to six `#` as many as there are, then all the whitespace
      that follows. */
  function MatchHeader(s: string): (r: Option<HeaderMatch>)
    ensures r.Some? ==> 1 <= r.value.level <= 6 && r.value.level <= r.value.length <= |s|
  {
    var start := if s != [] && s[0] == '\n' then 1 else 0;
    var hashes := Min(HashRun(s[start..]), 6);
    if hashes == 0 then None
    else
      var spaces := SpaceRun(s[start + hashes..]);
      Some(HeaderMatch(start == 1, hashes, start + hashes + spaces))
  }

  /** What the header pattern matches: a `#` at the front, or a newline
      and a `#`; then the `#` run, cut at six; then the whole whitespace
      run after it. */
  lemma MatchHeaderShape(s: string)
    ensures MatchHeader(s).None? <==> (s == [] || (s[0] != '#' && (s[0] != '\n' || |s| == 1 || s[1] != '#')))
    ensures MatchHeader(s).Some? ==>
              var r := MatchHeader(s).value;
              var start := if r.newline then 1 else 0;
              && start + r.level <= r.length <= |s|
              && (r.newline <==> s[0] == '\n')
              && (forall k :: start <= k < start + r.level ==> s[k] == '#')
              && (forall k :: start + r.level <= k < r.length ==> IsPySpace(s[k]))
              && (r.level < 6 && start + r.level < |s| ==> s[start + r.level] != '#')
              && (r.length < |s| && r.length > start + r.level ==> !IsPySpace(s[r.length]))
  {
    MatchHeaderNone(s);
    MatchHeaderSome(s);
  }

  lemma MatchHeaderNone(s: string)
    ensures MatchHeader(s).None? <==> (s == [] || (s[0] != '#' && (s[0] != '\n' || |s| == 1 || s[1] != '#')))
  {
    var start := if s != [] && s[0] == '\n' then 1 else 0;
    if s != [] {
      assert start < |s| ==> s[start..][0] == s[start];
    }
  }

  lemma MatchHeaderSome(s: string)
    ensures MatchHeader(s).Some? ==>
              var r := MatchHeader(s).value;
              var start := if r.newline then 1 else 0;
              && start + r.level <= r.length <= |s|
              && (r.newline <==> s[0] == '\n')
              && (forall k :: start <= k < start + r.level ==> s[k] == '#')
              && (forall k :: start + r.level <= k < r.length ==> IsPySpace(s[k]))
              && (r.level < 6 && start + r.level < |s| ==> s[start + r.level] != '#')
              && (r.length < |s| && r.length > start + r.level ==> !IsPySpace(s[r.length]))
  {
    if MatchHeader(s).Some? {
      var r := MatchHeader(s).value;
      var start := if s[0] == '\n' then 1 else 0;
      var level := Min(HashRun(s[start..]), 6);
      var spaces := SpaceRun(s[start + level..]);
      assert r == HeaderMatch(start == 1, level, start + level + spaces);
      HashesAt(s, start);
      SpacesAt(s, start + level);
    }
  }

  /** The `#` run read from position `start` of `s`. */
  lemma HashesAt(s: string, start: nat)
    requires start <= |s|
    ensures var n := HashRun(s[start..]);
            && start + n <= |s|
            && (forall k :: start <= k < start + n ==> s[k] == '#')
            && (start + n < |s| ==> s[start + n] != '#')
  {
    var n := HashRun(s[start..]);
    assert forall k :: start <= k < start + n ==> s[k] == s[start..][k - start];
    assert start + n < |s| ==> s[start + n] == s[start..][n];
  }

  /** The whitespace run read from position `start` of `s`. */
  lemma SpacesAt(s: string, start: nat)
    requires start <= |s|
    ensures var n := SpaceRun(s[start..]);
            && start + n <= |s|
            && (forall k :: start <= k < start + n ==> IsPySpace(s[k]))
            && (start + n < |s| ==> !IsPySpace(s[start + n]))
  {
    var n := SpaceRun(s[start..]);
    assert forall k :: start <= k < start + n ==> s[k] == s[start..][k - start];
    assert start + n < |s| ==> s[start + n] == s[start..][n];
  }

  /** The length of the match of one entry at the front of the text. */
  function MatchLength(p: Parser, s: string): (r: Option<nat>)
    ensures r.Some? ==> 1 <= r.value <= |s|
  {
    match p
    case Marker(m, _) => if |m| > 0 && StartsWith(s, m) then Some(|m|) else None
    case HeaderParser => if MatchHeader(s).Some? then Some(MatchHeader(s).value.length) else None
    case NewlineParser => if StartsWith(s, "\n") then Some(1) else None
  }

  /** The first entry of `parsers` that matches at the front of `s`, and
      the length of its match. */
  function FirstMatch(parsers: seq<Parser>, s: string): (r: Option<(Parser, nat)>)
    ensures r.Some? ==> r.value.0 in parsers && MatchLength(r.value.0, s) == Some(r.value.1)
    decreases |parsers|
  {
    if parsers == [] then None
    else if MatchLength(parsers[0], s).Some? then Some((parsers[0], MatchLength(parsers[0], s).value))
    else FirstMatch(parsers[1..], s)
  }

  /** No entry matches exactly when the first match finds none. */
  lemma {:induction false} FirstMatchNone(parsers: seq<Parser>, s: string)
    ensures FirstMatch(parsers, s).None? <==> forall k :: 0 <= k < |parsers| ==> MatchLength(parsers[k], s).None?
    decreases |parsers|
  {
    if parsers != [] {
      FirstMatchNone(parsers[1..], s);
      assert forall k :: 1 <= k < |parsers| ==> parsers[1..][k - 1] == parsers[k];
    }
  }

  /** What the parser of a matched entry writes and how it changes the
      environments. */
  function Apply(p: Parser, s: string, env: Env): (seq<Out>, Env)
    requires MatchLength(p, s).Some?
  {
    match p
    case Marker(_, flag) => ([], Flip(env, flag))
    case HeaderParser =>
      var m := MatchHeader(s).value;
      ((if m.newline then [Wrote("\n\n")] else []), env.(header := m.level))
    case NewlineParser => ([Wrote("\n")], env.(header := 0))
  }

  /** One turn of the `while` loop of `render` at position `i`. */
  function Step(buf: string, i: nat, env: Env): (r: (seq<Out>, nat, Env))
    requires i < |buf|
    ensures i < r.1 <= |buf|
  {
    Turn(buf, i, env, FirstMatch(EnvParsers, buf[i..]))
  }

  /** The turn at position `i` once the first matching entry, if any, is
      known: its parser's effect and the styles again, or the character
      written. */
  function Turn(buf: string, i: nat, env: Env, found: Option<(Parser, nat)>): (r: (seq<Out>, nat, Env))
    requires i < |buf|
    requires found.Some? ==> MatchLength(found.value.0, buf[i..]) == Some(found.value.1)
    ensures i < r.1 <= |buf|
  {
    match found
    case None => ([Wrote([buf[i]])], i + 1, env)
    case Some(m) =>
      var applied := Apply(m.0, buf[i..], env);
      (applied.0 + ActiveStyles(applied.1), i + m.1, applied.1)
  }

  /** Everything `render` does from position `i` on. */
  function Rendered(buf: string, i: nat, env: Env): seq<Out>
    requires i <= |buf|
    decreases |buf| - i
  {
    if i == |buf| then []
    else
      var (out, next, env') := Step(buf, i, env);
      out + Rendered(buf, next, env')
  }

  /** The inner `for` loop of `render`: the first entry of `_env_parsers`
      whose pattern matches at the front of `rest`. */
  method FindParser(rest: string) returns (found: Option<(Parser, nat)>)
    ensures found == FirstMatch(EnvParsers, rest)
  {
    found := None;
    assert EnvParsers[0..] == EnvParsers;
    for k := 0 to |EnvParsers|
      invariant FirstMatch(EnvParsers, rest) == FirstMatch(EnvParsers[k..], rest)
    {
      FirstMatchAt(EnvParsers, k, rest);
      var len := MatchLength(EnvParsers[k], rest);
      if len.Some? {
        found := Some((EnvParsers[k], len.value));
        return;
      }
    }
  }

  /** The parser of a matched entry: `_env_parse_flag`,
      `_parse_header` or `_parse_newline`. */
  method RunParser(p: Parser, rest: string, env: Env) returns (out: seq<Out>, env': Env)
    requires MatchLength(p, rest).Some?
    ensures (out, env') == Apply(p, rest, env)
  {
    match p {
      case Marker(_, flag) =>
        out, env' := [], Flip(env, flag);
      case HeaderParser =>
        var m := MatchHeader(rest).value;
        out := [];
        if m.newline {
          out := [Wrote("\n\n")];
        }
        env' := env.(header := m.level);
      case NewlineParser =>
        out, env' := [Wrote("\n")], env.(header := 0);
    }
  }

  /** The rest of a turn of the `while` loop of `render`, once the inner
      loop has found the first matching parser or none: that parser
      updates the environments and the style is applied again, or the
      character at `i` is written. */
  method TakeTurn(s: string, i: nat, env: Env, found: Option<(Parser, nat)>) returns (out: seq<Out>, next: nat, env': Env)
    requires i < |s|
    requires found.Some? ==> MatchLength(found.value.0, s[i..]) == Some(found.value.1)
    ensures (out, next, env') == Turn(s, i, env, found)
  {
    if found.None? {
      return [Wrote([s[i]])], i + 1, env;
    }
    var wrote;
    wrote, env' := RunParser(found.value.0, s[i..], env);
    next := i + found.value.1;
    var styles := ApplyStyle(env');
    out := wrote + styles;
  }

  /** `render(terminal, s)` on a string. */
  method Render(s: string) returns (log: seq<Out>)
    ensures log == Rendered(s, 0, StartEnv)
  {
    var i := 0;
    var env := StartEnv;
    log := [];
    while i < |s|
      invariant 0 <= i <= |s|
      invariant log + Rendered(s, i, env) == Rendered(s, 0, StartEnv)
      decreases |s| - i
    {
      var found := FindParser(s[i..]);
      var out, next, env' := TakeTurn(s, i, env, found);
      assert Rendered(s, i, env) == out + Rendered(s, next, env');
      log, i, env := log + out, next, env';
    }
  }

  /** `render(terminal, lines)` on a list: the lines joined. */
  method RenderLines(lines: seq<string>) returns (log: seq<Out>)
    ensures log == Rendered(Concat(lines), 0, StartEnv)
  {
    log := Render(Concat(lines));
  }

  /** The characters no entry of `_env_parsers` starts with. */
  predicate Plain(c: char) {
    c != '*' && c != '_' && c != '~' && c != '`' && c != '#' && c != '\n'
  }

  /** Text without markers is written one character at a time, as it
      is. */
  lemma {:induction false} PlainVerbatim(buf: string, i: nat, env: Env)
    requires i <= |buf|
    requires forall k :: i <= k < |buf| ==> Plain(buf[k])
    ensures Rendered(buf, i, env) == seq(|buf| - i, k requires 0 <= k < |buf| - i => Wrote([buf[i + k]]))
    decreases |buf| - i
  {
    if i < |buf| {
      PlainStep(buf, i, env);
      PlainVerbatim(buf, i + 1, env);
      WrittenFrom(buf, i);
    }
  }

  /** A plain character is written as it is and the scan moves on. */
  lemma PlainStep(buf: string, i: nat, env: Env)
    requires i < |buf| && Plain(buf[i])
    ensures Rendered(buf, i, env) == [Wrote([buf[i]])] + Rendered(buf, i + 1, env)
  {
    NoMatchOnPlain(buf[i..]);
    assert Step(buf, i, env) == ([Wrote([buf[i]])], i + 1, env);
  }

  /** Writing the characters from `i` on is writing character `i`, then
      those from `i + 1` on. */
  lemma WrittenFrom(buf: string, i: nat)
    requires i < |buf|
    ensures seq(|buf| - i, k requires 0 <= k < |buf| - i => Wrote([buf[i + k]])) ==
              [Wrote([buf[i]])] + seq(|buf| - (i + 1), k requires 0 <= k < |buf| - (i + 1) => Wrote([buf[i + 1 + k]]))
  {
  }

  /** No entry matches in front of a plain character. */
  lemma NoMatchOnPlain(s: string)
    requires s != [] && Plain(s[0])
    ensures FirstMatch(EnvParsers, s).None?
  {
    MarkersMiss(s);
    assert MatchLength(EnvParsers[6], s).None?;
    assert MatchLength(EnvParsers[7], s).None? by { assert |s| >= 1 ==> s[..1][0] == s[0]; }
    FirstMatchSkips(EnvParsers, 8, s);
    assert EnvParsers[8..] == [];
  }

  /** Entry `k` is tried after those before it have failed. */
  lemma FirstMatchAt(parsers: seq<Parser>, k: nat, s: string)
    requires k < |parsers|
    ensures FirstMatch(parsers[k..], s) ==
              if MatchLength(parsers[k], s).Some? then Some((parsers[k], MatchLength(parsers[k], s).value))
              else FirstMatch(parsers[k + 1..], s)
  {
    assert parsers[k..][1..] == parsers[k + 1..];
  }

  /** `**` is bold, not two italic markers: it comes first in the
      table. */
  lemma DoubleStarIsBold(s: string)
    requires |s| >= 2 && s[0] == '*' && s[1] == '*'
    ensures FirstMatch(EnvParsers, s) == Some((Marker("**", BoldFlag), 2))
  {
    assert s[..2] == "**";
  }

  /** A two-character marker matches text starting with its two
      characters. */
  lemma PairPrefix(s: string, m: string)
    requires |m| == 2 && |s| >= 2 && s[0] == m[0] && s[1] == m[1]
    ensures StartsWith(s, m)
  {
    assert s[..2] == m;
  }

  /** `__` is underline, not two italic markers. */
  lemma DoubleUnderscoreIsUnderline(s: string)
    requires |s| >= 2 && s[0] == '_' && s[1] == '_'
    ensures FirstMatch(EnvParsers, s) == Some((Marker("__", UnderlineFlag), 2))
  {
    calc {
      FirstMatch(EnvParsers, s);
      { assert EnvParsers[0..] == EnvParsers; }
      FirstMatch(EnvParsers[0..], s);
      { FirstMatchAt(EnvParsers, 0, s);
        assert MatchLength(EnvParsers[0], s).None? by { assert s[..2][0] == '_'; } }
      FirstMatch(EnvParsers[1..], s);
      { FirstMatchAt(EnvParsers, 1, s);
        PairPrefix(s, "__"); }
      Some((Marker("__", UnderlineFlag), 2));
    }
  }

  /** A `*` not followed by another is italic. */
  lemma SingleStarIsItalic(s: string)
    requires |s| >= 1 && s[0] == '*' && (|s| == 1 || s[1] != '*')
    ensures FirstMatch(EnvParsers, s) == Some((Marker("*", ItalicFlag), 1))
  {
    calc {
      FirstMatch(EnvParsers, s);
      { assert EnvParsers[0..] == EnvParsers; }
      FirstMatch(EnvParsers[0..], s);
      { FirstMatchAt(EnvParsers, 0, s);
        assert MatchLength(EnvParsers[0], s).None? by {
          if |s| >= 2 { assert s[..2][1] == s[1]; }
        } }
      FirstMatch(EnvParsers[1..], s);
      { FirstMatchAt(EnvParsers, 1, s);
        assert MatchLength(EnvParsers[1], s).None? by {
          if |s| >= 2 { assert s[..2][0] == s[0]; }
        } }
      FirstMatch(EnvParsers[2..], s);
      { FirstMatchAt(EnvParsers, 2, s);
        assert s[..1] == "*"; }
      Some((Marker("*", ItalicFlag), 1));
    }
  }

  /** A marker toggles its environment, writes no text, and is followed
      by the style calls for the new environments. */
  lemma MarkerToggles(buf: string, i: nat, env: Env, m: string, flag: Flag)
    requires i < |buf|
    requires FirstMatch(EnvParsers, buf[i..]) == Some((Marker(m, flag), |m|))
    ensures Step(buf, i, env) == (ActiveStyles(Flip(env, flag)), i + |m|, Flip(env, flag))
  {
    var found := Some((Marker(m, flag), |m|));
    assert Step(buf, i, env) == Turn(buf, i, env, found);
    MarkerTurn(buf, i, env, m, flag);
  }

  /** The turn of a matched marker. */
  lemma MarkerTurn(buf: string, i: nat, env: Env, m: string, flag: Flag)
    requires i < |buf|
    requires MatchLength(Marker(m, flag), buf[i..]) == Some(|m|)
    ensures Turn(buf, i, env, Some((Marker(m, flag), |m|))) == (ActiveStyles(Flip(env, flag)), i + |m|, Flip(env, flag))
  {
    assert Apply(Marker(m, flag), buf[i..], env) == ([], Flip(env, flag));
    assert [] + ActiveStyles(Flip(env, flag)) == ActiveStyles(Flip(env, flag));
  }

  /** A `#` anywhere, not only at the start of a line, starts a header:
      its level is the number of `#` up to six, and no blank line is
      written before it. */
  lemma HashStartsHeader(buf: string, i: nat, env: Env)
    requires i < |buf| && buf[i] == '#'
    ensures var level := Min(HashRun(buf[i..]), 6);
            && 1 <= level <= 6
            && Step(buf, i, env).2 == env.(header := level)
            && Step(buf, i, env).0 == ActiveStyles(env.(header := level))
  {
    var s := buf[i..];
    HashMatch(s);
    var m := MatchHeader(s).value;
    assert Step(buf, i, env) == Turn(buf, i, env, Some((HeaderParser, m.length)));
  }

  /** In front of a `#` only the header entry matches. */
  lemma HashMatch(s: string)
    requires s != [] && s[0] == '#'
    ensures MatchHeader(s).Some? && !MatchHeader(s).value.newline
    ensures MatchHeader(s).value.level == Min(HashRun(s), 6)
    ensures FirstMatch(EnvParsers, s) == Some((HeaderParser, MatchHeader(s).value.length))
  {
    assert s[0..] == s;
    calc {
      FirstMatch(EnvParsers, s);
      { MarkersMissOn(s);
        FirstMatchSkips(EnvParsers, 6, s); }
      FirstMatch(EnvParsers[6..], s);
      { FirstMatchAt(EnvParsers, 6, s); }
      Some((HeaderParser, MatchHeader(s).value.length));
    }
  }

  /** No marker matches in front of a `#` or a newline. */
  lemma MarkersMissOn(s: string)
    requires s != [] && (s[0] == '#' || s[0] == '\n')
    ensures forall k :: 0 <= k < 6 ==> MatchLength(EnvParsers[k], s).None?
  {
    MarkersMiss(s);
  }

  /** No marker matches in front of a character that starts none. */
  lemma MarkersMiss(s: string)
    requires s != [] && s[0] != '*' && s[0] != '_' && s[0] != '~' && s[0] != '`'
    ensures forall k :: 0 <= k < 6 ==> MatchLength(EnvParsers[k], s).None?
  {
    forall k | 0 <= k < 6
      ensures MatchLength(EnvParsers[k], s).None?
    {
      var m := EnvParsers[k].marker;
      assert |m| <= |s| ==> s[..|m|][0] == s[0];
    }
  }

  /** The first match skips entries that do not match. */
  lemma {:induction false} FirstMatchSkips(parsers: seq<Parser>, n: nat, s: string)
    requires n <= |parsers|
    requires forall k :: 0 <= k < n ==> MatchLength(parsers[k], s).None?
    ensures FirstMatch(parsers, s) == FirstMatch(parsers[n..], s)
    decreases n
  {
    if n > 0 {
      FirstMatchSkips(parsers[1..], n - 1, s);
      assert parsers[1..][n - 1..] == parsers[n..];
    }
  }

  /** A newline not followed by `#` is matched by the newline entry
      alone. */
  lemma NewlineMatch(s: string)
    requires s != [] && s[0] == '\n' && (|s| == 1 || s[1] != '#')
    ensures FirstMatch(EnvParsers, s) == Some((NewlineParser, 1))
  {
    calc {
      FirstMatch(EnvParsers, s);
      { MarkersMissOn(s);
        NoHeaderAfterNewline(s);
        FirstMatchSkips(EnvParsers, 7, s); }
      FirstMatch(EnvParsers[7..], s);
      { FirstMatchAt(EnvParsers, 7, s);
        assert s[..1] == "\n"; }
      Some((NewlineParser, 1));
    }
  }

  /** A newline not followed by `#` starts no header. */
  lemma NoHeaderAfterNewline(s: string)
    requires s != [] && s[0] == '\n' && (|s| == 1 || s[1] != '#')
    ensures MatchHeader(s).None?
  {
    assert |s| > 1 ==> s[1..][0] == s[1];
    assert HashRun(s[1..]) == 0;
  }

  /** A newline not followed by `#` writes a newline and ends the
      header. */
  lemma NewlineEndsHeader(buf: string, i: nat, env: Env)
    requires i < |buf| && buf[i] == '\n'
    requires i + 1 == |buf| || buf[i + 1] != '#'
    ensures Step(buf, i, env) == ([Wrote("\n")] + ActiveStyles(env.(header := 0)), i + 1, env.(header := 0))
  {
    var s := buf[i..];
    assert s[0] == '\n';
    assert |s| == 1 || s[1] == buf[i + 1];
    NewlineMatch(s);
    assert Step(buf, i, env) == Turn(buf, i, env, Some((NewlineParser, 1)));
  }
}
