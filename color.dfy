/** Colours of color.py: an RGB `Color` with clamped channels or a
    `NamedColor` holding a palette id, and their SGR parameter strings
    (section 8.3.117 of ECMA-48; the `38;5`/`38;2` forms of ITU-T T.416 as
    xterm uses them). */
module Colors {
  import opened Wrappers
  import opened Text

  /** `ColorMode`: 3/4-bit, 8-bit and 24-bit colour escapes. */
  datatype ColorMode = Mode16 | Mode256 | ModeRgb

  type Channel = c: int | 0 <= c <= 255

  /** A `Color` (three clamped channels) or a `NamedColor` (its `id`;
      `NamedColor.__init__` never sets the channels). */
  datatype Color = Rgb(r: Channel, g: Channel, b: Channel) | Named(id: nat)

  /** `clip`: `max(0, min(255, c))`. */
  function Clip(c: int): (r: Channel)
    ensures 0 <= c <= 255 ==> r == c
    ensures c < 0 ==> r == 0
    ensures c > 255 ==> r == 255
  {
    if c < 0 then 0 else if c > 255 then 255 else c
  }

  /** `Color(r, g, b)`. */
  function NewColor(r: int, g: int, b: int): (c: Color)
    ensures c.Rgb? && c.r == Clip(r) && c.g == Clip(g) && c.b == Clip(b)
  {
    Rgb(Clip(r), Clip(g), Clip(b))
  }

  /** `Color.hex(h)`: bytes 2, 1 and 0 of `h`. Python's `>>` floors and
      `& 0xFF` keeps the low eight bits of the two's complement, which for
      any integer is the same as Dafny's `/` and `%` by a positive power
      of two. */
  function Hex(h: int): (c: Color)
    ensures c.Rgb?
    ensures c.r == (h / 0x10000) % 0x100 && c.g == (h / 0x100) % 0x100 && c.b == h % 0x100
  {
    NewColor((h / 0x10000) % 0x100, (h / 0x100) % 0x100, h % 0x100)
  }

  /** Packing three channels as `0xRRGGBB` and reading them back with
      `Color.hex` gives the same colour. */
  lemma HexRoundTrip(r: Channel, g: Channel, b: Channel)
    ensures Hex(r * 0x10000 + g * 0x100 + b) == Rgb(r, g, b)
  {
    var h := r * 0x10000 + g * 0x100 + b;
    assert h == (r * 0x100 + g) * 0x100 + b;
    assert h / 0x100 == r * 0x100 + g;
    assert (h / 0x100) % 0x100 == g;
    assert h / 0x10000 == r by {
      assert h == r * 0x10000 + (g * 0x100 + b);
    }
  }

  // ---------------------------------------------------------------------
  // 3/4-bit colour

  /** The xterm defaults of the sixteen named colours. */
  const Palette: seq<(int, int, int)> := [
    (0, 0, 0), (205, 0, 0), (0, 205, 0), (205, 205, 0),
    (0, 0, 238), (205, 0, 205), (0, 205, 205), (229, 229, 229),
    (127, 127, 127), (255, 0, 0), (0, 255, 0), (255, 255, 0),
    (92, 92, 255), (255, 0, 255), (0, 255, 255), (255, 255, 255)]

  /** `ids`: `range(0, 8) + range(60, 68)`. */
  function Id16(k: nat): (id: nat)
    requires k < 16
    ensures id < 8 || 60 <= id < 68
    ensures k < 8 ==> id == k
    ensures 8 <= k ==> id == k + 52
  {
    if k < 8 then k else k + 52
  }

  /** The square of `dist`; `sqrt` is monotonic, so comparing squares
      orders the palette the same way. */
  function SqDist(a: (int, int, int), b: (int, int, int)): nat {
    var dr := a.0 - b.0;
    var dg := a.1 - b.1;
    var db := a.2 - b.2;
    dr * dr + dg * dg + db * db
  }

  /** Palette entry `k` is a closest one to `own`, and no earlier entry is
      as close: the entry the scan in `ansi_16` ends on. */
  predicate IsNearest(own: (int, int, int), k: int) {
    && 0 <= k < 16
    && (forall j :: 0 <= j < 16 ==> SqDist(Palette[j], own) >= SqDist(Palette[k], own))
    && (forall j :: 0 <= j < k ==> SqDist(Palette[j], own) > SqDist(Palette[k], own))
  }

  /** There is one such entry at most. */
  lemma NearestUnique(own: (int, int, int), k1: int, k2: int)
    requires IsNearest(own, k1) && IsNearest(own, k2)
    ensures k1 == k2
  {
    assert SqDist(Palette[k1], own) == SqDist(Palette[k2], own) by {
      assert SqDist(Palette[k2], own) >= SqDist(Palette[k1], own);
      assert SqDist(Palette[k1], own) >= SqDist(Palette[k2], own);
    }
  }

  /** The palette colours are pairwise distinct, so each is its own
      nearest entry. */
  lemma PaletteIsOwnNearest(k: nat)
    requires k < 16
    ensures IsNearest(Palette[k], k)
  {
    forall j | 0 <= j < 16 && j != k
      ensures SqDist(Palette[j], Palette[k]) > 0
    {
      assert Palette[j] != Palette[k];
      SqDistPositive(Palette[j], Palette[k]);
    }
  }

  /** Distinct colours are a positive distance apart. */
  lemma SqDistPositive(a: (int, int, int), b: (int, int, int))
    requires a != b
    ensures SqDist(a, b) > 0
  {
    var dr, dg, db := a.0 - b.0, a.1 - b.1, a.2 - b.2;
    assert dr * dr >= 0 && dg * dg >= 0 && db * db >= 0;
    if dr != 0 { assert dr * dr > 0; }
    else if dg != 0 { assert dg * dg > 0; }
    else { assert db != 0; assert db * db > 0; }
  }

  /** The SGR parameter of palette entry `k`. */
  function Sgr16(k: nat, bg: bool): string
    requires k < 16
  {
    NatToString((if bg then 40 else 30) + Id16(k))
  }

  /** `NamedColor.ansi_16` as written: `str(id + 30)`, or `+ 40` for a
      background. */
  function NamedAnsi16AsWritten(id: nat, bg: bool): (s: string)
    ensures s == NatToString(id + (if bg then 40 else 30))
  {
    NatToString(id + (if bg then 40 else 30))
  }

  /** The palette offset of a `NamedColor` id: ids 0..7 and 60..67 (what
      `name_to_id` returns) as they are, ids 8..15 (the bright colours
      given by number) as 60..67. */
  function NamedOffset(id: nat): (offset: nat)
    ensures id < 8 ==> offset == id
    ensures 8 <= id < 16 ==> offset == id + 52
    ensures 16 <= id ==> offset == id
  {
    if 8 <= id < 16 then id + 52 else id
  }

  /** `NamedColor.ansi_16`, with ids 8..15 sent to the bright range. */
  function NamedAnsi16(id: nat, bg: bool): string {
    NatToString(NamedOffset(id) + (if bg then 40 else 30))
  }

  /** Every valid id gives a code in the 3/4-bit ranges 30..37 and 90..97
      (40..47 and 100..107 for a background), and ids 8 + i and 60 + i
      agree. */
  lemma NamedAnsi16Codes(id: nat, bg: bool)
    requires id < 16 || 60 <= id < 68
    ensures var base := if bg then 40 else 30;
            var code := NamedOffset(id) + base;
            NamedAnsi16(id, bg) == NatToString(code) &&
            (base <= code < base + 8 || base + 60 <= code < base + 68)
    ensures 8 <= id < 16 ==> NamedAnsi16(id, bg) == NamedAnsi16(id + 52, bg)
  {
  }

  /** A `NamedColor` given bright red by number, `NamedColor(9)`, is sent
      as SGR 39 (default foreground) by the code as written; the name
      `"bright red"` (id 61) is sent as 91. */
  lemma NamedByNumberAsWritten()
    ensures NamedAnsi16AsWritten(9, false) == "39"
    ensures NamedAnsi16(9, false) == "91"
    ensures NamedAnsi16(61, false) == "91"
  {
    assert NatToString(39) == NatToString(3) + [DigitChar(9)];
    assert NatToString(91) == NatToString(9) + [DigitChar(1)];
  }

  /** What `ansi_16` returns: the SGR parameter of the nearest palette
      entry for a `Color`, the id-based code for a `NamedColor`. */
  ghost predicate Ansi16Spec(c: Color, bg: bool, s: string) {
    match c
    case Named(id) => s == NamedAnsi16(id, bg)
    case Rgb(r, g, b) => exists k :: IsNearest((r, g, b), k) && s == Sgr16(k, bg)
  }

  /** `ansi_16`: scan the palette, keeping the first entry of least
      distance. */
  method Ansi16(c: Color, bg: bool) returns (s: string)
    ensures Ansi16Spec(c, bg, s)
  {
    if c.Named? {
      return NamedAnsi16(c.id, bg);
    }
    var own := (c.r, c.g, c.b);
    var minI := 0;
    var i := 0;
    while i < 16
      invariant 0 <= i <= 16 && 0 <= minI < 16 && minI <= i
      invariant forall j :: 0 <= j < i ==> SqDist(Palette[j], own) >= SqDist(Palette[minI], own)
      invariant forall j :: 0 <= j < minI ==> SqDist(Palette[j], own) > SqDist(Palette[minI], own)
    {
      if SqDist(Palette[i], own) < SqDist(Palette[minI], own) {
        minI := i;
      }
      i := i + 1;
    }
    s := Sgr16(minI, bg);
  }

  /** A colour of the palette itself is sent as its own code. */
  lemma PaletteColorAnsi16(k: nat, bg: bool, s: string)
    requires k < 16
    requires Ansi16Spec(Rgb(Palette[k].0, Palette[k].1, Palette[k].2), bg, s)
    ensures s == Sgr16(k, bg)
  {
    var c := Rgb(Palette[k].0, Palette[k].1, Palette[k].2);
    assert (c.r, c.g, c.b) == Palette[k];
    var k' :| IsNearest(Palette[k], k') && s == Sgr16(k', bg);
    PaletteIsOwnNearest(k);
    NearestUnique(Palette[k], k, k');
  }

  // ---------------------------------------------------------------------
  // 8-bit colour

  /** `int(c / 256 * 6)`: the division by 256 and the product are exact
      in floating point for a channel, so this is the integer quotient. */
  function Scale6(c: Channel): (s: nat)
    ensures s < 6
  {
    (6 * c) / 256
  }

  /** The 8-bit colour index `ansi_256` chooses. */
  function Code256(r: Channel, g: Channel, b: Channel): nat {
    if r == g && g == b then 232 + (24 * r) / 256
    else 16 + Scale6(b) + Scale6(g) * 6 + Scale6(r) * 6 * 6
  }

  /** Greys go to the 24-step grey ramp 232..255. */
  lemma Code256Grey(v: Channel)
    ensures 232 <= Code256(v, v, v) <= 255
    ensures Code256(v, v, v) - 232 == (24 * v) / 256
  {
  }

  /** Other colours go to the 6x6x6 cube 16..231, and the cube index
      gives the three scaled channels back. */
  lemma Code256Cube(r: Channel, g: Channel, b: Channel)
    requires !(r == g && g == b)
    ensures 16 <= Code256(r, g, b) <= 231
    ensures var n := Code256(r, g, b) - 16;
            n / 36 == Scale6(r) && (n / 6) % 6 == Scale6(g) && n % 6 == Scale6(b)
  {
    CubeDigits(Scale6(r), Scale6(g), Scale6(b));
  }

  /** Three base-6 digits read back from their number. */
  lemma CubeDigits(sr: nat, sg: nat, sb: nat)
    requires sr < 6 && sg < 6 && sb < 6
    ensures var n := sb + sg * 6 + sr * 6 * 6;
            n / 36 == sr && (n / 6) % 6 == sg && n % 6 == sb
  {
    var n := sb + sg * 6 + sr * 6 * 6;
    assert n == sr * 36 + (sg * 6 + sb);
    assert n / 36 == sr;
    assert n == (sr * 6 + sg) * 6 + sb;
    assert n / 6 == sr * 6 + sg;
  }

  /** `ansi_256`; a `NamedColor` answers with its `ansi_16`. */
  function Ansi256(c: Color, bg: bool): string {
    match c
    case Named(id) => NamedAnsi16(id, bg)
    case Rgb(r, g, b) => (if bg then "48;5;" else "38;5;") + NatToString(Code256(r, g, b))
  }

  /** `ansi_256` of a `Color` is the three fields `38`/`48`, `5` and the
      index, which reads back as `Code256`. */
  lemma Ansi256Fields(r: Channel, g: Channel, b: Channel, bg: bool)
    ensures var fields := Split(Ansi256(Rgb(r, g, b), bg), ';');
            && fields == [if bg then "48" else "38", "5", NatToString(Code256(r, g, b))]
            && DigitsValue(fields[2]) == Code256(r, g, b)
  {
    var code := NatToString(Code256(r, g, b));
    var pre := if bg then "48" else "38";
    assert Ansi256(Rgb(r, g, b), bg) == pre + ";" + "5" + ";" + code by {
      assert (if bg then "48;5;" else "38;5;") == pre + ";" + "5" + ";";
    }
    JoinThree(pre, "5", code);
    NoSeparatorInDigits(code);
    assert ';' !in pre && ';' !in "5";
    SplitJoin([pre, "5", code], ';');
    DigitsValueOfNatToString(Code256(r, g, b));
  }

  // ---------------------------------------------------------------------
  // 24-bit colour

  /** `ansi_rgb`; a `NamedColor` answers with its `ansi_16`. */
  function AnsiRgb(c: Color, bg: bool): string {
    match c
    case Named(id) => NamedAnsi16(id, bg)
    case Rgb(r, g, b) =>
      (if bg then "48;2;" else "38;2;") + NatToString(r) + ";" + NatToString(g) + ";" + NatToString(b)
  }

  lemma NoSeparatorInDigits(s: string)
    requires AllDigits(s)
    ensures ';' !in s
  {
  }

  /** `ansi_rgb` of a `Color` is five fields, the last three of which read
      back as the channels. */
  lemma AnsiRgbFields(r: Channel, g: Channel, b: Channel, bg: bool)
    ensures var fields := Split(AnsiRgb(Rgb(r, g, b), bg), ';');
            && |fields| == 5
            && fields[0] == (if bg then "48" else "38") && fields[1] == "2"
            && AllDigits(fields[2]) && AllDigits(fields[3]) && AllDigits(fields[4])
            && DigitsValue(fields[2]) == r && DigitsValue(fields[3]) == g && DigitsValue(fields[4]) == b
  {
    var pre := if bg then "48" else "38";
    var sr, sg, sb := NatToString(r), NatToString(g), NatToString(b);
    AnsiRgbSplit(r, g, b, bg);
    assert AllDigits(sr) && DigitsValue(sr) == r by { DigitsValueOfNatToString(r); }
    assert AllDigits(sg) && DigitsValue(sg) == g by { DigitsValueOfNatToString(g); }
    assert AllDigits(sb) && DigitsValue(sb) == b by { DigitsValueOfNatToString(b); }
  }

  lemma AnsiRgbSplit(r: Channel, g: Channel, b: Channel, bg: bool)
    ensures Split(AnsiRgb(Rgb(r, g, b), bg), ';') ==
              [if bg then "48" else "38", "2", NatToString(r), NatToString(g), NatToString(b)]
  {
    var pre := if bg then "48" else "38";
    var sr, sg, sb := NatToString(r), NatToString(g), NatToString(b);
    assert AnsiRgb(Rgb(r, g, b), bg) == pre + ";" + "2" + ";" + sr + ";" + sg + ";" + sb by {
      assert (if bg then "48;2;" else "38;2;") == pre + ";" + "2" + ";";
    }
    JoinFive(pre, "2", sr, sg, sb);
    NoSeparatorInDigits(sr);
    NoSeparatorInDigits(sg);
    NoSeparatorInDigits(sb);
    assert ';' !in pre && ';' !in "2";
    SplitJoin([pre, "2", sr, sg, sb], ';');
  }

  // ---------------------------------------------------------------------
  // Mode dispatch

  /** `to_mode(color_mode, bg)`; `None` stands for an argument that is not
      a `ColorMode`, which raises `ValueError`. */
  method ToMode(c: Color, mode: Option<ColorMode>, bg: bool) returns (r: Result<string>)
    ensures mode.None? <==> r == Failure(ValueError)
    ensures mode == Some(Mode16) ==> r.Success? && Ansi16Spec(c, bg, r.value)
    ensures mode == Some(Mode256) ==> r == Success(Ansi256(c, bg))
    ensures mode == Some(ModeRgb) ==> r == Success(AnsiRgb(c, bg))
  {
    match mode
    case None =>
      return Failure(ValueError);
    case Some(Mode16) =>
      var s := Ansi16(c, bg);
      return Success(s);
    case Some(Mode256) =>
      return Success(Ansi256(c, bg));
    case Some(ModeRgb) =>
      return Success(AnsiRgb(c, bg));
  }

  // ---------------------------------------------------------------------
  // Named colours

  const Names: seq<string> := ["black", "red", "green", "yellow", "blue", "magenta", "cyan", "white"]

  /** `names_bright`: each base name prefixed with `bright`. */
  function BrightNames(): (bright: seq<string>)
    ensures |bright| == 8
    ensures forall i :: 0 <= i < 8 ==> bright[i] == "bright" + Names[i]
  {
    seq(8, i requires 0 <= i < 8 => "bright" + Names[i])
  }

  /** The normalisation of `name_to_id`: lower case, no spaces, no
      underscores, `light` read as `bright`. */
  function Normalize(name: string): string {
    ReplaceAll(RemoveChar(RemoveChar(Lower(name), ' '), '_'), "light", "bright")
  }

  /** `name_to_id`: the index among the base names, else 60 plus the index
      among the bright names, else `ValueError`. */
  function NameToId(name: string): (r: Result<nat>)
    ensures r.Success? <==> Normalize(name) in Names || Normalize(name) in BrightNames()
    ensures r.Failure? ==> r.error == ValueError
    ensures r.Success? ==>
              (r.value < 8 && Names[r.value] == Normalize(name)) ||
              (60 <= r.value < 68 && BrightNames()[r.value - 60] == Normalize(name))
  {
    var target := Normalize(name);
    if target in Names then Success(IndexOf(Names, target))
    else if target in BrightNames() then Success(IndexOf(BrightNames(), target) + 60)
    else Failure(ValueError)
  }

  /** A word of lower-case letters in which no `l` is followed by an `i`. */
  predicate PlainWord(w: string) {
    && (forall k :: 0 <= k < |w| ==> IsLowerAscii(w[k]))
    && (forall k :: 0 <= k < |w| - 1 ==> !(w[k] == 'l' && w[k + 1] == 'i'))
  }

  /** A plain word is its own normal form. */
  lemma NormalizePlain(w: string)
    requires PlainWord(w)
    ensures Normalize(w) == w
  {
    NoOccurrence(w, "light");
    LowerOfLower(w);
    RemoveAbsentChar(w, ' ');
    RemoveAbsentChar(w, '_');
    ReplaceAbsent(w, "light", "bright");
  }

  lemma BrightPlain(w: string)
    requires PlainWord(w)
    ensures PlainWord("bright" + w)
  {
    var bright := "bright" + w;
    forall k | 0 <= k < |bright| - 1
      ensures !(bright[k] == 'l' && bright[k + 1] == 'i')
    {
      if k >= 6 {
        assert bright[k] == w[k - 6] && bright[k + 1] == w[k - 5];
      }
    }
  }

  /** `light` in front of a plain word reads as `bright`. */
  lemma NormalizeLight(w: string)
    requires PlainWord(w)
    ensures Normalize("light" + w) == "bright" + w
  {
    var light := "light" + w;
    NoOccurrence(w, "light");
    LowerOfLower(light);
    RemoveAbsentChar(light, ' ');
    RemoveAbsentChar(light, '_');
    ReplaceAbsent(w, "light", "bright");
    assert light[5..] == w;
    assert StartsWith(light, "light");
  }

  /** The base names and their `bright` and `light` forms have the ids
      0..7 and 60..67. */
  lemma NameIds(i: nat)
    requires i < 8
    ensures NameToId(Names[i]) == Success(i)
    ensures NameToId("bright" + Names[i]) == Success(60 + i)
    ensures NameToId("light" + Names[i]) == Success(60 + i)
  {
    var n := Names[i];
    BaseNameId(i);
    BrightNameId(i);
    assert Normalize("light" + n) == Normalize("bright" + n) by {
      NamesAreWords(i);
      NormalizeLight(n);
      BrightPlain(n);
      NormalizePlain("bright" + n);
    }
  }

  lemma BaseNameId(i: nat)
    requires i < 8
    ensures NameToId(Names[i]) == Success(i)
  {
    NamesAreWords(i);
    NormalizePlain(Names[i]);
    NamesDistinct();
    IndexOfDistinct(Names, i);
  }

  lemma BrightNameId(i: nat)
    requires i < 8
    ensures NameToId("bright" + Names[i]) == Success(60 + i)
  {
    var bright := "bright" + Names[i];
    assert BrightNames()[i] == bright;
    calc {
      NameToId(bright);
      { BrightIsNormal(i);
        BrightIsNotBase(i); }
      Success(IndexOf(BrightNames(), bright) + 60);
      { NamesDistinct();
        IndexOfDistinct(BrightNames(), i); }
      Success(60 + i);
    }
  }

  lemma BrightIsNormal(i: nat)
    requires i < 8
    ensures Normalize("bright" + Names[i]) == "bright" + Names[i]
  {
    NamesAreWords(i);
    BrightPlain(Names[i]);
    NormalizePlain("bright" + Names[i]);
  }

  lemma BrightIsNotBase(i: nat)
    requires i < 8
    ensures "bright" + Names[i] !in Names
  {
    var bright := "bright" + Names[i];
    NamesAreShort();
    forall j | 0 <= j < |Names|
      ensures Names[j] != bright
    {
      assert |Names[j]| < |bright|;
    }
  }

  lemma NamesAreWords(i: nat)
    requires i < 8
    ensures PlainWord(Names[i])
  {
  }

  lemma NamesDistinct()
    ensures Distinct(Names) && Distinct(BrightNames())
  {
    assert Distinct(Names);
    forall j, k | 0 <= j < k < 8
      ensures BrightNames()[j] != BrightNames()[k]
    {
      assert BrightNames()[j][6..] == Names[j];
      assert BrightNames()[k][6..] == Names[k];
    }
  }

  lemma NamesAreShort()
    ensures forall j :: 0 <= j < 8 ==> |Names[j]| <= 7
  {
  }

  /** The argument of `NamedColor(name_or_id)`. */
  datatype NameOrId = Id(n: int) | Name(s: string)

  /** `NamedColor.__init__`: an id in 0..15 is kept; a name goes through
      `name_to_id`, whose `ValueError` is re-raised; any other integer
      reaches `name.lower()` and raises `AttributeError`. */
  function NewNamed(arg: NameOrId): (r: Result<Color>)
    ensures arg.Id? && 0 <= arg.n < 16 ==> r == Success(Named(arg.n))
    ensures arg.Id? && !(0 <= arg.n < 16) ==> r == Failure(AttributeError)
    ensures arg.Name? ==> (r.Success? <==> NameToId(arg.s).Success?)
    ensures arg.Name? && r.Success? ==> r.value == Named(NameToId(arg.s).value)
    ensures arg.Name? && r.Failure? ==> r.error == ValueError
  {
    match arg
    case Id(n) => if 0 <= n < 16 then Success(Named(n)) else Failure(AttributeError)
    case Name(s) =>
      match NameToId(s)
      case Success(id) => Success(Named(id))
      case Failure(_) => Failure(ValueError)
  }
}
