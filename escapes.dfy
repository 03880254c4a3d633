/** The escape decoder: the control-key map, the registered escape-sequence
    table, the xterm mouse report and `parse_escape` itself. */
module Escapes {
  import opened Wrappers
  import opened Text
  import opened Constants
  import opened Keys

  // ---------------------------------------------------------------- mouse

  /** `btns & mask` for a power-of-two mask: Python's `&` on a negative int
      acts on its two's-complement, which is the floored remainder. */
  function LowBits(b: int, width: nat): int
    requires 0 < width
  {
    b % width
  }

  /** Bit 5 (0x20) of an int under two's-complement. */
  predicate MotionBit(b: int) {
    (b / 32) % 2 == 1
  }

  /** `parse_mouse`: decodes the three bytes after `ESC [ M`. */
  function ParseMouse(s: string): (r: Result<(nat, MouseEvent)>)
    ensures |s| < 3 <==> r.Failure?
    ensures r.Failure? ==> r.error == UnknownEscape(s)
    ensures r.Success? ==> r.value.0 == 3
    ensures r.Success? ==> r.value.1.x == s[1] as int - 33 && r.value.1.y == s[2] as int - 33
    ensures r.Success? ==> r.value.1.btns == s[0] as int - 32
    ensures r.Success? ==> (r.value.1.left <==> LowBits(s[0] as int - 32, 4) == 0)
    ensures r.Success? ==> (r.value.1.right <==> LowBits(s[0] as int - 32, 4) == 2)
    ensures r.Success? ==>
              (r.value.1.down <==> !MotionBit(s[0] as int - 32) && (r.value.1.left || r.value.1.right))
    ensures r.Success? ==> !(r.value.1.down && r.value.1.up)
    ensures r.Success? && MotionBit(s[0] as int - 32) ==> !r.value.1.down && !r.value.1.up
    ensures r.Success? && !MotionBit(s[0] as int - 32) ==> r.value.1.down || r.value.1.up
  {
    if |s| < 3 then Failure(UnknownEscape(s))
    else
      var btns := s[0] as int - 32;
      var left := LowBits(btns, 4) == 0;
      var right := LowBits(btns, 4) == 2;
      var moved := MotionBit(btns);
      var down := !moved && (left || right);
      var up := !moved && !(left || right);
      Success((3, MouseEvent(s[1] as int - 33, s[2] as int - 33, left, right, down, up, btns)))
  }

  /** A left click at zero-based (x, y) arrives as button byte 32. */
  lemma LeftClickReport(x: nat, y: nat)
    requires x + 33 < 0xD800 && y + 33 < 0xD800
    ensures var r := ParseMouse([32 as char, (x + 33) as char, (y + 33) as char]);
            r.Success? && r.value.1.left && r.value.1.down && !r.value.1.up &&
            r.value.1.x == x && r.value.1.y == y
  {
  }

  // ------------------------------------------------------------- key map

  predicate IsCtrlCode(n: int) {
    1 <= n <= 26 && n != 9 && n != 10
  }

  /** `KEY_MAP`: control codes 1..26 become Ctrl+letter, except Tab (9) and
      line feed (10), which are deleted and so decode as literals. */
  function KeyMap(): map<char, Key> {
    map c: char | IsCtrlCode(c as int) :: CtrlKey(c)
  }

  /** `Key(chr(96 + code), ctrl=True)`. */
  function CtrlKey(c: char): Key
    requires 1 <= c as int <= 26
  {
    NewKey([(96 + c as int) as char], true, false, false, false)
  }

  /** The comprehension of the loop at import, after `i` steps. */
  predicate CodeBelow(c: char, i: int) { 1 <= c as int <= i }

  /** One step of the comprehension: code `i + 1` maps to its letter. */
  lemma CtrlMapStep(i: int)
    requires 0 <= i < 26
    ensures (map c: char | CodeBelow(c, i) :: CtrlKey(c))[(i + 1) as char := NewKey([(97 + i) as char], true, false, false, false)]
            == map c: char | CodeBelow(c, i + 1) :: CtrlKey(c)
  {
    assert CtrlKey((i + 1) as char) == NewKey([(97 + i) as char], true, false, false, false);
  }

  /** The comprehension over codes 1 to 26 without tab and enter is
      `KEY_MAP`. */
  lemma CtrlCodesWithoutTabEnter()
    ensures (map c: char | CodeBelow(c, 26) :: CtrlKey(c)) - {9 as char} - {10 as char} == KeyMap()
  {
    var m := (map c: char | CodeBelow(c, 26) :: CtrlKey(c)) - {9 as char} - {10 as char};
    assert forall c :: c in m <==> c in KeyMap();
  }

  lemma {:induction false} KeyMapEntries(c: char)
    ensures c in KeyMap() <==> IsCtrlCode(c as int)
    ensures c in KeyMap() ==> KeyMap()[c] == Key([(c as int + 96) as char], true, false, false, false)
  {
    if IsCtrlCode(c as int) {
      var s := [(96 + c as int) as char];
      assert !IsUpper(s) by { assert IsLowerAscii(s[0]); }
      assert Lower(s) == s;
    }
  }

  /** Carriage return (13) stays Ctrl+M. */
  lemma CarriageReturnIsCtrlM()
    ensures '\r' in KeyMap() && KeyMap()['\r'] == Key("m", true, false, false, false)
  {
    KeyMapEntries('\r');
  }

  // --------------------------------------------------------- sequence table

  /** What a registered sequence produces: a fixed key, or the mouse parser. */
  datatype Producer = Literal(key: Key) | MouseParser

  datatype Entry = Entry(pattern: string, val: Producer)

  /** The entries `register_seq(*seq, val=val)` appends: one per pattern. */
  function Seqs(patterns: seq<string>, val: Producer): (r: seq<Entry>)
    ensures |r| == |patterns|
    ensures forall i :: 0 <= i < |r| ==> r[i] == Entry(patterns[i], val)
  {
    seq(|patterns|, i requires 0 <= i < |patterns| => Entry(patterns[i], val))
  }

  /** The table after `register_seq(*patterns, val=val)`. */
  function RegisterSeqOf(table: seq<Entry>, patterns: seq<string>, val: Producer): seq<Entry> {
    table + Seqs(patterns, val)
  }

  /** `u` is `t` with only literal-key entries appended. */
  predicate Extends(t: seq<Entry>, u: seq<Entry>) {
    && |t| <= |u|
    && (forall i :: 0 <= i < |t| ==> u[i] == t[i])
    && (forall i :: |t| <= i < |u| ==> u[i].val.Literal? && FixedPattern(u[i].pattern))
  }

  /** A pattern of a fixed key: two characters at least, and not the
      mouse report's `[M` prefix. */
  predicate FixedPattern(p: string) {
    |p| >= 2 && !(p[0] == '[' && p[1] == 'M')
  }

  lemma ExtendsTransitive(t: seq<Entry>, u: seq<Entry>, v: seq<Entry>)
    requires Extends(t, u) && Extends(u, v)
    ensures Extends(t, v)
  {
  }

  /** What the decoder relies on in the registered table: the mouse
      parser under `[M` first, then only fixed keys; KEY_ESC under the
      empty pattern; and no other pattern of length under two. */
  predicate WellFormedTable(t: seq<Entry>) {
    && |t| >= 4
    && t[0] == Entry("[M", MouseParser)
    && t[1].pattern == "[Z" && t[1].val.Literal?
    && t[2] == Entry("", Literal(KeyEsc))
    && t[3] == Entry("[A", Literal(KeyUp))
    && (forall i :: 3 <= i < |t| ==> t[i].val.Literal? && FixedPattern(t[i].pattern))
  }

  function AddSuffix(patterns: seq<string>, suffix: string): (r: seq<string>)
    ensures |r| == |patterns|
    ensures forall i :: 0 <= i < |r| ==> r[i] == patterns[i] + suffix
  {
    seq(|patterns|, i requires 0 <= i < |patterns| => patterns[i] + suffix)
  }

  lemma SuffixKeepsFixed(patterns: seq<string>, suffix: string)
    ensures (forall p :: p in patterns ==> FixedPattern(p)) ==>
              forall p :: p in AddSuffix(patterns, suffix) ==> FixedPattern(p)
  {
    if forall p :: p in patterns ==> FixedPattern(p) {
      forall p | p in AddSuffix(patterns, suffix) ensures FixedPattern(p) {
        var i :| 0 <= i < |patterns| && AddSuffix(patterns, suffix)[i] == p;
        assert patterns[i] in patterns;
      }
    }
  }

  /** The table after `register_seq_mods(*patterns, val=k)`. */
  function RegisterSeqModsOf(table: seq<Entry>, patterns: seq<string>, k: Key): seq<Entry> {
    var t1 := RegisterSeqOf(table, AddSuffix(patterns, "~"), Literal(k));
    var t2 := RegisterSeqOf(t1, AddSuffix(patterns, "$"), Literal(Compose(k, ModShift)));
    var t3 := RegisterSeqOf(t2, AddSuffix(patterns, "^"), Literal(Compose(k, ModCtrl)));
    RegisterSeqOf(t3, AddSuffix(patterns, "@"), Literal(Compose(Compose(k, ModCtrl), ModShift)))
  }

  /** Four entries per pattern; the suffixes `~ $ ^ @` mean no modifier,
      shift, ctrl and ctrl+shift. */
  lemma SeqModsEntries(table: seq<Entry>, p: string, k: Key)
    ensures RegisterSeqModsOf(table, [p], k) == table + [
      Entry(p + "~", Literal(k)),
      Entry(p + "$", Literal(Key(k.key, k.ctrl, k.alt, true, false))),
      Entry(p + "^", Literal(Key(k.key, true, k.alt, k.shift, false))),
      Entry(p + "@", Literal(Key(k.key, true, k.alt, true, false)))]
  {
  }

  /** The registrations after the first section, applied to `t`; the
      table at import time is `SeqListFrom(MiscEntries())`. */
  function SeqListFrom(t: seq<Entry>): seq<Entry> {
    NavigationSeqs(FunctionKeySeqs2(FunctionKeySeqs(ArrowSeqs(t))))
  }

  function MiscEntries(): seq<Entry> {
    [Entry("[M", MouseParser), Entry("[Z", Literal(Compose(KeyTab, ModShift))), Entry("", Literal(KeyEsc))]
  }

  /** The sections after the first only append literal keys, the arrows
      starting with `[A`; so the whole table is well formed. */
  lemma RegisteredTableWellFormed(t0: seq<Entry>, t1: seq<Entry>, t2: seq<Entry>, t3: seq<Entry>, t4: seq<Entry>)
    requires t0 == MiscEntries()
    requires Extends(t0, t1) && |t1| > 3 && t1[3] == Entry("[A", Literal(KeyUp))
    requires Extends(t1, t2) && Extends(t2, t3) && Extends(t3, t4)
    ensures WellFormedTable(t4)
  {
    ExtendsTransitive(t0, t1, t2);
    ExtendsTransitive(t0, t2, t3);
    ExtendsTransitive(t0, t3, t4);
  }

  /** The table the module builds at import time is well formed. */
  lemma BuiltTableWellFormed(t0: seq<Entry>)
    requires t0 == MiscEntries()
    ensures WellFormedTable(SeqListFrom(t0))
  {
    var t1 := ArrowSeqs(t0);
    var t2 := FunctionKeySeqs(t1);
    var t3 := FunctionKeySeqs2(t2);
    ArrowSeqsExtend(t0);
    FunctionKeySeqsExtend(t1);
    FunctionKeySeqs2Extend(t2);
    NavigationSeqsExtend(t3);
    RegisteredTableWellFormed(t0, t1, t2, t3, NavigationSeqs(t3));
  }

  function MiscSeqs(t: seq<Entry>): seq<Entry> {
    var t := RegisterSeqOf(t, ["[M"], MouseParser);
    var t := RegisterSeqOf(t, ["[Z"], Literal(Compose(KeyTab, ModShift)));
    RegisterSeqOf(t, [""], Literal(KeyEsc))
  }

  function ArrowSeqs(t: seq<Entry>): seq<Entry>
  {
    var t := RegisterSeqOf(t, ["[A"], Literal(KeyUp));
    var t := RegisterSeqOf(t, ["[B"], Literal(KeyDown));
    var t := RegisterSeqOf(t, ["[C"], Literal(KeyRight));
    var t := RegisterSeqOf(t, ["[D"], Literal(KeyLeft));
    var t := RegisterSeqOf(t, ["[a"], Literal(Compose(KeyUp, ModShift)));
    var t := RegisterSeqOf(t, ["[b"], Literal(Compose(KeyDown, ModShift)));
    var t := RegisterSeqOf(t, ["[c"], Literal(Compose(KeyRight, ModShift)));
    var t := RegisterSeqOf(t, ["[d"], Literal(Compose(KeyLeft, ModShift)));
    var t := RegisterSeqOf(t, ["Oa"], Literal(Compose(KeyUp, ModCtrl)));
    var t := RegisterSeqOf(t, ["Ob"], Literal(Compose(KeyDown, ModCtrl)));
    var t := RegisterSeqOf(t, ["Oc"], Literal(Compose(KeyRight, ModCtrl)));
    RegisterSeqOf(t, ["Od"], Literal(Compose(KeyLeft, ModCtrl)))
  }

  /** The arrow section appends fixed keys only, `[A` first. */
  lemma ArrowSeqsExtend(t: seq<Entry>)
    ensures Extends(t, ArrowSeqs(t))
    ensures |ArrowSeqs(t)| > |t| && ArrowSeqs(t)[|t|] == Entry("[A", Literal(KeyUp))
  {
    var added := [Entry("[A", Literal(KeyUp)), Entry("[B", Literal(KeyDown)),
                  Entry("[C", Literal(KeyRight)), Entry("[D", Literal(KeyLeft)),
                  Entry("[a", Literal(Compose(KeyUp, ModShift))), Entry("[b", Literal(Compose(KeyDown, ModShift))),
                  Entry("[c", Literal(Compose(KeyRight, ModShift))), Entry("[d", Literal(Compose(KeyLeft, ModShift))),
                  Entry("Oa", Literal(Compose(KeyUp, ModCtrl))), Entry("Ob", Literal(Compose(KeyDown, ModCtrl))),
                  Entry("Oc", Literal(Compose(KeyRight, ModCtrl))), Entry("Od", Literal(Compose(KeyLeft, ModCtrl)))];
    assert ArrowSeqs(t) == t + added;
    forall i | 0 <= i < |added| ensures added[i].val.Literal? && FixedPattern(added[i].pattern) {
    }
  }

  function FunctionKeySeqs(t: seq<Entry>): seq<Entry>
  {
    var t := RegisterSeqModsOf(t, ["[11"], KeyF1);
    var t := RegisterSeqModsOf(t, ["[12"], KeyF2);
    var t := RegisterSeqModsOf(t, ["[13"], KeyF3);
    var t := RegisterSeqModsOf(t, ["[14"], KeyF4);
    var t := RegisterSeqOf(t, ["OP"], Literal(KeyF1));
    var t := RegisterSeqOf(t, ["OQ"], Literal(KeyF2));
    var t := RegisterSeqOf(t, ["OR"], Literal(KeyF3));
    RegisterSeqOf(t, ["OS"], Literal(KeyF4))
  }

  function FunctionKeySeqs2(t: seq<Entry>): seq<Entry>
  {
    var t := RegisterSeqModsOf(t, ["[15"], KeyF5);
    var t := RegisterSeqModsOf(t, ["[17"], KeyF6);
    var t := RegisterSeqModsOf(t, ["[18"], KeyF7);
    var t := RegisterSeqModsOf(t, ["[19"], KeyF8);
    var t := RegisterSeqModsOf(t, ["[20"], KeyF9);
    var t := RegisterSeqModsOf(t, ["[21"], KeyF10);
    var t := RegisterSeqModsOf(t, ["[23"], KeyF11);
    RegisterSeqModsOf(t, ["[24"], KeyF12)
  }

  function NavigationSeqs(t: seq<Entry>): seq<Entry>
  {
    var t := RegisterSeqModsOf(t, ["[2"], KeyIns);
    var t := RegisterSeqModsOf(t, ["[3"], KeyDel);
    var t := RegisterSeqModsOf(t, ["[5"], KeyPgUp);
    var t := RegisterSeqModsOf(t, ["[6"], KeyPgDn);
    var t := RegisterSeqOf(t, ["[H"], Literal(KeyPgUp));
    var t := RegisterSeqOf(t, ["[F"], Literal(KeyPgDn));
    var t := RegisterSeqModsOf(t, ["[7"], KeyHome);
    RegisterSeqModsOf(t, ["[8"], KeyEnd)
  }

  /** One fixed pattern registered with a literal key extends the table. */
  lemma SeqExtends(t: seq<Entry>, p: string, k: Key)
    requires FixedPattern(p)
    ensures Extends(t, RegisterSeqOf(t, [p], Literal(k)))
  {
  }

  /** One fixed pattern registered with its four modifier suffixes extends
      the table. */
  lemma ModsExtends(t: seq<Entry>, p: string, k: Key)
    requires FixedPattern(p)
    ensures Extends(t, RegisterSeqModsOf(t, [p], k))
  {
    SeqModsEntries(t, p, k);
    assert FixedPattern(p + "~") && FixedPattern(p + "$") && FixedPattern(p + "^") && FixedPattern(p + "@");
  }

  /** The function-key sections append fixed keys only. */
  lemma FunctionKeySeqsExtend(t: seq<Entry>)
    ensures Extends(t, FunctionKeySeqs(t))
  {
    var t1 := RegisterSeqModsOf(t, ["[11"], KeyF1);
    var t2 := RegisterSeqModsOf(t1, ["[12"], KeyF2);
    var t3 := RegisterSeqModsOf(t2, ["[13"], KeyF3);
    var t4 := RegisterSeqModsOf(t3, ["[14"], KeyF4);
    var t5 := RegisterSeqOf(t4, ["OP"], Literal(KeyF1));
    var t6 := RegisterSeqOf(t5, ["OQ"], Literal(KeyF2));
    var t7 := RegisterSeqOf(t6, ["OR"], Literal(KeyF3));
    var t8 := RegisterSeqOf(t7, ["OS"], Literal(KeyF4));
    assert Extends(t, t2) by { ModsExtends(t, "[11", KeyF1); ModsExtends(t1, "[12", KeyF2); ExtendsTransitive(t, t1, t2); }
    assert Extends(t2, t4) by { ModsExtends(t2, "[13", KeyF3); ModsExtends(t3, "[14", KeyF4); ExtendsTransitive(t2, t3, t4); }
    assert Extends(t4, t6) by { SeqExtends(t4, "OP", KeyF1); SeqExtends(t5, "OQ", KeyF2); ExtendsTransitive(t4, t5, t6); }
    assert Extends(t6, t8) by { SeqExtends(t6, "OR", KeyF3); SeqExtends(t7, "OS", KeyF4); ExtendsTransitive(t6, t7, t8); }
    ExtendsTransitive(t, t2, t4);
    ExtendsTransitive(t4, t6, t8);
    ExtendsTransitive(t, t4, t8);
  }

  lemma FunctionKeySeqs2Extend(t: seq<Entry>)
    ensures Extends(t, FunctionKeySeqs2(t))
  {
    var t1 := RegisterSeqModsOf(t, ["[15"], KeyF5);
    var t2 := RegisterSeqModsOf(t1, ["[17"], KeyF6);
    var t3 := RegisterSeqModsOf(t2, ["[18"], KeyF7);
    var t4 := RegisterSeqModsOf(t3, ["[19"], KeyF8);
    var t5 := RegisterSeqModsOf(t4, ["[20"], KeyF9);
    var t6 := RegisterSeqModsOf(t5, ["[21"], KeyF10);
    var t7 := RegisterSeqModsOf(t6, ["[23"], KeyF11);
    var t8 := RegisterSeqModsOf(t7, ["[24"], KeyF12);
    assert Extends(t, t2) by { ModsExtends(t, "[15", KeyF5); ModsExtends(t1, "[17", KeyF6); ExtendsTransitive(t, t1, t2); }
    assert Extends(t2, t4) by { ModsExtends(t2, "[18", KeyF7); ModsExtends(t3, "[19", KeyF8); ExtendsTransitive(t2, t3, t4); }
    assert Extends(t4, t6) by { ModsExtends(t4, "[20", KeyF9); ModsExtends(t5, "[21", KeyF10); ExtendsTransitive(t4, t5, t6); }
    assert Extends(t6, t8) by { ModsExtends(t6, "[23", KeyF11); ModsExtends(t7, "[24", KeyF12); ExtendsTransitive(t6, t7, t8); }
    ExtendsTransitive(t, t2, t4);
    ExtendsTransitive(t4, t6, t8);
    ExtendsTransitive(t, t4, t8);
  }

  lemma NavigationSeqsExtend(t: seq<Entry>)
    ensures Extends(t, NavigationSeqs(t))
  {
    var t1 := RegisterSeqModsOf(t, ["[2"], KeyIns);
    var t2 := RegisterSeqModsOf(t1, ["[3"], KeyDel);
    var t3 := RegisterSeqModsOf(t2, ["[5"], KeyPgUp);
    var t4 := RegisterSeqModsOf(t3, ["[6"], KeyPgDn);
    var t5 := RegisterSeqOf(t4, ["[H"], Literal(KeyPgUp));
    var t6 := RegisterSeqOf(t5, ["[F"], Literal(KeyPgDn));
    var t7 := RegisterSeqModsOf(t6, ["[7"], KeyHome);
    var t8 := RegisterSeqModsOf(t7, ["[8"], KeyEnd);
    assert Extends(t, t2) by { ModsExtends(t, "[2", KeyIns); ModsExtends(t1, "[3", KeyDel); ExtendsTransitive(t, t1, t2); }
    assert Extends(t2, t4) by { ModsExtends(t2, "[5", KeyPgUp); ModsExtends(t3, "[6", KeyPgDn); ExtendsTransitive(t2, t3, t4); }
    assert Extends(t4, t6) by { SeqExtends(t4, "[H", KeyPgUp); SeqExtends(t5, "[F", KeyPgDn); ExtendsTransitive(t4, t5, t6); }
    assert Extends(t6, t8) by { ModsExtends(t6, "[7", KeyHome); ModsExtends(t7, "[8", KeyEnd); ExtendsTransitive(t6, t7, t8); }
    ExtendsTransitive(t, t2, t4);
    ExtendsTransitive(t4, t6, t8);
    ExtendsTransitive(t, t4, t8);
  }

  /** The tables of escapes.py as the module builds them at import time:
      `KEY_MAP` by a comprehension and two deletions, `SEQ_LIST` by appends. */
  class DecodeTable {
    var keyMap: map<char, Key>
    var seqList: seq<Entry>

    /** `register_seq`: appends one entry per pattern. */
    method RegisterSeq(patterns: seq<string>, val: Producer)
      modifies this
      ensures seqList == RegisterSeqOf(old(seqList), patterns, val)
      ensures keyMap == old(keyMap)
      ensures val.Literal? && (forall p :: p in patterns ==> FixedPattern(p)) ==> Extends(old(seqList), seqList)
    {
      var i := 0;
      while i < |patterns|
        invariant 0 <= i <= |patterns|
        invariant seqList == old(seqList) + Seqs(patterns[..i], val)
        invariant keyMap == old(keyMap)
      {
        seqList := seqList + [Entry(patterns[i], val)];
        i := i + 1;
        assert Seqs(patterns[..i], val) == Seqs(patterns[..i - 1], val) + [Entry(patterns[i - 1], val)];
      }
      assert patterns[..i] == patterns;
    }

    /** `register_seq_mods`: the four suffixed registrations in turn. */
    method RegisterSeqMods(patterns: seq<string>, k: Key)
      modifies this
      ensures seqList == RegisterSeqModsOf(old(seqList), patterns, k)
      ensures keyMap == old(keyMap)
      ensures (forall p :: p in patterns ==> FixedPattern(p)) ==> Extends(old(seqList), seqList)
    {
      SuffixKeepsFixed(patterns, "~");
      SuffixKeepsFixed(patterns, "$");
      SuffixKeepsFixed(patterns, "^");
      SuffixKeepsFixed(patterns, "@");
      RegisterSeq(AddSuffix(patterns, "~"), Literal(k));
      RegisterSeq(AddSuffix(patterns, "$"), Literal(Compose(k, ModShift)));
      RegisterSeq(AddSuffix(patterns, "^"), Literal(Compose(k, ModCtrl)));
      RegisterSeq(AddSuffix(patterns, "@"), Literal(Compose(Compose(k, ModCtrl), ModShift)));
    }

    constructor ()
      ensures keyMap == KeyMap()
      ensures seqList == SeqListFrom(MiscEntries())
      ensures WellFormedTable(seqList)
    {
      keyMap := map[];
      seqList := [];
      new;
      InitKeyMap();
      RegisterMisc();
      assert [] + MiscEntries() == MiscEntries();
      RegisterArrows();
      RegisterFunctionKeys();
      RegisterFunctionKeys2();
      RegisterNavigation();
      BuiltTableWellFormed(MiscEntries());
    }

    /** The `KEY_MAP` comprehension and the two deletions. */
    method InitKeyMap()
      modifies this
      ensures keyMap == KeyMap() && seqList == old(seqList)
    {
      keyMap := map[];
      var i := 0;
      while i < 26
        invariant 0 <= i <= 26
        invariant seqList == old(seqList)
        invariant keyMap == map c: char | CodeBelow(c, i) :: CtrlKey(c)
      {
        CtrlMapStep(i);
        keyMap := keyMap[(i + 1) as char := NewKey([(97 + i) as char], true, false, false, false)];
        i := i + 1;
      }
      CtrlCodesWithoutTabEnter();
      keyMap := keyMap - {9 as char};   // fix tab key
      keyMap := keyMap - {10 as char};  // fix enter key
    }

    method RegisterMisc()
      modifies this
      ensures seqList == old(seqList) + MiscEntries()
      ensures seqList == MiscSeqs(old(seqList)) && keyMap == old(keyMap)
    {
      RegisterSeq(["[M"], MouseParser);
      RegisterSeq(["[Z"], Literal(Compose(KeyTab, ModShift)));
      RegisterSeq([""], Literal(KeyEsc));
    }

    method RegisterArrows()
      modifies this
      ensures Extends(old(seqList), seqList)
      ensures |seqList| > |old(seqList)| && seqList[|old(seqList)|] == Entry("[A", Literal(KeyUp))
      ensures seqList == ArrowSeqs(old(seqList)) && keyMap == old(keyMap)
    {
      RegisterSeq(["[A"], Literal(KeyUp));
      RegisterSeq(["[B"], Literal(KeyDown));
      RegisterSeq(["[C"], Literal(KeyRight));
      RegisterSeq(["[D"], Literal(KeyLeft));
      RegisterSeq(["[a"], Literal(Compose(KeyUp, ModShift)));
      RegisterSeq(["[b"], Literal(Compose(KeyDown, ModShift)));
      RegisterSeq(["[c"], Literal(Compose(KeyRight, ModShift)));
      RegisterSeq(["[d"], Literal(Compose(KeyLeft, ModShift)));
      RegisterSeq(["Oa"], Literal(Compose(KeyUp, ModCtrl)));
      RegisterSeq(["Ob"], Literal(Compose(KeyDown, ModCtrl)));
      RegisterSeq(["Oc"], Literal(Compose(KeyRight, ModCtrl)));
      RegisterSeq(["Od"], Literal(Compose(KeyLeft, ModCtrl)));
      ArrowSeqsExtend(old(seqList));
    }

    method RegisterFunctionKeys()
      modifies this
      ensures Extends(old(seqList), seqList)
      ensures seqList == FunctionKeySeqs(old(seqList)) && keyMap == old(keyMap)
    {
      RegisterSeqMods(["[11"], KeyF1);
      RegisterSeqMods(["[12"], KeyF2);
      RegisterSeqMods(["[13"], KeyF3);
      RegisterSeqMods(["[14"], KeyF4);
      RegisterSeq(["OP"], Literal(KeyF1));
      RegisterSeq(["OQ"], Literal(KeyF2));
      RegisterSeq(["OR"], Literal(KeyF3));
      RegisterSeq(["OS"], Literal(KeyF4));
      FunctionKeySeqsExtend(old(seqList));
    }

    method RegisterFunctionKeys2()
      modifies this
      ensures Extends(old(seqList), seqList)
      ensures seqList == FunctionKeySeqs2(old(seqList)) && keyMap == old(keyMap)
    {
      RegisterSeqMods(["[15"], KeyF5);
      RegisterSeqMods(["[17"], KeyF6);
      RegisterSeqMods(["[18"], KeyF7);
      RegisterSeqMods(["[19"], KeyF8);
      RegisterSeqMods(["[20"], KeyF9);
      RegisterSeqMods(["[21"], KeyF10);
      RegisterSeqMods(["[23"], KeyF11);
      RegisterSeqMods(["[24"], KeyF12);
      FunctionKeySeqs2Extend(old(seqList));
    }

    method RegisterNavigation()
      modifies this
      ensures Extends(old(seqList), seqList)
      ensures seqList == NavigationSeqs(old(seqList)) && keyMap == old(keyMap)
    {
      RegisterSeqMods(["[2"], KeyIns);
      RegisterSeqMods(["[3"], KeyDel);
      RegisterSeqMods(["[5"], KeyPgUp);
      RegisterSeqMods(["[6"], KeyPgDn);
      RegisterSeq(["[H"], Literal(KeyPgUp));
      RegisterSeq(["[F"], Literal(KeyPgDn));
      RegisterSeqMods(["[7"], KeyHome);
      RegisterSeqMods(["[8"], KeyEnd);
      NavigationSeqsExtend(old(seqList));
    }
    }

  // ---------------------------------------------- longest-prefix matching

  predicate Matches(e: Entry, s: string) {
    StartsWith(s, e.pattern)
  }

  predicate LongestFirst(l: seq<Entry>) {
    forall i, j :: 0 <= i < j < |l| ==> |l[i].pattern| >= |l[j].pattern|
  }

  /** Inserts `e` after every entry at least as long as it. */
  function InsertByLen(e: Entry, l: seq<Entry>): (r: seq<Entry>)
    ensures multiset(r) == multiset(l) + multiset{e}
  {
    if l == [] then [e]
    else if |l[0].pattern| >= |e.pattern| then
      assert l == [l[0]] + l[1..];
      [l[0]] + InsertByLen(e, l[1..])
    else [e] + l
  }

  lemma {:induction false} InsertKeepsLongestFirst(e: Entry, l: seq<Entry>)
    requires LongestFirst(l)
    ensures LongestFirst(InsertByLen(e, l))
  {
    if l != [] && |l[0].pattern| >= |e.pattern| {
      var tail := InsertByLen(e, l[1..]);
      InsertKeepsLongestFirst(e, l[1..]);
      InsertKeepsBound(e, l[1..], |l[0].pattern|);
      var r := [l[0]] + tail;
      forall i, j | 0 <= i < j < |r| ensures |r[i].pattern| >= |r[j].pattern| {
        if i == 0 { assert r[j] == tail[j - 1]; }
        else { assert r[i] == tail[i - 1] && r[j] == tail[j - 1]; }
      }
    }
  }

  /** Inserting a pattern no longer than `m` among patterns no longer than
      `m` keeps them all no longer than `m`. */
  lemma {:induction false} InsertKeepsBound(e: Entry, l: seq<Entry>, m: nat)
    requires |e.pattern| <= m
    requires forall i :: 0 <= i < |l| ==> |l[i].pattern| <= m
    ensures forall i :: 0 <= i < |InsertByLen(e, l)| ==> |InsertByLen(e, l)[i].pattern| <= m
  {
    if l != [] && |l[0].pattern| >= |e.pattern| {
      InsertKeepsBound(e, l[1..], m);
      var tail := InsertByLen(e, l[1..]);
      forall i | 0 <= i < |[l[0]] + tail| ensures |([l[0]] + tail)[i].pattern| <= m {
        if i > 0 { assert ([l[0]] + tail)[i] == tail[i - 1]; }
      }
    }
  }

  /** `sorted(SEQ_LIST, key=len, reverse=True)`: longest first, and, the
      sort being stable, equal lengths in registration order. */
  function SortByLen(t: seq<Entry>): (r: seq<Entry>)
    ensures multiset(r) == multiset(t)
    ensures LongestFirst(r)
  {
    if t == [] then []
    else
      assert t == t[..|t| - 1] + [t[|t| - 1]];
      InsertKeepsLongestFirst(t[|t| - 1], SortByLen(t[..|t| - 1]));
      InsertByLen(t[|t| - 1], SortByLen(t[..|t| - 1]))
  }

  /** The first entry of a list whose pattern prefixes `s`. */
  function FirstMatch(l: seq<Entry>, s: string): (r: Option<Entry>)
    ensures r.Some? ==> r.value in l && Matches(r.value, s)
    ensures r.None? <==> forall e :: e in l ==> !Matches(e, s)
  {
    if l == [] then None
    else if Matches(l[0], s) then Some(l[0])
    else FirstMatch(l[1..], s)
  }

  /** The entry registration order selects for `s`: a longest matching
      pattern, ties going to the earliest registered. */
  function Best(t: seq<Entry>, s: string): (r: Option<Entry>)
  {
    if t == [] then None
    else
      var b := Best(t[..|t| - 1], s);
      var e := t[|t| - 1];
      if Matches(e, s) && (b.None? || |e.pattern| > |b.value.pattern|) then Some(e) else b
  }

  /** Best is the longest match, and no match registered earlier is as long. */
  lemma {:induction false} BestIsLongestEarliest(t: seq<Entry>, s: string)
    ensures var r := Best(t, s);
            && (r.None? <==> forall e :: e in t ==> !Matches(e, s))
            && (r.Some? ==> Matches(r.value, s))
            && (r.Some? ==> forall e :: e in t && Matches(e, s) ==> |e.pattern| <= |r.value.pattern|)
            && (r.Some? ==>
                  exists k :: 0 <= k < |t| && t[k] == r.value &&
                    forall j :: 0 <= j < k && Matches(t[j], s) ==> |t[j].pattern| < |r.value.pattern|)
  {
    if t != [] {
      var u := t[..|t| - 1];
      BestIsLongestEarliest(u, s);
      assert t == u + [t[|t| - 1]];
      var b := Best(u, s);
      var e := t[|t| - 1];
      if Matches(e, s) && (b.None? || |e.pattern| > |b.value.pattern|) {
        assert Best(t, s) == Some(e);
        var k := |t| - 1;
        forall j | 0 <= j < k && Matches(t[j], s) ensures |t[j].pattern| < |e.pattern| {
          assert t[j] in u;
        }
      } else if b.Some? {
        var k :| 0 <= k < |u| && u[k] == b.value &&
                 forall j :: 0 <= j < k && Matches(u[j], s) ==> |u[j].pattern| < |b.value.pattern|;
        assert t[k] == b.value;
      }
    }
  }

  /** The registration index of the best match. */
  lemma BestIndex(t: seq<Entry>, s: string, i: nat) returns (k: nat)
    requires i < |t| && Matches(t[i], s)
    ensures Best(t, s).Some?
    ensures k < |t| && t[k] == Best(t, s).value
    ensures forall e :: e in t && Matches(e, s) ==> |e.pattern| <= |t[k].pattern|
    ensures forall j :: 0 <= j < k && Matches(t[j], s) ==> |t[j].pattern| < |t[k].pattern|
    ensures Matches(t[k], s)
  {
    BestIsLongestEarliest(t, s);
    k :| 0 <= k < |t| && t[k] == Best(t, s).value &&
         forall j :: 0 <= j < k && Matches(t[j], s) ==> |t[j].pattern| < |Best(t, s).value.pattern|;
  }

  lemma {:induction false} FirstMatchOfInsert(e: Entry, l: seq<Entry>, s: string)
    requires LongestFirst(l)
    ensures var f := FirstMatch(l, s);
            FirstMatch(InsertByLen(e, l), s) ==
              if Matches(e, s) && (f.None? || |e.pattern| > |f.value.pattern|) then Some(e) else f
  {
    if l != [] {
      if |l[0].pattern| >= |e.pattern| {
        assert InsertByLen(e, l) == [l[0]] + InsertByLen(e, l[1..]);
        if !Matches(l[0], s) {
          FirstMatchOfInsert(e, l[1..], s);
        }
      } else {
        var f := FirstMatch(l, s);
        if f.Some? {
          var i :| 0 <= i < |l| && l[i] == f.value;
          assert |l[i].pattern| <= |l[0].pattern|;
        }
      }
    }
  }

  /** Scanning the sorted table for the first prefix picks exactly the
      longest, earliest-registered match. */
  lemma {:induction false} FirstMatchOfSortedIsBest(t: seq<Entry>, s: string)
    ensures FirstMatch(SortByLen(t), s) == Best(t, s)
  {
    if t != [] {
      FirstMatchOfSortedIsBest(t[..|t| - 1], s);
      FirstMatchOfInsert(t[|t| - 1], SortByLen(t[..|t| - 1]), s);
    }
  }

  // ------------------------------------------------------------ decoding

  /** What `parse_escape` yields before it stops, and the exception it
      raises in the end, if any. */
  datatype Decoded = Decoded(events: seq<Event>, error: Option<Error>)

  function Prepend(e: Event, d: Decoded): Decoded {
    Decoded([e] + d.events, d.error)
  }

  /** The raw dump of what is left after an unknown escape: one
      non-printable key per character. */
  function Dump(rest: string): (r: seq<Event>)
    ensures |r| == |rest|
    ensures forall i :: 0 <= i < |r| ==> r[i] == KeyEvent(KeyOf([rest[i]]))
  {
    seq(|rest|, i requires 0 <= i < |rest| => KeyEvent(KeyOf([rest[i]])))
  }

  /** The `except UnknownEscape` clause: dump `rest` when unknown escapes
      are allowed, re-raise otherwise. */
  function Unknown(rest: string, allowUnknown: bool): Decoded {
    if allowUnknown then Decoded(Dump(rest), None) else Decoded([], Some(UnknownEscape(rest)))
  }

  /** The key an alt-prefixed character stands for. */
  function AltKey(keyMap: map<char, Key>, c: char): Key {
    if c in keyMap then Compose(keyMap[c], ModAlt) else NewKey([c], false, true, false, true)
  }

  /** One turn of the loop of `parse_escape`: an event and the input left
      after it, the alt key that ends the loop, or the input left when
      `UnknownEscape` is raised. */
  datatype Step = Emit(ev: Event, rest: string) | Last(ev: Event) | Raise(rest: string)

  function Next(keyMap: map<char, Key>, seqKey: seq<Entry>, s: string): (r: Step)
    requires |s| > 0
    ensures r.Emit? ==> |r.rest| < |s| && s[|s| - |r.rest|..] == r.rest
    ensures r.Raise? ==> |r.rest| < |s| && s[|s| - |r.rest|..] == r.rest
  {
    if s[0] != ESC then
      Emit(KeyEvent(if s[0] in keyMap then keyMap[s[0]] else NewKey([s[0]], false, false, false, true)), s[1..])
    else if |s| == 2 && (s[1] as int) < 127 then
      Last(KeyEvent(AltKey(keyMap, s[1])))
    else
      var rest := s[1..];
      match FirstMatch(seqKey, rest)
      case None => Raise(rest)
      case Some(e) =>
        var after := rest[|e.pattern|..];
        assert s[|s| - |after|..] == after;
        match e.val
        case Literal(k) => Emit(KeyEvent(k), after)
        case MouseParser =>
          match ParseMouse(after)
          case Failure(_) => Raise(after)
          case Success(r) =>
            assert s[|s| - |after[3..]|..] == after[3..];
            Emit(MouseEv(r.1), after[3..])
  }

  /** The loop of `parse_escape`, over the key map and the sorted table
      `seqKey`. */
  function Decode(keyMap: map<char, Key>, seqKey: seq<Entry>, s: string, allowUnknown: bool): Decoded
    decreases |s|
  {
    if |s| == 0 then Decoded([], None)
    else
      match Next(keyMap, seqKey, s)
      case Emit(ev, rest) => Prepend(ev, Decode(keyMap, seqKey, rest, allowUnknown))
      case Last(ev) => Decoded([ev], None)
      case Raise(rest) => Unknown(rest, allowUnknown)
  }

  /** `parse_escape(seq, allow_unknown_escapes)` with the tables as
      registered. */
  function ParseEscape(keyMap: map<char, Key>, seqList: seq<Entry>, s: string, allowUnknown: bool): Decoded {
    Decode(keyMap, SortByLen(seqList), s, allowUnknown)
  }

  // ------------------------------------------------------ decoder lemmas

  /** Text without escapes or control codes decodes to one printable key
      per character. */
  lemma PlainTextDecodes(keyMap: map<char, Key>, seqKey: seq<Entry>, s: string, allowUnknown: bool)
    requires forall i :: 0 <= i < |s| ==> s[i] != ESC && s[i] !in keyMap
    ensures var d := Decode(keyMap, seqKey, s, allowUnknown);
            && d.error == None
            && |d.events| == |s|
            && forall i :: 0 <= i < |s| ==> d.events[i] == KeyEvent(NewKey([s[i]], false, false, false, true))
  {
    PlainDecode(keyMap, seqKey, s, allowUnknown);
  }

  /** One printable key per character of `s`. */
  function PlainEvents(s: string): (r: seq<Event>)
    ensures |r| == |s|
    ensures forall i :: 0 <= i < |s| ==> r[i] == KeyEvent(NewKey([s[i]], false, false, false, true))
  {
    seq(|s|, i requires 0 <= i < |s| => KeyEvent(NewKey([s[i]], false, false, false, true)))
  }

  lemma {:induction false} PlainDecode(keyMap: map<char, Key>, seqKey: seq<Entry>, s: string, allowUnknown: bool)
    requires forall i :: 0 <= i < |s| ==> s[i] != ESC && s[i] !in keyMap
    ensures Decode(keyMap, seqKey, s, allowUnknown) == Decoded(PlainEvents(s), None)
    decreases |s|
  {
    if s != [] {
      var tail := s[1..];
      assert forall i :: 0 <= i < |tail| ==> tail[i] == s[i + 1];
      PlainDecode(keyMap, seqKey, tail, allowUnknown);
      PlainCharStep(keyMap, seqKey, s, allowUnknown);
      PlainEventsCons(s);
    }
  }

  lemma PlainEventsCons(s: string)
    requires |s| > 0
    ensures PlainEvents(s) == [KeyEvent(NewKey([s[0]], false, false, false, true))] + PlainEvents(s[1..])
  {
    assert forall i :: 0 <= i < |s| - 1 ==> s[1..][i] == s[i + 1];
  }

  /** A printable first character is one key, then the rest decodes. */
  lemma PlainCharStep(keyMap: map<char, Key>, seqKey: seq<Entry>, s: string, allowUnknown: bool)
    requires |s| > 0 && s[0] != ESC && s[0] !in keyMap
    ensures Decode(keyMap, seqKey, s, allowUnknown) ==
              Prepend(KeyEvent(NewKey([s[0]], false, false, false, true)), Decode(keyMap, seqKey, s[1..], allowUnknown))
  {
    DecodeUnfold(keyMap, seqKey, s, allowUnknown);
  }

  /** Every event consumes at least one character. */
  lemma {:induction false} AtMostOneEventPerChar(keyMap: map<char, Key>, seqKey: seq<Entry>, s: string, allowUnknown: bool)
    ensures |Decode(keyMap, seqKey, s, allowUnknown).events| <= |s|
    decreases |s|
  {
    if |s| > 0 {
      match Next(keyMap, seqKey, s)
      case Emit(ev, rest) => AtMostOneEventPerChar(keyMap, seqKey, rest, allowUnknown);
      case Last(ev) =>
      case Raise(rest) =>
    }
  }

  /** Decoding with unknown escapes allowed never raises. */
  lemma {:induction false} LenientNeverRaises(keyMap: map<char, Key>, seqKey: seq<Entry>, s: string)
    ensures Decode(keyMap, seqKey, s, true).error.None?
    decreases |s|
  {
    if |s| > 0 {
      match Next(keyMap, seqKey, s)
      case Emit(ev, rest) => LenientNeverRaises(keyMap, seqKey, rest);
      case Last(ev) =>
      case Raise(rest) =>
    }
  }

  /** Strict decoding delivers the same events as lenient decoding up to
      the unknown escape; lenient decoding then dumps the rest raw. */
  predicate LenientCompletes(strict: Decoded, lenient: Decoded) {
    && (strict.error.None? ==> lenient.events == strict.events)
    && (strict.error.Some? ==>
          strict.error.value.UnknownEscape? &&
          lenient.events == strict.events + Dump(strict.error.value.rest))
  }

  lemma LenientCompletesPrepend(ev: Event, strict: Decoded, lenient: Decoded)
    requires LenientCompletes(strict, lenient)
    ensures LenientCompletes(Prepend(ev, strict), Prepend(ev, lenient))
  {
    if strict.error.Some? {
      assert [ev] + (strict.events + Dump(strict.error.value.rest)) ==
             ([ev] + strict.events) + Dump(strict.error.value.rest);
    }
  }

  lemma {:induction false} StrictThenLenient(keyMap: map<char, Key>, seqKey: seq<Entry>, s: string)
    ensures LenientCompletes(Decode(keyMap, seqKey, s, false), Decode(keyMap, seqKey, s, true))
    decreases |s|
  {
    if |s| > 0 {
      var n := Next(keyMap, seqKey, s);
      DecodeUnfold(keyMap, seqKey, s, false);
      DecodeUnfold(keyMap, seqKey, s, true);
      if n.Emit? {
        StrictThenLenient(keyMap, seqKey, n.rest);
        LenientCompletesPrepend(n.ev, Decode(keyMap, seqKey, n.rest, false), Decode(keyMap, seqKey, n.rest, true));
      } else if n.Raise? {
        assert [] + Dump(n.rest) == Dump(n.rest);
      }
    }
  }

  /** One turn of the decoding loop, spelled out by the kind of step. */
  lemma DecodeUnfold(keyMap: map<char, Key>, seqKey: seq<Entry>, s: string, allowUnknown: bool)
    requires |s| > 0
    ensures var n := Next(keyMap, seqKey, s);
            && (n.Emit? ==> Decode(keyMap, seqKey, s, allowUnknown) ==
                              Prepend(n.ev, Decode(keyMap, seqKey, n.rest, allowUnknown)))
            && (n.Last? ==> Decode(keyMap, seqKey, s, allowUnknown) == Decoded([n.ev], None))
            && (n.Raise? ==> Decode(keyMap, seqKey, s, allowUnknown) == Unknown(n.rest, allowUnknown))
  {
  }

  /** In any ordering of a well-formed table the first matching entry
      exists, and only the `[M` entry runs the mouse parser. */
  lemma {:induction false} TableMatch(table: seq<Entry>, sorted: seq<Entry>, rest: string)
    requires WellFormedTable(table)
    requires multiset(sorted) == multiset(table)
    ensures var f := FirstMatch(sorted, rest);
            && f.Some?
            && (f.value.val.MouseParser? ==> f.value.pattern == "[M")
  {
    var f := FirstMatch(sorted, rest);
    var esc := table[2];
    assert Matches(esc, rest);
    assert esc in multiset(table);
    assert esc in sorted;
    if f.Some? && f.value.val.MouseParser? {
      assert f.value in multiset(sorted);
      assert f.value in table;
      var k :| 0 <= k < |table| && table[k] == f.value;
      assert k == 0;
    }
  }

  /** With a well-formed table the loop raises only on a mouse report
      cut short: fewer than three bytes after `ESC [ M`. */
  lemma NextRaisesOnlyOnShortMouse(keyMap: map<char, Key>, table: seq<Entry>, seqKey: seq<Entry>, s: string)
    requires WellFormedTable(table)
    requires multiset(seqKey) == multiset(table)
    requires |s| > 0
    ensures var n := Next(keyMap, seqKey, s);
            n.Raise? ==> |n.rest| < 3 && s == [ESC, '[', 'M'] + n.rest
  {
    if s[0] == ESC && !(|s| == 2 && (s[1] as int) < 127) {
      TableMatch(table, seqKey, s[1..]);
    }
  }

  /** With the registered table, strict decoding raises only on a mouse
      report cut short, which is then the end of the input. */
  lemma {:induction false} OnlyShortMouseReportsRaise(keyMap: map<char, Key>, table: seq<Entry>, seqKey: seq<Entry>, s: string)
    requires WellFormedTable(table)
    requires multiset(seqKey) == multiset(table)
    ensures var d := Decode(keyMap, seqKey, s, false);
            d.error.Some? ==>
              && d.error.value.UnknownEscape?
              && |d.error.value.rest| < 3
              && |s| >= 3 + |d.error.value.rest|
              && s[|s| - 3 - |d.error.value.rest|..] == [ESC, '[', 'M'] + d.error.value.rest
    decreases |s|
  {
    if |s| > 0 {
      NextRaisesOnlyOnShortMouse(keyMap, table, seqKey, s);
      match Next(keyMap, seqKey, s)
      case Emit(ev, rest) =>
        OnlyShortMouseReportsRaise(keyMap, table, seqKey, rest);
        var d := Decode(keyMap, seqKey, rest, false);
        assert Decode(keyMap, seqKey, s, false) == Prepend(ev, d);
        if d.error.Some? {
          var m := |d.error.value.rest|;
          assert s[|s| - 3 - m..] == rest[|rest| - 3 - m..];
        }
      case Last(ev) =>
      case Raise(rest) =>
    }
  }


  /** An escape sequence decodes by the longest registered pattern that
      prefixes it, ties going to the earliest registration. */
  lemma EscapeTakesLongestMatch(keyMap: map<char, Key>, table: seq<Entry>, s: string, allowUnknown: bool)
    requires |s| > 0 && s[0] == ESC && !(|s| == 2 && (s[1] as int) < 127)
    requires Best(table, s[1..]).Some? && Best(table, s[1..]).value.val.Literal?
    ensures var e := Best(table, s[1..]).value;
            && |s| >= 1 + |e.pattern|
            && ParseEscape(keyMap, table, s, allowUnknown) ==
                 Prepend(KeyEvent(e.val.key), ParseEscape(keyMap, table, s[1 + |e.pattern|..], allowUnknown))
  {
    FirstMatchOfSortedIsBest(table, s[1..]);
    var e := Best(table, s[1..]).value;
    assert s[1..][|e.pattern|..] == s[1 + |e.pattern|..];
  }

  /** The first registration of a pattern is the best match for exactly
      that pattern. */
  lemma FirstRegistrationIsBest(table: seq<Entry>, i: nat)
    requires i < |table|
    requires forall j :: 0 <= j < i ==> table[j].pattern != table[i].pattern
    ensures Best(table, table[i].pattern) == Some(table[i])
  {
    var p := table[i].pattern;
    assert Matches(table[i], p);
    var k := BestIndex(table, p, i);
    assert table[k].pattern == p by {
      assert table[i] in table;
    }
  }

  /** Entry `i` registers a fixed key under a pattern that is not a
      single character (which would read as alt and a key). */
  predicate FixedKeyEntry(table: seq<Entry>, i: nat)
    requires i < |table|
  {
    table[i].val.Literal? && |table[i].pattern| != 1
  }

  /** Every entry after the mouse parser in a well-formed table is one. */
  lemma WellFormedEntries(table: seq<Entry>, i: nat)
    requires WellFormedTable(table) && 0 < i < |table|
    ensures FixedKeyEntry(table, i)
  {
    if i >= 3 { assert FixedPattern(table[i].pattern); }
  }

  /** A fixed key that is the best match for exactly its own pattern
      decodes back from ESC and that pattern. */
  lemma BestEntryRoundTrip(keyMap: map<char, Key>, table: seq<Entry>, e: Entry, allowUnknown: bool)
    requires Best(table, e.pattern) == Some(e) && e.val.Literal? && |e.pattern| != 1
    ensures ParseEscape(keyMap, table, [ESC] + e.pattern, allowUnknown) == Decoded([KeyEvent(e.val.key)], None)
  {
    var s := [ESC] + e.pattern;
    assert s[1..] == e.pattern;
    EscapeTakesLongestMatch(keyMap, table, s, allowUnknown);
    assert s[1 + |e.pattern|..] == [];
  }

  /** Every fixed key of the table, sent as ESC and its pattern, decodes
      back to that key alone, unless an earlier registration took the
      same pattern. */
  lemma RegisteredSequenceRoundTrip(keyMap: map<char, Key>, table: seq<Entry>, i: nat, allowUnknown: bool)
    requires 0 < i < |table| && FixedKeyEntry(table, i)
    requires forall j :: 0 <= j < i ==> table[j].pattern != table[i].pattern
    ensures ParseEscape(keyMap, table, [ESC] + table[i].pattern, allowUnknown) ==
              Decoded([KeyEvent(table[i].val.key)], None)
  {
    FirstRegistrationIsBest(table, i);
    BestEntryRoundTrip(keyMap, table, table[i], allowUnknown);
  }

  /** `ESC [ A` is the up arrow; a lone ESC is the escape key. */
  lemma ArrowUpAndLoneEscape(keyMap: map<char, Key>, table: seq<Entry>, allowUnknown: bool)
    requires WellFormedTable(table)
    ensures ParseEscape(keyMap, table, [ESC, '[', 'A'], allowUnknown) == Decoded([KeyEvent(KeyUp)], None)
    ensures ParseEscape(keyMap, table, [ESC], allowUnknown) == Decoded([KeyEvent(KeyEsc)], None)
  {
    ArrowUpDecodes(keyMap, table, allowUnknown);
    LoneEscapeDecodes(keyMap, table, allowUnknown);
  }

  /** Entry 3, `[A`, is the first registration of its pattern. */
  lemma ArrowUpDecodes(keyMap: map<char, Key>, table: seq<Entry>, allowUnknown: bool)
    requires WellFormedTable(table)
    ensures ParseEscape(keyMap, table, [ESC] + table[3].pattern, allowUnknown) == Decoded([KeyEvent(KeyUp)], None)
    ensures [ESC] + table[3].pattern == [ESC, '[', 'A']
  {
    WellFormedEntries(table, 3);
    RegisteredSequenceRoundTrip(keyMap, table, 3, allowUnknown);
  }

  /** Entry 2, the empty pattern, is the first registration of its
      pattern. */
  lemma LoneEscapeDecodes(keyMap: map<char, Key>, table: seq<Entry>, allowUnknown: bool)
    requires WellFormedTable(table)
    ensures ParseEscape(keyMap, table, [ESC] + table[2].pattern, allowUnknown) == Decoded([KeyEvent(KeyEsc)], None)
    ensures [ESC] + table[2].pattern == [ESC]
  {
    WellFormedEntries(table, 2);
    RegisteredSequenceRoundTrip(keyMap, table, 2, allowUnknown);
  }

  /** The part of a well-formed table a mouse report depends on: `[M`
      first, and no other pattern of two characters or more starting
      with it. */
  predicate MouseFirst(t: seq<Entry>) {
    && |t| >= 2
    && t[0] == Entry("[M", MouseParser)
    && t[1].pattern == "[Z"
    && (forall i :: 2 <= i < |t| ==> |t[i].pattern| < 2 || FixedPattern(t[i].pattern))
  }

  lemma WellFormedMouseFirst(table: seq<Entry>)
    requires WellFormedTable(table)
    ensures MouseFirst(table)
  {
  }

  /** `ESC [ M` and three bytes is a mouse report, decoded by
      `parse_mouse`; decoding goes on after it. */
  lemma MouseReportDecodes(keyMap: map<char, Key>, table: seq<Entry>, report: string, rest: string, allowUnknown: bool)
    requires MouseFirst(table)
    requires |report| == 3
    ensures var s := [ESC, '[', 'M'] + report + rest;
            ParseEscape(keyMap, table, s, allowUnknown) ==
              Prepend(MouseEv(ParseMouse(report).value.1), ParseEscape(keyMap, table, rest, allowUnknown))
  {
    var s := [ESC, '[', 'M'] + report + rest;
    MouseStep(keyMap, table, report, rest);
    assert |s| > 0;
  }

  /** One turn of the loop over a mouse report. */
  lemma MouseStep(keyMap: map<char, Key>, table: seq<Entry>, report: string, rest: string)
    requires MouseFirst(table)
    requires |report| == 3
    ensures Next(keyMap, SortByLen(table), [ESC, '[', 'M'] + report + rest) ==
              Emit(MouseEv(ParseMouse(report).value.1), rest)
  {
    var s := [ESC, '[', 'M'] + report + rest;
    var q := s[1..];
    assert q == ['[', 'M'] + (report + rest);
    MouseEntryFirst(table, q);
    assert q[2..] == report + rest;
    MouseReportPrefix(report, rest);
    assert (report + rest)[3..] == rest;
  }

  /** `parse_mouse` reads only the first three characters. */
  lemma MouseReportPrefix(report: string, rest: string)
    requires |report| == 3
    ensures ParseMouse(report + rest) == ParseMouse(report)
  {
    assert (report + rest)[..3] == report;
  }

  /** Text starting with `[M` matches the mouse entry before any other. */
  lemma MouseEntryFirst(table: seq<Entry>, q: string)
    requires MouseFirst(table)
    requires |q| >= 2 && q[0] == '[' && q[1] == 'M'
    ensures FirstMatch(SortByLen(table), q) == Some(table[0])
  {
    MouseEntryBest(table, q);
    FirstMatchOfSortedIsBest(table, q);
  }

  lemma MouseEntryBest(table: seq<Entry>, q: string)
    requires MouseFirst(table)
    requires |q| >= 2 && q[0] == '[' && q[1] == 'M'
    ensures Best(table, q) == Some(table[0])
  {
    assert Matches(table[0], q);
    var k := BestIndex(table, q, 0);
    var p := table[k].pattern;
    assert |p| >= 2 && p[..2] == q[..2];
    assert p[0] == '[' && p[1] == 'M';
    assert k == 1 ==> p == "[Z";
    assert k >= 2 ==> FixedPattern(p);
  }

  /** ESC and one ASCII character is that key with alt; a control code
      keeps its ctrl letter. */
  lemma AltKeyDecodes(table: seq<Entry>, c: char, allowUnknown: bool)
    requires (c as int) < 127
    ensures var k := ParseEscape(KeyMap(), table, [ESC, c], allowUnknown);
            && k.error.None?
            && |k.events| == 1
            && (IsCtrlCode(c as int) ==>
                  k.events[0] == KeyEvent(Key([(c as int + 96) as char], true, true, false, false)))
            && (!IsCtrlCode(c as int) ==>
                  k.events[0] == KeyEvent(NewKey([c], false, true, false, true)))
  {
    KeyMapEntries(c);
  }

  /** A control code other than tab and line feed decodes to ctrl and a
      letter. */
  lemma ControlCodeDecodes(table: seq<Entry>, c: char, rest: string, allowUnknown: bool)
    requires IsCtrlCode(c as int)
    ensures ParseEscape(KeyMap(), table, [c] + rest, allowUnknown) ==
              Prepend(KeyEvent(Key([(c as int + 96) as char], true, false, false, false)),
                      ParseEscape(KeyMap(), table, rest, allowUnknown))
  {
    KeyMapEntries(c);
    assert ([c] + rest)[1..] == rest;
  }
}
