/** Control sequences as section 5.4 of ECMA-48 lays them out: CSI, a run
    of parameter bytes (0x30..0x3F: digits, `:`, `;`, `<`, `=`, `>`, `?`),
    and one final byte (0x40..0x7E). Every escape the adaptors write is
    one of these; `Parse` reads a written string back, so each serialiser
    can be stated as "renders exactly these control functions". */
module Ecma48 {
  import opened Wrappers
  import opened Text
  import opened Constants

  datatype Control = Control(params: string, final: char)

  predicate ParamByte(c: char) { '0' <= c <= '?' }

  predicate FinalByte(c: char) { '@' <= c <= '~' }

  predicate WellFormed(c: Control) {
    (forall i :: 0 <= i < |c.params| ==> ParamByte(c.params[i])) && FinalByte(c.final)
  }

  function Render(c: Control): string {
    CSI + c.params + [c.final]
  }

  function RenderAll(cs: seq<Control>): string
    decreases |cs|
  {
    if cs == [] then "" else Render(cs[0]) + RenderAll(cs[1..])
  }

  /** The length of the run of parameter bytes at the front of `s`. */
  function ParamRun(s: string): (n: nat)
    ensures n <= |s|
    ensures forall i :: 0 <= i < n ==> ParamByte(s[i])
    ensures n < |s| ==> !ParamByte(s[n])
  {
    if s != [] && ParamByte(s[0]) then 1 + ParamRun(s[1..]) else 0
  }

  /** Read a string as a sequence of control sequences; `None` when some
      part of it is not one. */
  function Parse(s: string): Option<seq<Control>>
    decreases |s|
  {
    if s == [] then Some([])
    else if !StartsWith(s, CSI) then None
    else
      var body := s[|CSI|..];
      var n := ParamRun(body);
      if n < |body| && FinalByte(body[n]) then
        match Parse(body[n + 1..])
        case None => None
        case Some(rest) => Some([Control(body[..n], body[n])] + rest)
      else None
  }

  /** The run ends exactly where the parameters of a rendered control end. */
  lemma ParamRunOfRender(c: Control, rest: string)
    requires WellFormed(c)
    ensures ParamRun(c.params + [c.final] + rest) == |c.params|
    decreases |c.params|
  {
    if c.params != [] {
      var s := c.params + [c.final] + rest;
      assert s[1..] == c.params[1..] + [c.final] + rest;
      ParamRunOfRender(Control(c.params[1..], c.final), rest);
    }
  }

  /** Parsing what was rendered gives the controls back. */
  lemma {:induction false} ParseRenderAll(cs: seq<Control>)
    requires forall i :: 0 <= i < |cs| ==> WellFormed(cs[i])
    ensures Parse(RenderAll(cs)) == Some(cs)
    decreases |cs|
  {
    if cs != [] {
      ParseRenderAll(cs[1..]);
      ParseFront(cs[0], RenderAll(cs[1..]));
      assert [cs[0]] + cs[1..] == cs;
    }
  }

  /** A rendered control in front of a string is read first. */
  lemma ParseFront(c: Control, rest: string)
    requires WellFormed(c)
    ensures Parse(Render(c) + rest) ==
              if Parse(rest).Some? then Some([c] + Parse(rest).value) else None
  {
    var s := Render(c) + rest;
    var body := c.params + [c.final] + rest;
    assert s == CSI + body;
    assert s[|CSI|..] == body;
    ParamRunOfRender(c, rest);
    assert body[..|c.params|] == c.params;
    assert body[|c.params|] == c.final;
    assert body[|c.params| + 1..] == rest;
  }

  /** A string that parses is exactly the rendering of what it parses to,
      and every control read is well formed. */
  lemma {:induction false} RenderParse(s: string)
    requires Parse(s).Some?
    ensures RenderAll(Parse(s).value) == s
    ensures forall i :: 0 <= i < |Parse(s).value| ==> WellFormed(Parse(s).value[i])
    decreases |s|
  {
    if s != [] {
      var c, tail := ParseHead(s);
      RenderParse(tail);
      var cs := Parse(s).value;
      assert cs[0] == c && cs[1..] == Parse(tail).value;
    }
  }

  /** A non-empty string that parses starts with a well-formed control,
      and the rest parses to the other controls. */
  lemma ParseHead(s: string) returns (c: Control, tail: string)
    requires s != [] && Parse(s).Some?
    ensures WellFormed(c) && s == Render(c) + tail && |tail| < |s|
    ensures Parse(tail).Some? && Parse(s).value == [c] + Parse(tail).value
  {
    var body := s[|CSI|..];
    var n := ParamRun(body);
    assert StartsWith(s, CSI) && n < |body| && FinalByte(body[n]);
    c := Control(body[..n], body[n]);
    tail := body[n + 1..];
    assert s == Render(c) + tail by {
      CsiSplit(s, n);
    }
  }

  /** A string that starts with CSI is CSI, `n` bytes, one byte and the
      rest. */
  lemma CsiSplit(s: string, n: nat)
    requires StartsWith(s, CSI) && n < |s| - |CSI|
    ensures var body := s[|CSI|..];
            s == CSI + body[..n] + [body[n]] + body[n + 1..]
  {
    var body := s[|CSI|..];
    assert s == s[..|CSI|] + body;
    assert body == body[..n] + [body[n]] + body[n + 1..];
  }

  /** A run of decimal digits is a run of parameter bytes. */
  lemma DigitsAreParams(s: string)
    requires AllDigits(s)
    ensures forall i :: 0 <= i < |s| ==> ParamByte(s[i])
  {
  }

  /** One control alone reads back as itself. */
  lemma ParseOne(c: Control)
    requires WellFormed(c)
    ensures Parse(Render(c)) == Some([c])
  {
    ParseRenderAll([c]);
    assert [c][1..] == [];
    assert RenderAll([c]) == Render(c) + RenderAll([]);
    assert Render(c) + "" == Render(c);
  }

  /** The values of `;`-separated fields, each a non-empty run of decimal
      digits (section 5.4.2 of ECMA-48, without defaults or sub-strings). */
  function FieldValues(fields: seq<string>): (r: Option<seq<nat>>)
    ensures r.Some? ==> |r.value| == |fields|
  {
    if fields == [] then Some([])
    else if |fields[0]| > 0 && AllDigits(fields[0]) then
      match FieldValues(fields[1..])
      case None => None
      case Some(rest) => Some([DigitsValue(fields[0])] + rest)
    else None
  }

  /** The numeric parameters of a control. */
  function Numbers(c: Control): Option<seq<nat>> {
    FieldValues(Split(c.params, ';'))
  }

  /** The control that carries the numbers `ns` in decimal. */
  function WithNumbers(ns: seq<nat>, final: char): Control {
    Control(Join([';'], NatStrings(ns)), final)
  }

  lemma {:induction false} FieldValuesOfNats(ns: seq<nat>)
    ensures FieldValues(NatStrings(ns)) == Some(ns)
    decreases |ns|
  {
    if ns != [] {
      assert NatStrings(ns)[1..] == NatStrings(ns[1..]);
      FieldValuesOfNats(ns[1..]);
      DigitsValueOfNatToString(ns[0]);
      assert [ns[0]] + ns[1..] == ns;
    }
  }

  /** Decimal fields joined by `;` are all parameter bytes. */
  lemma {:induction false} JoinedDigitsAreParams(parts: seq<string>)
    requires forall k :: 0 <= k < |parts| ==> AllDigits(parts[k])
    ensures forall i :: 0 <= i < |Join([';'], parts)| ==> ParamByte(Join([';'], parts)[i])
    decreases |parts|
  {
    if |parts| > 1 {
      JoinedDigitsAreParams(parts[..|parts| - 1]);
    }
  }

  /** A control built from numbers is well formed when its final byte is,
      and its numbers read back. */
  lemma NumbersOfWithNumbers(ns: seq<nat>, final: char)
    requires |ns| >= 1 && FinalByte(final)
    ensures WellFormed(WithNumbers(ns, final))
    ensures Numbers(WithNumbers(ns, final)) == Some(ns)
  {
    var parts := NatStrings(ns);
    JoinedDigitsAreParams(parts);
    forall k | 0 <= k < |parts|
      ensures ';' !in parts[k]
    {
    }
    SplitJoin(parts, ';');
    FieldValuesOfNats(ns);
  }
}
